/** What the JSON reader gives back of what the printer wrote. */
module JsonTheorems {
  import opened Wrappers
  import opened JsonText
  import opened JsonNormal
  import opened Json

  // ----- texts that every enclosing search runs through -----

  /** The search runs through `s` wherever it is already inside a brace or a bracket. */
  ghost predicate Level(s: string) {
    forall lp: nat, lb: nat :: lp + lb > 0 ==> Scan(s, lp, lb) == Through(lp, lb)
  }

  /** The same search, started deeper. */
  lemma {:induction false} ScanDeeper(s: string, lp: nat, lb: nat, x: nat, y: nat)
    requires Scan(s, lp, lb).Through?
    ensures var o := Scan(s, lp, lb); Scan(s, lp + x, lb + y) == Through(o.lp + x, o.lb + y)
  {
    if s != "" {
      ScanDeeper(s[1..], AfterBrace(s[0], lp), AfterBracket(s[0], lb), x, y);
    }
  }

  lemma ClosedIsLevel(s: string)
    requires Closed(s)
    ensures Level(s)
  {
    forall lp: nat, lb: nat | lp + lb > 0
      ensures Scan(s, lp, lb) == Through(lp, lb)
    {
      ScanDeeper(s, 0, 0, lp, lb);
    }
  }

  lemma LevelConcat(s: string, t: string)
    requires Level(s) && Level(t)
    ensures Level(s + t)
  {
    forall lp: nat, lb: nat | lp + lb > 0
      ensures Scan(s + t, lp, lb) == Through(lp, lb)
    {
      ScanConcat(s, t, lp, lb);
    }
  }

  lemma ClosedConcat(s: string, t: string)
    requires Closed(s) && Closed(t)
    ensures Closed(s + t)
  {
    ScanConcat(s, t, 0, 0);
  }

  /** Braces or brackets around a level text close it. */
  lemma WrapCloses(s: string)
    requires Level(s)
    ensures Closed("{" + s + "}") && Closed("[" + s + "]")
  {
    hide Scan;
    ScanOne('{', 0, 0);
    ScanOne('}', 1, 0);
    ScanOne('[', 0, 0);
    ScanOne(']', 0, 1);
    ScanConcat("{", s, 0, 0);
    ScanConcat("{" + s, "}", 0, 0);
    ScanConcat("[", s, 0, 0);
    ScanConcat("[" + s, "]", 0, 0);
  }

  lemma ScanOne(c: char, lp: nat, lb: nat)
    requires (c == '}' ==> lp > 0) && (c == ']' ==> lb > 0) && (c == ',' ==> lp + lb > 0)
    ensures Scan([c], lp, lb) == Through(AfterBrace(c, lp), AfterBracket(c, lb))
  {
    assert [c][1..] == "";
  }

  lemma PlainIsClosed(c: char)
    requires !IsTarget(c)
    ensures Closed([c])
  {
    ScanOne(c, 0, 0);
  }

  lemma CommaIsLevel()
    ensures Level(",")
  {
    forall lp: nat, lb: nat | lp + lb > 0
      ensures Scan(",", lp, lb) == Through(lp, lb)
    {
      ScanOne(',', lp, lb);
    }
  }

  /** Where the search runs through, the normaliser's brace count agrees with its own. */
  lemma {:induction false} ScanCountsBraces(s: string, lp: nat, lb: nat)
    requires Scan(s, lp, lb).Through?
    ensures StaysOpen(s, lp + 1) && Braces(s, lp + 1) == Scan(s, lp, lb).lp + 1
  {
    if s != "" {
      ScanCountsBraces(s[1..], AfterBrace(s[0], lp), AfterBracket(s[0], lb));
    }
  }

  lemma LevelIsBalanced(s: string)
    requires Level(s)
    ensures Balanced(s)
  {
    ScanCountsBraces(s, 0, 1);
  }

  // ----- the documents that survive printing and parsing -----

  predicate QuoteFree(s: string) {
    forall i :: 0 <= i < |s| ==> s[i] != '"' && s[i] != '\0'
  }

  predicate BackslashFree(s: string) {
    forall i :: 0 <= i < |s| ==> s[i] != '\\'
  }

  predicate ColonFree(s: string) {
    forall i :: 0 <= i < |s| ==> s[i] != ':'
  }

  /** No quote, backslash or NUL; braces and brackets match, and every comma stands inside some of them. */
  ghost predicate GoodString(s: string) {
    QuoteFree(s) && BackslashFree(s) && Closed(s)
  }

  /** Strings without any character that the reader or the printer treats specially are good. */
  lemma {:induction false} PlainStringIsGood(s: string)
    requires QuoteFree(s) && BackslashFree(s) && forall i :: 0 <= i < |s| ==> !IsTarget(s[i])
    ensures GoodString(s)
  {
    hide IsTarget;
    SkipScan(s);
  }

  lemma {:induction false} SkipScan(s: string)
    requires forall i :: 0 <= i < |s| ==> !IsTarget(s[i])
    ensures Closed(s)
  {
    if s != "" {
      SkipScan(s[1..]);
    }
  }

  ghost predicate GoodKey(s: string) {
    QuoteFree(s) && ColonFree(s) && Closed(s)
  }

  /** Strings, objects, and arrays of strings and objects, at any depth. */
  ghost predicate GoodValue(v: Value)
    decreases v
  {
    match v
    case IntValue(_) => false
    case StringValue(s) => GoodString(s)
    case ObjectValue(es) => GoodElements(es)
    case VectorValue(vs) => GoodItems(vs)
  }

  ghost predicate GoodItems(vs: seq<Value>)
    decreases vs
  {
    |vs| == 0 || (!vs[0].VectorValue? && GoodValue(vs[0]) && GoodItems(vs[1..]))
  }

  ghost predicate GoodElement(e: Element)
    decreases e
  {
    GoodKey(e.key) && e.value.Some? && GoodValue(e.value.value)
  }

  ghost predicate GoodElements(es: seq<Element>)
    decreases es
  {
    |es| == 0 || (GoodElement(es[0]) && GoodElements(es[1..]))
  }

  // ----- documents whose strings leave the quotes of the printed text alone -----

  /** No quote and no NUL in any string, at any depth. */
  predicate QuietValue(v: Value)
    decreases v
  {
    match v
    case IntValue(_) => true
    case StringValue(s) => QuoteFree(s)
    case ObjectValue(es) => QuietElements(es)
    case VectorValue(vs) => QuietItems(vs)
  }

  predicate QuietItems(vs: seq<Value>)
    decreases vs
  {
    |vs| == 0 || (QuietValue(vs[0]) && QuietItems(vs[1..]))
  }

  /** Nor in any key. */
  predicate QuietElement(e: Element)
    decreases e
  {
    QuoteFree(e.key) && (e.value.Some? ==> QuietValue(e.value.value))
  }

  predicate QuietElements(es: seq<Element>)
    decreases es
  {
    |es| == 0 || (QuietElement(es[0]) && QuietElements(es[1..]))
  }

  lemma {:induction false} GoodIsQuiet(es: seq<Element>)
    requires GoodElements(es)
    ensures QuietElements(es)
    decreases es
  {
    hide Closed;
    if |es| > 0 {
      GoodValueIsQuiet(es[0].value.value);
      GoodIsQuiet(es[1..]);
    }
  }

  lemma {:induction false} GoodItemsAreQuiet(vs: seq<Value>)
    requires GoodItems(vs)
    ensures QuietItems(vs)
    decreases vs
  {
    if |vs| > 0 {
      GoodValueIsQuiet(vs[0]);
      GoodItemsAreQuiet(vs[1..]);
    }
  }

  lemma {:induction false} GoodValueIsQuiet(v: Value)
    requires GoodValue(v)
    ensures QuietValue(v)
    decreases v
  {
    hide Closed;
    match v {
      case StringValue(s) =>
      case ObjectValue(es) =>
        GoodIsQuiet(es);
      case VectorValue(vs) =>
        GoodItemsAreQuiet(vs);
    }
  }

  // ----- the printed form without its white space -----

  function CompactValue(v: Value): string
    decreases v
  {
    match v
    case IntValue(n) => Decimal(n)
    case StringValue(s) => "\"" + Escape(s) + "\""
    case ObjectValue(es) => "{" + Join(CompactElements(es), ",") + "}"
    case VectorValue(vs) => "[" + Join(CompactItems(vs), ",") + "]"
  }

  function CompactItems(vs: seq<Value>): (ps: seq<string>)
    ensures |ps| == |vs|
    decreases vs
  {
    if |vs| == 0 then [] else [CompactValue(vs[0])] + CompactItems(vs[1..])
  }

  function CompactElement(e: Element): string
    decreases e
  {
    "\"" + e.key + "\"" + ":" + match e.value { case Some(v) => CompactValue(v) case None => "\"null\"" }
  }

  function CompactElements(es: seq<Element>): (ps: seq<string>)
    ensures |ps| == |es|
    decreases es
  {
    if |es| == 0 then [] else [CompactElement(es[0])] + CompactElements(es[1..])
  }

  // ----- stripping the printed text -----

  lemma {:induction false} StripConcat(s: string, t: string, q: bool)
    ensures Strip(s + t, q) == Strip(s, q) + Strip(t, Quoted(s, q))
    ensures Quoted(s + t, q) == Quoted(t, Quoted(s, q))
  {
    hide IsSpace, Emit, Toggle;
    if s == "" {
      assert s + t == t;
    } else {
      assert (s + t)[1..] == s[1..] + t;
      var q' := Toggle(s[0], q);
      StripConcat(s[1..], t, q');
      EmitConcat(s[0], q || !IsSpace(s[0]), Strip(s[1..], q'), Strip(t, Quoted(s, q)));
    }
  }

  /** Outside strings exactly the six characters of `isspace` go. */
  lemma WhiteSpaceGoes(s: string, c: char, t: string)
    requires !Quoted(s, false) && c != '"'
    ensures Strip(s + [c] + t, false) == Strip(s + t, false) <==> c in " \t\n\r" || c as int == 11 || c as int == 12
  {
    hide Strip, Quoted;
    StripConcat(s, [c] + t, false);
    StripConcat(s, t, false);
    assert s + [c] + t == s + ([c] + t);
    StripOne(c, t);
    assert Strip(s, false) + ([c] + Strip(t, false)) != Strip(s, false) + Strip(t, false) by {
      assert |[c] + Strip(t, false)| > |Strip(t, false)|;
    }
  }

  lemma StripOne(c: char, t: string)
    requires c != '"'
    ensures Strip([c] + t, false) == (if IsSpace(c) then Strip(t, false) else [c] + Strip(t, false))
  {
    assert ([c] + t)[1..] == t;
  }

  /** A NUL-free text is normalised alike with any of them inserted outside its strings. */
  lemma NormalizeDropsSpace(s: string, c: char, t: string)
    requires NulFree(s + t) && !Quoted(s, false) && (c in " \t\n\r" || c as int == 11 || c as int == 12)
    ensures Normalize(s + [c] + t) == Normalize(s + t)
  {
    hide Strip, Quoted, Normalize;
    WhiteSpaceGoes(s, c, t);
    assert NulFree(s + [c] + t) by {
      assert forall k :: 0 <= k < |s| ==> s[k] == (s + t)[k];
      assert forall k :: 0 <= k < |t| ==> t[k] == (s + t)[|s| + k];
    }
    NormalizeIgnoresSpace(s + [c] + t, s + t);
  }

  lemma {:induction false} StripInsideString(s: string)
    requires QuoteFree(s)
    ensures Strip(s, true) == s && Quoted(s, true)
  {
    if s != "" {
      StripInsideString(s[1..]);
    }
  }

  /** `s` strips to `t`, contains no NUL, and leaves no string open. */
  ghost predicate StripsTo(s: string, t: string) {
    Strip(s, false) == t && !Quoted(s, false) && NulFree(s)
  }

  lemma StripsConcat(s: string, s': string, t: string, t': string)
    requires StripsTo(s, s') && StripsTo(t, t')
    ensures StripsTo(s + t, s' + t')
  {
    StripConcat(s, t, false);
  }

  lemma StripsPlain(c: char)
    requires c != '"' && c != '\0'
    ensures StripsTo([c], if IsSpace(c) then "" else [c])
  {
    assert [c][1..] == "";
  }

  lemma StripsQuoted(s: string)
    requires QuoteFree(s)
    ensures StripsTo("\"" + s + "\"", "\"" + s + "\"")
  {
    hide IsSpace, Strip, Quoted;
    StripInsideString(s);
    StripConcat(s, "\"", true);
    ClosingQuoteStrips();
    OpeningQuoteStrips(s + "\"");
    assert "\"" + s + "\"" == "\"" + (s + "\"");
  }

  lemma OpeningQuoteStrips(t: string)
    ensures Strip("\"" + t, false) == "\"" + Strip(t, true) && Quoted("\"" + t, false) == Quoted(t, true)
  {
    assert ("\"" + t)[1..] == t;
    SpaceIsPlain('"');
  }

  lemma ClosingQuoteStrips()
    ensures Strip("\"", true) == "\"" && !Quoted("\"", true)
  {
    assert "\""[1..] == "";
  }

  lemma SpacesStrip(c: char)
    requires c == ',' || c == ':'
    ensures StripsTo([c] + " ", [c])
  {
    StripsPlain(c);
    StripsPlain(' ');
    StripsConcat([c], [c], " ", "");
    assert [c] + "" == [c];
  }

  lemma EscapeHead(s: string)
    requires s != ""
    ensures Escape(s) == (if IsEscaped(s[0]) then ['\\', s[0]] else [s[0]]) + Escape(s[1..])
  {
  }

  /** Escaping a text without quotes doubles its backslashes only. */
  lemma {:induction false} EscapeStaysQuoteFree(s: string)
    requires QuoteFree(s)
    ensures QuoteFree(Escape(s))
    ensures Escape(s) == s <==> BackslashFree(s)
    ensures |Escape(s)| >= |s|
  {
    if s != "" {
      EscapeStaysQuoteFree(s[1..]);
      EscapeHead(s);
    }
  }

  /** No white space, no quotes and no NUL. */
  predicate IsPlainText(s: string) {
    forall i :: 0 <= i < |s| ==> !IsSpace(s[i]) && s[i] != '"' && s[i] != '\0'
  }

  /** Plain text is left as it is. */
  lemma {:induction false} PlainTextStrips(s: string)
    requires IsPlainText(s)
    ensures StripsTo(s, s)
  {
    hide IsSpace;
    if s != "" {
      PlainTextStrips(s[1..]);
    }
  }

  lemma {:induction false} DecimalIsPlain(n: int)
    ensures IsPlainText(Decimal(n))
    decreases n < 0, if n < 0 then -n else n
  {
    if n < 0 {
      DecimalIsPlain(-n);
    } else if n >= 10 {
      DecimalIsPlain(n / 10);
      DecimalIsPlain(n % 10);
    } else {
      DigitIsPlain(n);
    }
  }

  lemma DigitIsPlain(n: int)
    requires 0 <= n < 10
    ensures '0' <= "0123456789"[n] <= '9'
  {
  }

  lemma {:induction false} ValueStrips(v: Value)
    requires QuietValue(v)
    ensures StripsTo(PrintValue(v), CompactValue(v))
    decreases v
  {
    hide StripsTo, Decimal, Escape;
    match v {
      case IntValue(n) =>
        DecimalIsPlain(n);
        PlainTextStrips(Decimal(n));
      case StringValue(s) =>
        EscapeStaysQuoteFree(s);
        StripsQuoted(Escape(s));
      case ObjectValue(es) =>
        ElementsStrip(es);
        BracesStrip(Join(PrintElements(es), ", "), Join(CompactElements(es), ","), '{', '}');
      case VectorValue(vs) =>
        ItemsStrip(vs);
        BracesStrip(Join(PrintItems(vs), ", "), Join(CompactItems(vs), ","), '[', ']');
    }
  }

  lemma BracesStrip(s: string, t: string, open: char, close: char)
    requires StripsTo(s, t)
    requires (open == '{' && close == '}') || (open == '[' && close == ']')
    ensures StripsTo([open] + s + [close], [open] + t + [close])
  {
    hide StripsTo;
    StripsPlain(open);
    StripsPlain(close);
    StripsConcat([open], [open], s, t);
    StripsConcat([open] + s, [open] + t, [close], [close]);
  }

  lemma CommaStrips(s: string, s': string, t: string, t': string)
    requires StripsTo(s, s') && StripsTo(t, t')
    ensures StripsTo(s + ", " + t, s' + "," + t')
  {
    hide StripsTo;
    SpacesStrip(',');
    assert [','] + " " == ", ";
    StripsConcat(s, s', ", ", ",");
    StripsConcat(s + ", ", s' + ",", t, t');
  }

  lemma {:induction false} ItemsStrip(vs: seq<Value>)
    requires QuietItems(vs)
    ensures StripsTo(Join(PrintItems(vs), ", "), Join(CompactItems(vs), ","))
    decreases vs
  {
    hide StripsTo, PrintValue, CompactValue, QuietValue;
    if |vs| == 0 {
      NothingStrips();
    } else {
      ValueStrips(vs[0]);
      ItemsStrip(vs[1..]);
      if |vs| > 1 {
        CommaStrips(PrintValue(vs[0]), CompactValue(vs[0]), Join(PrintItems(vs[1..]), ", "),
            Join(CompactItems(vs[1..]), ","));
      }
    }
  }

  lemma NothingStrips()
    ensures StripsTo("", "")
  {
  }

  lemma {:induction false} ElementStrips(e: Element)
    requires QuietElement(e)
    ensures StripsTo(PrintElement(e), CompactElement(e))
    decreases e
  {
    hide StripsTo, PrintValue, CompactValue, QuietValue;
    StripsQuoted(e.key);
    SpacesStrip(':');
    var k := "\"" + e.key + "\"";
    assert [':'] + " " == ": ";
    StripsConcat(k, k, ": ", ":");
    match e.value {
      case Some(v) =>
        ValueStrips(v);
        StripsConcat(k + ": ", k + ":", PrintValue(v), CompactValue(v));
      case None =>
        StripsQuoted("null");
        assert "\"" + "null" + "\"" == "\"null\"";
        StripsConcat(k + ": ", k + ":", "\"null\"", "\"null\"");
    }
  }

  /** White space outside strings is all that the printed elements have beyond the compact ones. */
  lemma {:induction false} ElementsStrip(es: seq<Element>)
    requires QuietElements(es)
    ensures StripsTo(Join(PrintElements(es), ", "), Join(CompactElements(es), ","))
    decreases es
  {
    hide StripsTo, PrintElement, CompactElement, QuietElement;
    if |es| == 0 {
      NothingStrips();
    } else {
      ElementStrips(es[0]);
      ElementsStrip(es[1..]);
      if |es| > 1 {
        CommaStrips(PrintElement(es[0]), CompactElement(es[0]), Join(PrintElements(es[1..]), ", "),
            Join(CompactElements(es[1..]), ","));
      }
    }
  }

  // ----- the compact text splits where it was joined -----

  lemma QuotedCloses(s: string)
    requires Closed(s)
    ensures Closed("\"" + s + "\"")
  {
    hide Closed;
    PlainIsClosed('"');
    ClosedConcat("\"", s);
    ClosedConcat("\"" + s, "\"");
  }

  lemma {:induction false} ValueCloses(v: Value)
    requires GoodValue(v)
    ensures Closed(CompactValue(v))
    decreases v
  {
    hide Closed, Level;
    match v {
      case StringValue(s) =>
        EscapeStaysQuoteFree(s);
        QuotedCloses(s);
      case ObjectValue(es) =>
        ElementsLevel(es);
        WrapCloses(Join(CompactElements(es), ","));
      case VectorValue(vs) =>
        ItemsLevel(vs);
        WrapCloses(Join(CompactItems(vs), ","));
    }
  }

  lemma NothingIsLevel()
    ensures Level("")
  {
  }

  lemma {:induction false} ItemsLevel(vs: seq<Value>)
    requires GoodItems(vs)
    ensures Level(Join(CompactItems(vs), ","))
    decreases vs
  {
    hide Closed, Level, CompactValue, GoodValue;
    if |vs| == 0 {
      NothingIsLevel();
    } else {
      ValueCloses(vs[0]);
      ClosedIsLevel(CompactValue(vs[0]));
      ItemsLevel(vs[1..]);
      if |vs| > 1 {
        CommaIsLevel();
        LevelConcat(CompactValue(vs[0]), ",");
        LevelConcat(CompactValue(vs[0]) + ",", Join(CompactItems(vs[1..]), ","));
      }
    }
  }

  lemma {:induction false} ElementCloses(e: Element)
    requires GoodElement(e)
    ensures Closed(CompactElement(e))
    decreases e
  {
    hide Closed, Level, CompactValue, GoodValue;
    QuotedCloses(e.key);
    PlainIsClosed(':');
    ValueCloses(e.value.value);
    var k := "\"" + e.key + "\"";
    ClosedConcat(k, ":");
    ClosedConcat(k + ":", CompactValue(e.value.value));
  }

  lemma {:induction false} ElementsLevel(es: seq<Element>)
    requires GoodElements(es)
    ensures Level(Join(CompactElements(es), ","))
    decreases es
  {
    hide Closed, Level, CompactElement, GoodElement;
    if |es| == 0 {
      NothingIsLevel();
    } else {
      ElementCloses(es[0]);
      ClosedIsLevel(CompactElement(es[0]));
      ElementsLevel(es[1..]);
      if |es| > 1 {
        CommaIsLevel();
        LevelConcat(CompactElement(es[0]), ",");
        LevelConcat(CompactElement(es[0]) + ",", Join(CompactElements(es[1..]), ","));
      }
    }
  }

  lemma ClosedIsNotSplit(s: string)
    requires Closed(s)
    ensures FindIn(s, 0, 0) == None
  {
    FindAfter(s, "", 0, 0);
    assert s + "" == s;
  }

  /** Closed pieces, none of them empty. */
  ghost predicate ClosedPieces(ps: seq<string>) {
    |ps| == 0 || (Closed(ps[0]) && ps[0] != "" && ClosedPieces(ps[1..]))
  }

  lemma PartsOfNothing()
    ensures Parts("") == []
  {
  }

  lemma {:induction false} ClosedPiecesSplittable(ps: seq<string>)
    requires |ps| > 0 && ClosedPieces(ps)
    ensures Splittable(ps)
  {
    hide Closed, FindIn;
    ClosedIsNotSplit(ps[0]);
    if |ps| > 1 {
      ClosedPiecesSplittable(ps[1..]);
    }
  }

  lemma {:induction false} ItemPieces(vs: seq<Value>)
    requires GoodItems(vs)
    ensures ClosedPieces(CompactItems(vs))
  {
    hide Closed;
    if |vs| > 0 {
      ValueCloses(vs[0]);
      ItemPieces(vs[1..]);
    }
  }

  lemma {:induction false} ElementPieces(es: seq<Element>)
    requires GoodElements(es)
    ensures ClosedPieces(CompactElements(es))
  {
    hide Closed, GoodElement;
    if |es| > 0 {
      ElementCloses(es[0]);
      ElementPieces(es[1..]);
    }
  }

  // ----- pieces of texts -----

  lemma {:induction false} IndexAfter(s: string, t: string, c: char)
    requires forall i :: 0 <= i < |s| ==> s[i] != c
    ensures IndexOf(s + [c] + t, c) == Some(|s|)
  {
    if s == "" {
      assert s + [c] + t == [c] + t;
    } else {
      assert (s + [c] + t)[1..] == s[1..] + [c] + t;
      IndexAfter(s[1..], t, c);
    }
  }

  lemma WrappedInner(s: string, open: char, close: char)
    ensures Wrapped([open] + s + [close], open, close) && Inner([open] + s + [close]) == s
  {
  }

  lemma FirstIsQuote(es: seq<Element>)
    ensures !(['{'] <= Join(CompactElements(es), ","))
  {
    if |es| > 0 {
      assert CompactElement(es[0])[0] == '"';
      assert Join(CompactElements(es), ",")[0] == '"';
    }
  }

  /** The compact text of an object is already stripped. */
  lemma CompactStrips(es: seq<Element>)
    requires QuietElements(es)
    ensures StripsTo(Join(CompactElements(es), ","), Join(CompactElements(es), ","))
  {
    hide IsSpace, CompactElement, QuietElement, PrintElement;
    ElementsStrip(es);
    var s, t := Join(PrintElements(es), ", "), Join(CompactElements(es), ",");
    StripTwice(s, false);
    QuotedOfStrip(s, false);
  }

  lemma {:induction false} QuotedOfStrip(s: string, q: bool)
    ensures Quoted(Strip(s, q), q) == Quoted(s, q)
  {
    hide IsSpace;
    if s != "" {
      SpaceIsPlain(s[0]);
      QuotedOfStrip(s[1..], Toggle(s[0], q));
      if q || !IsSpace(s[0]) {
        assert Strip(s, q)[1..] == Strip(s[1..], Toggle(s[0], q));
      }
    }
  }
}

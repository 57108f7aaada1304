/** The layout of printed documents: one space after each comma and colon outside strings, and no other. */
module JsonFormat {
  import opened JsonText
  import opened Json
  import opened JsonTheorems

  /** Where a reader that knows strings and escapes is in a text. */
  datatype Mode = Outside | InString | Escaped

  function NextMode(c: char, m: Mode): Mode {
    match m
    case Outside => if c == '"' then InString else Outside
    case InString => if c == '\\' then Escaped else if c == '"' then Outside else InString
    case Escaped => InString
  }

  function ModeAfter(s: string, m: Mode): Mode {
    if s == "" then m else ModeAfter(s[1..], NextMode(s[0], m))
  }

  /** The text with a space after each comma and colon outside its strings. */
  function Spaced(s: string, m: Mode): string {
    if s == "" then "" else Widened(s[0], m) + Spaced(s[1..], NextMode(s[0], m))
  }

  function Widened(c: char, m: Mode): string {
    if m.Outside? && (c == ',' || c == ':') then [c, ' '] else [c]
  }

  lemma {:induction false} SpacedConcat(s: string, t: string, m: Mode)
    ensures Spaced(s + t, m) == Spaced(s, m) + Spaced(t, ModeAfter(s, m))
    ensures ModeAfter(s + t, m) == ModeAfter(t, ModeAfter(s, m))
  {
    hide NextMode, Widened;
    if s == "" {
      assert s + t == t;
    } else {
      assert (s + t)[1..] == s[1..] + t;
      SpacedConcat(s[1..], t, NextMode(s[0], m));
      Associate(Widened(s[0], m), Spaced(s[1..], NextMode(s[0], m)), Spaced(t, ModeAfter(s, m)));
    }
  }

  lemma Associate(x: string, y: string, z: string)
    ensures x + (y + z) == (x + y) + z
  {
  }

  /** `s` becomes `t`, and leaves no string open. */
  ghost predicate SpacesTo(s: string, t: string) {
    Spaced(s, Outside) == t && ModeAfter(s, Outside) == Outside
  }

  lemma SpacesConcat(s: string, s': string, t: string, t': string)
    requires SpacesTo(s, s') && SpacesTo(t, t')
    ensures SpacesTo(s + t, s' + t')
  {
    SpacedConcat(s, t, Outside);
  }

  lemma SpacesOne(c: char)
    requires c != '"'
    ensures SpacesTo([c], if c == ',' || c == ':' then [c, ' '] else [c])
  {
    assert [c][1..] == "";
  }

  // ----- strings -----

  lemma {:induction false} EscapedStays(s: string)
    ensures Spaced(Escape(s), InString) == Escape(s) && ModeAfter(Escape(s), InString) == InString
  {
    if s != "" {
      EscapedStays(s[1..]);
      var head := if IsEscaped(s[0]) then ['\\', s[0]] else [s[0]];
      SpacedConcat(head, Escape(s[1..]), InString);
      HeadStays(s[0]);
    }
  }

  lemma HeadStays(c: char)
    ensures var head := if IsEscaped(c) then ['\\', c] else [c];
      Spaced(head, InString) == head && ModeAfter(head, InString) == InString
  {
    if IsEscaped(c) {
      OneStays('\\', InString);
      OneStays(c, Escaped);
      SpacedConcat(['\\'], [c], InString);
      assert ['\\'] + [c] == ['\\', c];
    } else {
      OneStays(c, InString);
    }
  }

  lemma OneStays(c: char, m: Mode)
    requires m != Outside
    ensures Spaced([c], m) == [c] && ModeAfter([c], m) == NextMode(c, m)
  {
    assert [c][1..] == "";
  }

  lemma QuotedStays(text: string)
    requires Spaced(text, InString) == text && ModeAfter(text, InString) == InString
    ensures SpacesTo("\"" + text + "\"", "\"" + text + "\"")
  {
    var close := "\"";
    assert close[1..] == "";
    SpacedConcat(text, close, InString);
    assert ("\"" + text + close)[1..] == text + close;
  }

  // ----- documents -----

  /** A key without quotes and backslashes, which is printed as it is. */
  predicate IsPlainKey(key: string) {
    forall i :: 0 <= i < |key| ==> !IsEscaped(key[i])
  }

  predicate PlainKeys(es: seq<Element>)
    decreases es
  {
    |es| == 0 ||
    (IsPlainKey(es[0].key) && (es[0].value.Some? ==> PlainKeysIn(es[0].value.value)) && PlainKeys(es[1..]))
  }

  predicate PlainKeysIn(v: Value)
    decreases v
  {
    match v
    case IntValue(_) => true
    case StringValue(_) => true
    case ObjectValue(es) => PlainKeys(es)
    case VectorValue(vs) => PlainKeysInItems(vs)
  }

  predicate PlainKeysInItems(vs: seq<Value>)
    decreases vs
  {
    |vs| == 0 || (PlainKeysIn(vs[0]) && PlainKeysInItems(vs[1..]))
  }

  lemma {:induction false} PlainTextSpaces(s: string)
    requires forall i :: 0 <= i < |s| ==> s[i] == '-' || '0' <= s[i] <= '9'
    ensures SpacesTo(s, s)
  {
    if s != "" {
      PlainTextSpaces(s[1..]);
      SpacesOne(s[0]);
      SpacesConcat([s[0]], [s[0]], s[1..], s[1..]);
      assert [s[0]] + s[1..] == s;
    }
  }

  lemma {:induction false} DecimalDigits(n: int)
    ensures forall i :: 0 <= i < |Decimal(n)| ==> Decimal(n)[i] == '-' || '0' <= Decimal(n)[i] <= '9'
    decreases n < 0, if n < 0 then -n else n
  {
    if n < 0 {
      DecimalDigits(-n);
    } else {
      DigitIsPlain(n % 10);
      if n >= 10 {
        DecimalDigits(n / 10);
      }
    }
  }

  lemma {:induction false} ValueSpaces(v: Value)
    requires PlainKeysIn(v)
    ensures SpacesTo(CompactValue(v), PrintValue(v))
    decreases v
  {
    hide SpacesTo, Decimal, Escape;
    match v {
      case IntValue(n) =>
        DecimalDigits(n);
        PlainTextSpaces(Decimal(n));
      case StringValue(s) =>
        EscapedStays(s);
        QuotedStays(Escape(s));
      case ObjectValue(es) =>
        ElementsSpace(es);
        BracesSpace(Join(CompactElements(es), ","), Join(PrintElements(es), ", "), '{', '}');
      case VectorValue(vs) =>
        ItemsSpace(vs);
        BracesSpace(Join(CompactItems(vs), ","), Join(PrintItems(vs), ", "), '[', ']');
    }
  }

  lemma BracesSpace(s: string, t: string, open: char, close: char)
    requires SpacesTo(s, t) && open in "{[" && close in "}]"
    ensures SpacesTo([open] + s + [close], [open] + t + [close])
  {
    hide SpacesTo;
    SpacesOne(open);
    SpacesOne(close);
    SpacesConcat([open], [open], s, t);
    SpacesConcat([open] + s, [open] + t, [close], [close]);
  }

  lemma SeparatorSpaces(s: string, s': string, c: char, t: string, t': string)
    requires SpacesTo(s, s') && SpacesTo(t, t') && (c == ',' || c == ':')
    ensures SpacesTo(s + [c] + t, s' + [c, ' '] + t')
  {
    hide SpacesTo;
    SpacesOne(c);
    SpacesConcat(s, s', [c], [c, ' ']);
    SpacesConcat(s + [c], s' + [c, ' '], t, t');
  }

  lemma {:induction false} ItemsSpace(vs: seq<Value>)
    requires PlainKeysInItems(vs)
    ensures SpacesTo(Join(CompactItems(vs), ","), Join(PrintItems(vs), ", "))
    decreases vs
  {
    hide SpacesTo, PrintValue, CompactValue, PlainKeysIn;
    if |vs| == 0 {
      NothingSpaces();
    } else {
      ValueSpaces(vs[0]);
      ItemsSpace(vs[1..]);
      assert CompactItems(vs)[1..] == CompactItems(vs[1..]) && PrintItems(vs)[1..] == PrintItems(vs[1..]);
      assert [',', ' '] == ", ";
      SeparatorSpaces(CompactValue(vs[0]), PrintValue(vs[0]), ',', Join(CompactItems(vs[1..]), ","),
                      Join(PrintItems(vs[1..]), ", "));
    }
  }

  lemma NothingSpaces()
    ensures SpacesTo("", "")
  {
  }

  lemma {:induction false} ElementSpaces(e: Element)
    requires IsPlainKey(e.key) && (e.value.Some? ==> PlainKeysIn(e.value.value))
    ensures SpacesTo(CompactElement(e), PrintElement(e))
    decreases e
  {
    hide SpacesTo, PrintValue, CompactValue, PlainKeysIn, Escape;
    EscapeNothing(e.key);
    EscapedStays(e.key);
    QuotedStays(e.key);
    var key := "\"" + e.key + "\"";
    match e.value {
      case Some(v) =>
        ValueSpaces(v);
        SeparatorSpaces(key, key, ':', CompactValue(v), PrintValue(v));
      case None =>
        EscapeNothing("null");
        EscapedStays("null");
        QuotedStays("null");
        assert "\"" + "null" + "\"" == "\"null\"";
        SeparatorSpaces(key, key, ':', "\"null\"", "\"null\"");
    }
  }

  lemma {:induction false} ElementsSpace(es: seq<Element>)
    requires PlainKeys(es)
    ensures SpacesTo(Join(CompactElements(es), ","), Join(PrintElements(es), ", "))
    decreases es
  {
    hide SpacesTo, PrintElement, CompactElement, PlainKeysIn, IsPlainKey;
    if |es| == 0 {
      NothingSpaces();
    } else {
      ElementSpaces(es[0]);
      ElementsSpace(es[1..]);
      assert CompactElements(es)[1..] == CompactElements(es[1..]) && PrintElements(es)[1..] == PrintElements(es[1..]);
      assert [',', ' '] == ", ";
      SeparatorSpaces(CompactElement(es[0]), PrintElement(es[0]), ',', Join(CompactElements(es[1..]), ","),
                      Join(PrintElements(es[1..]), ", "));
    }
  }

  /** The printed text is the compact one with a space after each comma and colon outside strings. */
  lemma PrintedLayout(es: seq<Element>)
    requires PlainKeys(es)
    ensures PrintObject(es) == Spaced("{" + Join(CompactElements(es), ",") + "}", Outside)
  {
    hide PrintElements, CompactElements, PlainKeys, Join;
    ElementsSpace(es);
    BracesSpace(Join(CompactElements(es), ","), Join(PrintElements(es), ", "), '{', '}');
  }
}

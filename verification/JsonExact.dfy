/** Exactly which documents survive printing and parsing, at any depth and width. */
module JsonExact {
  import opened Wrappers
  import opened JsonText
  import opened JsonNormal
  import opened Json
  import opened JsonTheorems
  import opened JsonCommas
  import opened JsonReading
  import opened JsonPlain

  // ----- the condition -----

  /**
   * How many closing braces are left behind a body once the normaliser has taken the outer ones,
   * when `k` more follow the object: those that the body itself still waits for.
   */
  function Surplus(body: string, k: nat): nat
    requires StaysOpen(body, 1)
  {
    StaysOpenEnd(body, 1);
    var waiting := Braces(body, 1) - 1;
    if waiting <= k then waiting else k + 1
  }

  /**
   * An object whose text is followed by `k` closing braces comes back: no brace closes the body
   * early, every piece but the last closes what it opens, and the elements come back.
   */
  ghost predicate Survives(es: seq<Element>, k: nat)
    decreases es, 1
  {
    |es| == 0 ||
    (StaysOpen(Body(es), 1) && Splittable(CompactElements(es)) && ElementsSurvive(es, Surplus(Body(es), k)))
  }

  /** The surplus braces fall to the last element. */
  ghost predicate ElementsSurvive(es: seq<Element>, k: nat)
    decreases es, 0
  {
    |es| == 0 || (ElementSurvives(es[0], if |es| == 1 then k else 0) && ElementsSurvive(es[1..], k))
  }

  /** A missing value is read where surplus braces spoil the text that is printed for it. */
  ghost predicate ElementSurvives(e: Element, k: nat)
    decreases e, 0
  {
    match e.value
    case Some(v) => ColonFree(e.key) && ValueSurvives(v, k)
    case None => e.key == "" && k > 0
  }

  /** Only an object can bear surplus braces. */
  ghost predicate ValueSurvives(v: Value, k: nat)
    decreases v
  {
    match v
    case IntValue(_) => false
    case StringValue(s) => k == 0 && BackslashFree(s)
    case ObjectValue(es) => Survives(es, k)
    case VectorValue(vs) => k == 0 && (|vs| == 0 || Splittable(CompactItems(vs))) && ItemsSurvive(vs)
  }

  ghost predicate ItemsSurvive(vs: seq<Value>)
    decreases vs
  {
    |vs| == 0 || (!vs[0].VectorValue? && ValueSurvives(vs[0], 0) && ItemsSurvive(vs[1..]))
  }

  // ----- reading the text of an element -----

  /** The printed element: the quoted key, the colon, and the value. */
  lemma ElementLayout(e: Element)
    requires e.value.Some?
    ensures var k, c := |e.key|, CompactElement(e);
      && |c| >= k + 3 && c[0] == '"' && c[k + 1] == '"' && c[k + 2] == ':'
      && (forall i :: 0 <= i < k ==> c[i + 1] == e.key[i]) && c[k + 3..] == CompactValue(e.value.value)
  {
    hide CompactValue;
  }

  /** A text that agrees with a printed element and parses to it starts with its key and a colon. */
  lemma KeyIsPrinted(e: Element, p: string)
    requires e.value.Some? && ParseElement(p) == e && Agree(p, CompactElement(e))
    ensures ColonFree(e.key) && |p| >= |e.key| + 3
    ensures ParseValue(p[|e.key| + 3..]) == e.value
  {
    hide ParseValue, ParseKey, ParseElement, CompactElement;
    ParsedElement(p);
    ElementLayout(e);
    var pos := IndexOf(p, ':').value;
    var k, c := |e.key|, CompactElement(e);
    KeyLength(p[..pos]);
    IndexFirst(p, ':');
    assert c[pos] == ':';
    assert k > 0 ==> c[k] == e.key[k - 1];
  }

  lemma ColonFreeKeyReads(e: Element, rest: string)
    requires ColonFree(e.key)
    ensures ParseElement("\"" + e.key + "\"" + ":" + rest)
            == match ParseValue(rest) { case Some(v) => Element(e.key, Some(v)) case None => Element("", None) }
  {
    hide ParseValue;
    var k := "\"" + e.key + "\"";
    IndexAfter(k, rest, ':');
    assert k + [':'] + rest == k + ":" + rest;
    assert (k + [':'] + rest)[..|k|] == k && (k + [':'] + rest)[|k| + 1..] == rest;
    WrappedInner(e.key, '"', '"');
  }

  /** An element comes back exactly when its key has no colon and its value comes back. */
  lemma ElementReads(e: Element, tail: string)
    requires e.value.Some?
    ensures ParseElement(CompactElement(e) + tail) == e
            <==> ColonFree(e.key) && ParseValue(CompactValue(e.value.value) + tail) == e.value
  {
    hide ParseValue, ParseElement, CompactValue;
    var text := CompactValue(e.value.value);
    var p := CompactElement(e) + tail;
    assert p == "\"" + e.key + "\"" + ":" + (text + tail);
    if ColonFree(e.key) {
      ColonFreeKeyReads(e, text + tail);
    }
    if ParseElement(p) == e {
      KeyIsPrinted(e, p);
      assert p[|e.key| + 3..] == text + tail;
    }
  }

  /** An element without a value comes back under the empty key only, and only from a spoiled text. */
  lemma MissingReads(e: Element, k: nat)
    requires e.value.None?
    ensures ParseElement(CompactElement(e) + Closers(k)) == e <==> e.key == "" && k > 0
  {
    hide ParseValue, ParseElement, Closers;
    var p := CompactElement(e) + Closers(k);
    if ParseElement(p) == e {
      MissingHasNoKey(p);
    }
    if e.key == "" {
      var rest := "\"null\"" + Closers(k);
      assert p == "\"" + e.key + "\"" + ":" + rest;
      ColonFreeKeyReads(e, rest);
      SpoiledNull(k);
    }
  }

  lemma SpoiledNull(k: nat)
    ensures ParseValue("\"null\"" + Closers(k)).None? <==> k > 0
  {
    hide ParseObject, ParseItems, Parts;
    var w := "\"null\"" + Closers(k);
    assert w[0] == '"' && w[|w| - 1] == if k > 0 then '}' else '"';
  }

  // ----- the normaliser on stripped text -----

  /** Nothing to strip, and every string closed. */
  ghost predicate Stripped(s: string) {
    StripsTo(s, s)
  }

  lemma {:induction false} RestOfClosers(m: nat, st: Reader)
    requires st.removed && st.open >= 1
    ensures Rest(Closers(m), st) == Closers(if st.open - 1 <= m then st.open - 1 else m)
    decreases m
  {
    hide IsSpace, Next, Keeps, Stops;
    if m > 0 {
      var s := Closers(m);
      assert s[0] == '}' && s[1..] == Closers(m - 1);
      SpaceIsPlain('}');
      NextInside('}', st);
      if !Stops('}', st) {
        RestOfClosers(m - 1, Next('}', st));
        assert ['}'] + Closers(if st.open - 2 <= m - 1 then st.open - 2 else m - 1)
               == Closers(if st.open - 1 <= m then st.open - 1 else m);
      }
    }
  }

  /** A body that stays open keeps the braces it waits for. */
  lemma OpenBody(body: string, k: nat)
    requires Stripped(body) && StaysOpen(body, 1)
    ensures Normalize("{" + body + "}" + Closers(k)) == body + Closers(Surplus(body, k))
  {
    hide IsSpace, Normalize, Rest;
    var st := Reader(false, true, 1, true);
    var tail := Closers(k + 1);
    var s := "{" + body + "}" + Closers(k);
    assert "}" + Closers(k) == tail;
    assert s == "{" + (body + tail);
    FirstBraceDropped(body + tail);
    RestInBraces(body, tail, st);
    StaysOpenEnd(body, 1);
    RestOfClosers(k + 1, Inside(body, st));
  }

  // ----- the parts of a text that parses to known elements or items -----

  /** A text that agrees with the printed items, has no more commas and gives the items, drops none. */
  lemma ItemsAlign(vs: seq<Value>, x: string, bound: nat) returns (last: string)
    requires |vs| > 0 && |x| <= bound && ParseItems(Parts(x), bound) == vs
    requires Agree(x, Join(CompactItems(vs), ",")) && Commas(x) <= Commas(Join(CompactItems(vs), ","))
    ensures ItemsRead(Parts(x), vs) && Parts(x) == ButLast(CompactItems(vs)) + [last] && LeadCloses(CompactItems(vs))
    ensures x == Lead(CompactItems(vs)) + last && Agree(last, Last(CompactItems(vs)))
  {
    hide ParseItems, ItemsRead, Commas, CommasIn, CompactItems, Join, Parts, LeadCloses, Lead, FewerCommas, Agree;
    ItemsCommas(Parts(x), bound);
    CommasInParts(x);
    CommasInJoin(CompactItems(vs));
    NoneDropped(Parts(x), vs, bound);
    ItemsReadBack(Parts(x), vs, bound);
    last := PartsAlign(CompactItems(vs), x);
  }

  lemma BodyStrips(es: seq<Element>)
    requires QuietElements(es)
    ensures Stripped(Body(es))
  {
    hide StripsTo, QuietElements;
    CompactStrips(es);
  }

  // ----- a text with closing braces behind it -----

  /** The pieces, with the closing braces at the last one. */
  function Extended(ps: seq<string>, k: nat): (qs: seq<string>)
    requires |ps| > 0
    ensures |qs| == |ps|
  {
    ButLast(ps) + [Last(ps) + Closers(k)]
  }

  lemma ExtendedRest(ps: seq<string>, k: nat)
    requires |ps| > 1
    ensures Extended(ps, k)[0] == ps[0] && Extended(ps, k)[1..] == Extended(ps[1..], k)
  {
    hide Closers;
  }

  lemma {:induction false} JoinExtended(ps: seq<string>, k: nat)
    requires |ps| > 0
    ensures Join(Extended(ps, k), ",") == Join(ps, ",") + Closers(k)
  {
    hide Closers, Extended;
    if |ps| > 1 {
      ExtendedRest(ps, k);
      JoinExtended(ps[1..], k);
      var j := Join(ps[1..], ",");
      assert ps[0] + "," + (j + Closers(k)) == ps[0] + "," + j + Closers(k);
    } else {
      assert Extended(ps, k)[0] == ps[0] + Closers(k) by {
        OneExtended(ps, k);
      }
    }
  }

  lemma OneExtended(ps: seq<string>, k: nat)
    requires |ps| == 1
    ensures Extended(ps, k) == [ps[0] + Closers(k)]
  {
  }

  lemma {:induction false} SplittableExtended(ps: seq<string>, k: nat)
    requires |ps| > 0 && Last(ps) != ""
    ensures Splittable(Extended(ps, k)) <==> Splittable(ps)
  {
    hide Closers, Extended, Closed, FindIn;
    if |ps| > 1 {
      ExtendedRest(ps, k);
      SplittableExtended(ps[1..], k);
    } else {
      OneExtended(ps, k);
      DelimiterBeforeClosers(ps[0], k);
    }
  }

  /** The whole text splits into the extended pieces exactly when the pieces are splittable. */
  lemma ExtendedParts(ps: seq<string>, k: nat)
    requires |ps| > 0 && Last(ps) != ""
    ensures Parts(Join(ps, ",") + Closers(k)) == Extended(ps, k) <==> Splittable(ps)
  {
    hide Parts, Splittable, Extended, Closers, Join;
    JoinExtended(ps, k);
    PartsOfJoin(Extended(ps, k));
    SplittableExtended(ps, k);
  }

  lemma TailString(s: string, k: nat)
    requires QuoteFree(s)
    ensures ParseValue(CompactValue(StringValue(s)) + Closers(k)) == Some(StringValue(s))
            <==> k == 0 && BackslashFree(s)
  {
    hide ParseObject, ParseItems, Parts, Escape, BackslashFree;
    var t := Escape(s);
    var c := "\"" + t + "\"";
    var w := c + Closers(k);
    EscapeStaysQuoteFree(s);
    if k == 0 {
      assert w == c;
      WrappedInner(t, '"', '"');
    } else {
      assert w[0] == '"' && w[|w| - 1] == '}';
    }
  }

  lemma TailWraps(body: string, k: nat)
    ensures Wrapped("{" + body + "}" + Closers(k), '{', '}')
    ensures !Wrapped("{" + body + "}" + Closers(k), '"', '"')
    ensures !Wrapped("[" + body + "]" + Closers(k), '"', '"') && !Wrapped("[" + body + "]" + Closers(k), '{', '}')
    ensures Wrapped("[" + body + "]" + Closers(k), '[', ']') <==> k == 0
    ensures k == 0 ==> Inner("[" + body + "]" + Closers(k)) == body
  {
    var w := "[" + body + "]" + Closers(k);
    if k == 0 {
      assert w == "[" + body + "]";
    }
  }

  /** A value comes back from its text and `k` closing braces exactly when it survives them. */
  lemma {:induction false} TailValue(v: Value, k: nat)
    requires QuietValue(v)
    ensures ParseValue(CompactValue(v) + Closers(k)) == Some(v) <==> ValueSurvives(v, k)
    decreases v
  {
    hide ParseObject, ParseItems, Parts, CompactElements, CompactItems, Closers, Escape, Wrapped, Inner, Join;
    hide Survives, ItemsSurvive, Splittable, BackslashFree, QuietElements, QuietItems;
    match v {
      case IntValue(_) =>
      case StringValue(s) =>
        TailString(s, k);
      case ObjectValue(es) =>
        TailWraps(Body(es), k);
        ObjectTail(es, k);
      case VectorValue(vs) =>
        var j := Join(CompactItems(vs), ",");
        TailWraps(j, k);
        ArrayTail(vs, |"[" + j + "]" + Closers(k)|);
    }
  }

  lemma {:induction false} ItemsTail(vs: seq<Value>)
    requires QuietItems(vs)
    ensures ItemsRead(CompactItems(vs), vs) <==> ItemsSurvive(vs)
    decreases vs, 0
  {
    hide ParseItem, ParseValue, CompactValue, ValueSurvives, QuietValue;
    if |vs| > 0 {
      ItemReads(vs[0], CompactValue(vs[0]));
      TailValue(vs[0], 0);
      assert CompactValue(vs[0]) + Closers(0) == CompactValue(vs[0]);
      ItemsTail(vs[1..]);
      assert CompactItems(vs)[1..] == CompactItems(vs[1..]);
    }
  }

  /** The items come back from the text of an array exactly when they are splittable and each comes back. */
  lemma {:induction false} ArrayTail(vs: seq<Value>, bound: nat)
    requires QuietItems(vs) && |Join(CompactItems(vs), ",")| <= bound
    ensures ParseItems(Parts(Join(CompactItems(vs), ",")), bound) == vs
            <==> (|vs| == 0 || Splittable(CompactItems(vs))) && ItemsSurvive(vs)
    decreases vs, 1
  {
    hide ParseItem, ParseItems, Parts, CompactItems, Commas, QuietItems, Join, Lead, LeadCloses, ItemsRead, Agree;
    hide Splittable, ItemsSurvive;
    if |vs| == 0 {
      NoItems(bound);
    } else {
      var ps := CompactItems(vs);
      var j := Join(ps, ",");
      ItemsTail(vs);
      PartsOfJoin(ps);
      if ParseItems(Parts(j), bound) == vs {
        PrefixAgrees(j, j);
        var last := ItemsAlign(vs, j, bound);
        LeadAndLast(ps);
        assert (Lead(ps) + last)[|Lead(ps)|..] == (Lead(ps) + Last(ps))[|Lead(ps)|..];
        assert Parts(j) == ps;
      }
      if Splittable(ps) && ItemsSurvive(vs) {
        ItemsReadBack(ps, vs, bound);
      }
    }
  }

  lemma NoItems(bound: nat)
    ensures Join(CompactItems([]), ",") == "" && ParseItems(Parts(""), bound) == [] && ItemsSurvive([])
  {
    PartsOfNothing();
  }

  /** One element comes back from its text and `k` closing braces exactly when it survives them. */
  lemma {:induction false} ElementTail(e: Element, k: nat)
    requires QuietElement(e)
    ensures ParseElement(CompactElement(e) + Closers(k)) == e <==> ElementSurvives(e, k)
    decreases e
  {
    hide ParseElement, ParseValue, CompactElement, CompactValue, ValueSurvives, QuietValue, ColonFree, Closers;
    match e.value {
      case Some(v) =>
        ElementReads(e, Closers(k));
        TailValue(v, k);
      case None =>
        MissingReads(e, k);
    }
  }

  lemma {:induction false} ElementsTail(es: seq<Element>, k: nat)
    requires QuietElements(es) && |es| > 0
    ensures ElementsRead(Extended(CompactElements(es), k), es) <==> ElementsSurvive(es, k)
    decreases es, 0
  {
    hide ParseElement, CompactElement, ElementSurvives, QuietElement, Extended, Closers;
    var ps, e := CompactElements(es), es[0];
    assert ps[1..] == CompactElements(es[1..]);
    if |es| == 1 {
      OneExtended(ps, k);
      ElementTail(e, k);
      assert es[1..] == [] && [ps[0] + Closers(k)][1..] == [];
    } else {
      ExtendedRest(ps, k);
      ElementTail(e, 0);
      NoClosers(ps[0]);
      ElementsTail(es[1..], k);
    }
  }

  /** The elements come back from their text and `k` closing braces exactly when they survive them. */
  lemma {:induction false} BodyTail(es: seq<Element>, k: nat, bound: nat)
    requires QuietElements(es) && |es| > 0 && |Body(es)| + k <= bound
    ensures ParseElements(Parts(Body(es) + Closers(k)), bound) == es
            <==> Splittable(CompactElements(es)) && ElementsSurvive(es, k)
    decreases es, 1
  {
    hide ParseElements, ParseElement, Parts, CompactElement, CompactElements, Commas, QuietElements;
    hide Join, Lead, LeadCloses, ElementsRead, FewerCommas, Agree, Splittable, ElementsSurvive, Closers, Extended;
    var ps := CompactElements(es);
    var r := Body(es) + Closers(k);
    ElementsTail(es, k);
    ReadElements(Parts(r), es, bound);
    LastIsNotEmpty(es);
    ExtendedParts(ps, k);
    if ParseElements(Parts(r), bound) == es {
      ClosersHaveNoCommas(Body(es), k);
      var last := PartsAlign(ps, r);
      LeadAndLast(ps);
      SameEnd(Lead(ps), last, Last(ps), Closers(k));
      ExtendedIs(ps, k);
    }
  }

  lemma ExtendedIs(ps: seq<string>, k: nat)
    requires |ps| > 0
    ensures Extended(ps, k) == ButLast(ps) + [Last(ps) + Closers(k)]
  {
  }

  lemma LastIsNotEmpty(es: seq<Element>)
    requires QuietElements(es) && |es| > 0
    ensures Last(CompactElements(es)) != ""
  {
    hide CompactValue;
    LastCompact(es);
  }

  lemma {:induction false} ObjectTail(es: seq<Element>, k: nat)
    requires QuietElements(es)
    ensures ParseObject("{" + Body(es) + "}" + Closers(k)) == es <==> Survives(es, k)
    decreases es, 2
  {
    hide ParseElements, Parts, Normalize, CompactElements, QuietElements, Splittable, ElementsSurvive, Closers;
    hide StaysOpen, CutFrom;
    hide StripsTo, Surplus;
    var body := Body(es);
    var s := "{" + body + "}" + Closers(k);
    BodyStrips(es);
    if |es| == 0 {
      EmptyObject(k);
    } else if StaysOpen(body, 1) {
      OpenBody(body, k);
      SurplusBound(body, k);
      BodyTail(es, Surplus(body, k), |s|);
    } else {
      StrippedIs(body);
      CutBody(body, "}" + Closers(k));
      assert "{" + body + ("}" + Closers(k)) == s;
      NoCutElements(es, Normalize(s), |s|);
    }
  }

  lemma SurplusBound(body: string, k: nat)
    requires StaysOpen(body, 1)
    ensures Surplus(body, k) <= k + 1
  {
  }

  lemma EmptyObject(k: nat)
    ensures Body([]) == "" && ParseObject("{" + Body([]) + "}" + Closers(k)) == []
  {
    hide Normalize, Parts;
    NothingStrips();
    OpenBody("", k);
    assert "" + Closers(0) == "";
    PartsOfNothing();
  }

  // ----- the theorem -----

  lemma {:induction false} BoundIsIrrelevant(parts: seq<string>, b: nat, c: nat)
    requires forall p :: p in parts ==> |p| <= b && |p| <= c
    ensures ParseElements(parts, b) == ParseElements(parts, c)
  {
    hide ParseElement;
    if |parts| > 0 {
      BoundIsIrrelevant(parts[1..], b, c);
    }
  }

  /** The reader sees no difference between the printed object and its compact text. */
  lemma PrintedIsCompact(es: seq<Element>)
    requires QuietElements(es)
    ensures ParseObject(PrintObject(es)) == ParseObject("{" + Body(es) + "}")
  {
    hide ParseElements, Parts, Normalize, CompactElements, PrintElements, QuietElements, IsSpace;
    var printed, compact := PrintObject(es), "{" + Body(es) + "}";
    ElementsStrip(es);
    BracesStrip(Join(PrintElements(es), ", "), Body(es), '{', '}');
    CompactStrips(es);
    BracesStrip(Body(es), Body(es), '{', '}');
    NormalizeIgnoresSpace(printed, compact);
    var parts := Parts(Normalize(compact));
    BoundIsIrrelevant(parts, |printed|, |compact|);
  }

  /** The exact condition for documents without quotes and NULs. */
  lemma QuietRoundTrip(es: seq<Element>)
    requires QuietElements(es)
    ensures ParseObject(PrintObject(es)) == es <==> Survives(es, 0)
  {
    hide ParseObject, PrintObject, Survives, Body, QuietElements;
    PrintedIsCompact(es);
    ObjectTail(es, 0);
    NoClosers("{" + Body(es) + "}");
  }

  /** No NUL anywhere, and no quote in a key; string values are not restricted. */
  predicate TameValue(v: Value)
    decreases v
  {
    match v
    case IntValue(_) => true
    case StringValue(s) => NulFree(s)
    case ObjectValue(es) => TameElements(es)
    case VectorValue(vs) => TameItems(vs)
  }

  predicate TameItems(vs: seq<Value>)
    decreases vs
  {
    |vs| == 0 || (TameValue(vs[0]) && TameItems(vs[1..]))
  }

  predicate TameElements(es: seq<Element>)
    decreases es
  {
    |es| == 0 ||
    (QuoteFree(es[0].key) && (es[0].value.Some? ==> TameValue(es[0].value.value)) && TameElements(es[1..]))
  }

  lemma {:induction false} TameAndPlainIsQuiet(es: seq<Element>)
    requires TameElements(es) && PlainElements(es)
    ensures QuietElements(es)
    decreases es
  {
    hide QuoteFree;
    if |es| > 0 {
      if es[0].value.Some? {
        TamePlainValue(es[0].value.value);
      }
      TameAndPlainIsQuiet(es[1..]);
    }
  }

  lemma {:induction false} TamePlainValue(v: Value)
    requires TameValue(v) && PlainValue(v)
    ensures QuietValue(v)
    decreases v
  {
    match v {
      case IntValue(_) =>
      case StringValue(s) =>
      case ObjectValue(es) =>
        TameAndPlainIsQuiet(es);
      case VectorValue(vs) =>
        TamePlainItems(vs);
    }
  }

  lemma {:induction false} TamePlainItems(vs: seq<Value>)
    requires TameItems(vs) && PlainItems(vs)
    ensures QuietItems(vs)
    decreases vs
  {
    if |vs| > 0 {
      TamePlainValue(vs[0]);
      TamePlainItems(vs[1..]);
    }
  }

  lemma {:induction false} EscapeNulFree(s: string)
    requires NulFree(s)
    ensures NulFree(Escape(s))
  {
    if s != "" {
      EscapeNulFree(s[1..]);
      EscapeHead(s);
    }
  }

  lemma {:induction false} JoinNulFree(ps: seq<string>, separator: string)
    requires NulFree(separator) && forall p :: p in ps ==> NulFree(p)
    ensures NulFree(Join(ps, separator))
  {
    if |ps| > 1 {
      JoinNulFree(ps[1..], separator);
      NulFreeConcat(ps[0], separator);
      NulFreeConcat(ps[0] + separator, Join(ps[1..], separator));
    }
  }

  lemma NulFreeConcat(s: string, t: string)
    requires NulFree(s) && NulFree(t)
    ensures NulFree(s + t)
  {
  }

  lemma {:induction false} ValuePrintsNoNul(v: Value)
    requires TameValue(v)
    ensures NulFree(PrintValue(v))
    decreases v
  {
    hide Escape, Decimal;
    match v {
      case IntValue(n) =>
        DecimalIsPlain(n);
      case StringValue(s) =>
        EscapeNulFree(s);
      case ObjectValue(es) =>
        ElementsPrintNoNul(es);
        JoinNulFree(PrintElements(es), ", ");
      case VectorValue(vs) =>
        ItemsPrintNoNul(vs);
        JoinNulFree(PrintItems(vs), ", ");
    }
  }

  lemma {:induction false} ItemsPrintNoNul(vs: seq<Value>)
    requires TameItems(vs)
    ensures forall p :: p in PrintItems(vs) ==> NulFree(p)
    decreases vs
  {
    hide PrintValue, NulFree;
    if |vs| > 0 {
      ValuePrintsNoNul(vs[0]);
      ItemsPrintNoNul(vs[1..]);
    }
  }

  lemma {:induction false} ElementsPrintNoNul(es: seq<Element>)
    requires TameElements(es)
    ensures forall p :: p in PrintElements(es) ==> NulFree(p)
    decreases es
  {
    hide PrintValue;
    if |es| > 0 {
      if es[0].value.Some? {
        ValuePrintsNoNul(es[0].value.value);
      }
      assert NulFree(PrintElement(es[0]));
      ElementsPrintNoNul(es[1..]);
    }
  }

  /**
   * Printing and then parsing gives back a document without NULs and without quotes in its keys
   * exactly when its string values are plain and it survives: a condition on quotes, backslashes,
   * colons, braces and delimiters alone.
   */
  lemma RoundTripExactly(es: seq<Element>)
    requires TameElements(es)
    ensures ParseObject(PrintObject(es)) == es <==> PlainElements(es) && Survives(es, 0)
  {
    hide ParseObject, PrintElements, Survives, TameElements, PlainElements, QuietElements, NulFree, Join;
    ElementsPrintNoNul(es);
    SeparatorNulFree(Join(PrintElements(es), ", "), PrintElements(es));
    if ParseObject(PrintObject(es)) == es {
      StringsStayPlain(es);
    }
    if PlainElements(es) {
      TameAndPlainIsQuiet(es);
      QuietRoundTrip(es);
    }
  }

  lemma SeparatorNulFree(body: string, ps: seq<string>)
    requires body == Join(ps, ", ") && forall p :: p in ps ==> NulFree(p)
    ensures NulFree("{" + body + "}")
  {
    JoinNulFree(ps, ", ");
  }

  // ----- missing values -----

  predicate PresentValue(v: Value)
    decreases v
  {
    match v
    case IntValue(_) => true
    case StringValue(_) => true
    case ObjectValue(es) => PresentElements(es)
    case VectorValue(vs) => PresentItems(vs)
  }

  predicate PresentItems(vs: seq<Value>)
    decreases vs
  {
    |vs| == 0 || (PresentValue(vs[0]) && PresentItems(vs[1..]))
  }

  /** Every element has a value, at any depth. */
  predicate PresentElements(es: seq<Element>)
    decreases es
  {
    |es| == 0 || (es[0].value.Some? && PresentValue(es[0].value.value) && PresentElements(es[1..]))
  }

  lemma {:induction false} SplittableCloses(ps: seq<string>)
    requires |ps| > 0 && Splittable(ps)
    ensures LeadCloses(ps)
  {
    hide Closed, FindIn;
    if |ps| > 1 {
      SplittableCloses(ps[1..]);
    }
  }

  /** A last element without a value leaves no surplus: its text has no braces. */
  lemma MissingHasNoSurplus(es: seq<Element>, k: nat)
    requires |es| > 0 && es[|es| - 1] == Element("", None)
    requires StaysOpen(Body(es), 1) && Splittable(CompactElements(es))
    ensures Surplus(Body(es), k) == 0
  {
    hide CompactElements, Splittable, Join, Lead, LeadCloses, StaysOpen, Braces;
    var ps := CompactElements(es);
    SplittableCloses(ps);
    LeadBraces(ps);
    LeadAndLast(ps);
    LastCompact(es);
    var t := "\"\":\"null\"";
    assert CompactElement(Element("", None)) == t;
    NoBraces(t, 1);
    BracesConcat(Lead(ps), t, 1);
    BracesShift(Lead(ps), 0, 1);
  }

  lemma {:induction false} SurvivorsArePresent(es: seq<Element>, k: nat)
    requires Survives(es, k)
    ensures PresentElements(es)
    decreases es, 1
  {
    hide ElementsSurvive, PresentElements, StaysOpen, Splittable, CompactElements, Surplus;
    if |es| == 0 {
      NothingIsMissing();
    } else {
      var j := Surplus(Body(es), k);
      if es[|es| - 1] == Element("", None) {
        MissingHasNoSurplus(es, k);
      }
      SurvivingArePresent(es, j);
    }
  }

  lemma NothingIsMissing()
    ensures PresentElements([]) && PresentItems([])
  {
  }

  lemma {:induction false} SurvivingArePresent(es: seq<Element>, k: nat)
    requires ElementsSurvive(es, k) && (|es| > 0 && es[|es| - 1] == Element("", None) ==> k == 0)
    ensures PresentElements(es)
    decreases es, 0
  {
    hide ValueSurvives, PresentValue, ColonFree;
    if |es| > 0 {
      assert ElementSurvives(es[0], if |es| == 1 then k else 0);
      if es[0].value.Some? {
        SurvivorIsPresent(es[0].value.value, if |es| == 1 then k else 0);
      }
      SurvivingArePresent(es[1..], k);
    }
  }

  lemma {:induction false} SurvivorIsPresent(v: Value, k: nat)
    requires ValueSurvives(v, k)
    ensures PresentValue(v)
    decreases v
  {
    hide Survives, ItemsSurvive, PresentElements, PresentItems, Splittable, CompactItems;
    match v {
      case StringValue(_) =>
      case ObjectValue(es) =>
        SurvivorsArePresent(es, k);
      case VectorValue(vs) =>
        SurvivingItemsArePresent(vs);
    }
  }

  lemma {:induction false} SurvivingItemsArePresent(vs: seq<Value>)
    requires ItemsSurvive(vs)
    ensures PresentItems(vs)
    decreases vs
  {
    hide ValueSurvives, PresentValue;
    if |vs| > 0 {
      SurvivorIsPresent(vs[0], 0);
      SurvivingItemsArePresent(vs[1..]);
    }
  }

  /** A document with a missing value, at any depth, never comes back. */
  lemma MissingNeverComesBack(es: seq<Element>)
    requires TameElements(es) && ParseObject(PrintObject(es)) == es
    ensures PresentElements(es)
  {
    hide ParseObject, PrintObject, Survives, TameElements, PlainElements, PresentElements;
    RoundTripExactly(es);
    SurvivorsArePresent(es, 0);
  }

  // ----- documents that always come back -----

  lemma {:induction false} GoodSurvive(es: seq<Element>)
    requires GoodElements(es)
    ensures Survives(es, 0)
    decreases es, 1
  {
    hide Closed, Level, CompactElements, GoodElements, Splittable, ElementsSurvive, StaysOpen, Braces, ClosedPieces;
    if |es| > 0 {
      ElementsLevel(es);
      LevelIsBalanced(Body(es));
      ElementPieces(es);
      ClosedPiecesSplittable(CompactElements(es));
      GoodElementsSurvive(es);
      NoSurplus(Body(es));
    }
  }

  lemma NoSurplus(body: string)
    requires Balanced(body)
    ensures Surplus(body, 0) == 0
  {
  }

  lemma {:induction false} GoodElementsSurvive(es: seq<Element>)
    requires GoodElements(es)
    ensures ElementsSurvive(es, 0)
    decreases es, 0
  {
    hide Closed, ValueSurvives, GoodValue;
    if |es| > 0 {
      GoodValueSurvives(es[0].value.value);
      GoodElementsSurvive(es[1..]);
    }
  }

  lemma {:induction false} GoodValueSurvives(v: Value)
    requires GoodValue(v)
    ensures ValueSurvives(v, 0)
    decreases v
  {
    hide Closed, Survives, ItemsSurvive, GoodElements, GoodItems, Splittable, CompactItems, ClosedPieces;
    match v {
      case StringValue(s) =>
      case ObjectValue(es) =>
        GoodSurvive(es);
      case VectorValue(vs) =>
        GoodItemsSurvive(vs);
        ItemPieces(vs);
        if |vs| > 0 {
          ClosedPiecesSplittable(CompactItems(vs));
        }
    }
  }

  lemma {:induction false} GoodItemsSurvive(vs: seq<Value>)
    requires GoodItems(vs)
    ensures ItemsSurvive(vs)
    decreases vs
  {
    hide GoodValue, ValueSurvives;
    if |vs| > 0 {
      GoodValueSurvives(vs[0]);
      GoodItemsSurvive(vs[1..]);
    }
  }

  /** Parsing what was printed gives back every good object, at any depth and width. */
  lemma PrintThenParse(es: seq<Element>)
    requires GoodElements(es)
    ensures ParseObject(PrintObject(es)) == es
  {
    hide ParseObject, PrintObject, Survives, GoodElements, QuietElements;
    GoodIsQuiet(es);
    GoodSurvive(es);
    QuietRoundTrip(es);
  }

  /** When the braces of its text match, adding an object's text without its outer braces makes no difference. */
  lemma OuterBracesDoNotMatter(es: seq<Element>)
    requires QuietElements(es) && Balanced(Body(es))
    ensures ParseObject(Join(PrintElements(es), ", ")) == ParseObject(PrintObject(es))
  {
    hide ParseElements, Parts, Normalize, CompactElements, PrintElements, QuietElements, IsSpace, Balanced, StripsTo;
    var body, n := Join(PrintElements(es), ", "), Body(es);
    PrintedIsCompact(es);
    ElementsStrip(es);
    BodyNormalized(es, body);
    CompactStrips(es);
    StrippedIs(n);
    OuterBraces(n, "");
    assert "{" + n + "}" + "" == "{" + n + "}";
    BoundIsIrrelevant(Parts(n), |body|, |"{" + n + "}"|);
  }

  lemma StrippedIs(n: string)
    requires Stripped(n)
    ensures Strip(n, false) == n && NulFree(n)
  {
  }

  lemma BodyNormalized(es: seq<Element>, body: string)
    requires StripsTo(body, Body(es))
    ensures Normalize(body) == Body(es)
  {
    hide IsSpace, Rest, CompactElements;
    FirstIsQuote(es);
    BodyIsStripped(body);
  }

  /** Adding a good object's text appends the same elements with and without its outer braces. */
  lemma BracesDoNotMatter(es: seq<Element>)
    requires GoodElements(es)
    ensures ParseObject(Join(PrintElements(es), ", ")) == es
  {
    hide ParseObject, PrintObject, GoodElements, QuietElements, PrintElements, CompactElements, Level, Balanced;
    GoodIsQuiet(es);
    ElementsLevel(es);
    LevelIsBalanced(Body(es));
    OuterBracesDoNotMatter(es);
    PrintThenParse(es);
  }

  // ----- documents of one level -----

  /** All values are strings, and no quote or NUL occurs anywhere. */
  predicate Flat(es: seq<Element>)
    decreases es
  {
    |es| == 0 ||
    (es[0].value.Some? && es[0].value.value.StringValue? && QuoteFree(es[0].value.value.s) && QuoteFree(es[0].key)
        && Flat(es[1..]))
  }

  /** No colon in a key and no backslash in a string. */
  predicate FlatPlain(es: seq<Element>)
    requires Flat(es)
  {
    |es| == 0 || (ColonFree(es[0].key) && BackslashFree(es[0].value.value.s) && FlatPlain(es[1..]))
  }

  lemma {:induction false} FlatSurvive(es: seq<Element>, k: nat)
    requires Flat(es) && |es| > 0
    ensures ElementsSurvive(es, k) <==> k == 0 && FlatPlain(es)
    ensures QuietElements(es)
  {
    hide ColonFree, BackslashFree, QuoteFree;
    assert QuietValue(es[0].value.value) && QuietElement(es[0]);
    var j := if |es| == 1 then k else 0;
    assert ElementSurvives(es[0], j) <==> ColonFree(es[0].key) && j == 0 && BackslashFree(es[0].value.value.s);
    if |es| > 1 {
      FlatSurvive(es[1..], k);
    } else {
      assert es[1..] == [] && QuietElements([]);
    }
  }

  /**
   * A document of one level comes back exactly when no key has a colon and no string a backslash,
   * the braces match over the whole body, and each piece but the last closes what it opens.
   */
  lemma FlatRoundTripExactly(es: seq<Element>)
    requires Flat(es) && |es| > 0
    ensures ParseObject(PrintObject(es)) == es
            <==> FlatPlain(es) && Balanced(Body(es)) && Splittable(CompactElements(es))
  {
    hide ParseObject, PrintObject, FlatPlain, ElementsSurvive, CompactElements, Splittable, QuietElements;
    hide StaysOpen, Flat;
    FlatSurvive(es, 0);
    QuietRoundTrip(es);
    if StaysOpen(Body(es), 1) {
      FlatSurvive(es, Surplus(Body(es), 0));
      StaysOpenEnd(Body(es), 1);
    }
  }

  /** A string may leave a bracket open where nothing follows that it could hide. */
  lemma OpenBracketComesBack()
    ensures var es := [Element("a", Some(StringValue("[")))]; !GoodElements(es) && ParseObject(PrintObject(es)) == es
  {
    hide ParseObject, PrintObject, Splittable, Balanced, CompactElements;
    var e := Element("a", Some(StringValue("[")));
    var text := "\"a\":\"[\"";
    OpenBracketText(e, text);
    OpenBracketScan(text);
    BracketIsOpen();
    FlatRoundTripExactly([e]);
  }

  lemma OpenBracketText(e: Element, text: string)
    requires e == Element("a", Some(StringValue("["))) && text == "\"a\":\"[\""
    ensures CompactElements([e]) == [text] && Body([e]) == text
    ensures Flat([e]) && FlatPlain([e])
  {
    EscapeNothing("[");
    assert [e][1..] == [];
    assert CompactElement(e) == text;
  }

  lemma OpenBracketScan(text: string)
    requires text == "\"a\":\"[\""
    ensures Balanced(text) && Splittable([text])
  {
    NoDelimiterIn(text, 0, 0);
    NoBraces(text, 1);
  }

  lemma {:induction false} NoBraces(s: string, n: int)
    requires n > 0 && forall i :: 0 <= i < |s| ==> s[i] != '{' && s[i] != '}'
    ensures StaysOpen(s, n) && Braces(s, n) == n
  {
    if s != "" {
      NoBraces(s[1..], n);
    }
  }

  lemma BracketIsOpen()
    ensures !Closed("[")
  {
    ScanOne('[', 0, 0);
  }
}

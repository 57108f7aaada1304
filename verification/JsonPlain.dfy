/**
 * Over all documents: a text that was cut short never gives its document, and string values that come
 * back are plain.
 */
module JsonPlain {
  import opened Wrappers
  import opened JsonText
  import opened JsonNormal
  import opened Json
  import opened JsonTheorems
  import opened JsonCommas
  import opened JsonReading
  import opened JsonSqueeze

  // ----- escaping makes a text longer, and not by one quote -----

  lemma {:induction false} DoubledRun(z: string, i: nat)
    requires i <= |z| && forall j :: 0 <= j < i ==> z[j] == '\\'
    ensures |Escape(z)| >= 2 * i && forall j :: 0 <= j < 2 * i ==> Escape(z)[j] == '\\'
  {
    if i > 0 {
      DoubledRun(z[1..], i - 1);
      EscapeHead(z);
    }
  }

  lemma {:induction false} OnlyBackslashes(z: string, i: nat)
    requires 1 <= i <= |z| <= |Escape(z)| && z[0] == '\\' && z == Escape(z)[..|z|]
    ensures forall j :: 0 <= j < i ==> z[j] == '\\'
  {
    if i > 1 {
      OnlyBackslashes(z, i - 1);
      DoubledRun(z, i - 1);
      assert z[i - 1] == Escape(z)[..|z|][i - 1];
    }
  }

  /** Where the escaped text goes on after the text itself, it goes on with a backslash. */
  lemma {:induction false} EscapeGoesOn(z: string)
    requires |z| < |Escape(z)| && z == Escape(z)[..|z|]
    ensures Escape(z)[|z|] == '\\'
  {
    if z != "" {
      EscapeHead(z);
      assert z[0] == Escape(z)[..|z|][0];
      if IsEscaped(z[0]) {
        OnlyBackslashes(z, |z|);
        DoubledRun(z, |z|);
      } else {
        assert Escape(z)[..|z|][1..] == Escape(z[1..])[..|z| - 1];
        EscapeGoesOn(z[1..]);
      }
    }
  }

  lemma {:induction false} EscapeLength(s: string)
    ensures |Escape(s)| >= |s|
    ensures |Escape(s)| == |s| ==> forall i :: 0 <= i < |s| ==> !IsEscaped(s[i])
  {
    if s != "" {
      EscapeLength(s[1..]);
      EscapeHead(s);
    }
  }

  /** A string value is printed as its squeezed and escaped text in quotes. */
  lemma SqueezedString(s: string)
    ensures Squeeze(CompactValue(StringValue(s))) == "\"" + Escape(Squeeze(s)) + "\""
    ensures Squeeze("\"" + s + "\"") == "\"" + Squeeze(s) + "\""
  {
    hide Squeeze, Escape, IsSpace;
    BackslashIsNoSpace();
    SqueezeAround('"', Escape(s), '"');
    SqueezeAround('"', s, '"');
    SqueezeEscape(s);
  }

  /** A string value is read from a single quote, or from its own text in quotes. */
  lemma StringIsWrapped(w: string, s: string)
    requires ParseValue(w) == Some(StringValue(s))
    ensures (w == "\"" && s == "") || w == "\"" + s + "\""
  {
    hide ParseObject, ParseItems, Parts;
  }

  lemma SqueezeQuote()
    ensures Squeeze("\"") == "\"" && Squeeze("") == "" && Escape("") == ""
  {
    SqueezeOne('"');
  }

  lemma CutString(s: string, w: string)
    requires CutShort(Squeeze(w), Squeeze(CompactValue(StringValue(s))))
    ensures ParseValue(w) != Some(StringValue(s))
  {
    hide ParseValue, Squeeze, CompactValue, Escape, Braces;
    if ParseValue(w) == Some(StringValue(s)) {
      StringIsWrapped(w, s);
      SqueezedString(s);
      SqueezeQuote();
      var z, c := Squeeze(s), "\"" + Escape(Squeeze(s)) + "\"";
      if w == "\"" + s + "\"" {
        var u := "\"" + z + "\"";
        assert u == c[..|u|];
        assert z == u[1..][..|z|] == Escape(z)[..|z|];
        assert u[|z| + 1] == c[|z| + 1] == Escape(z)[|z|];
        EscapeGoesOn(z);
        assert false;
      } else {
        assert false;
      }
    }
  }

  // ----- a text that was cut short never gives its document -----

  lemma SqueezedCut(r: string, s: string)
    requires CutFrom(r, s, 1)
    ensures CutFrom(Squeeze(r), Squeeze(s), 1)
  {
    hide Squeeze, Braces, StaysOpen;
    var rest := s[|r|..];
    assert s == r + rest && rest == "}" + rest[1..];
    SqueezeConcat(r, rest);
    SqueezeConcat("}", rest[1..]);
    BackslashIsNoSpace();
    SqueezeOne('}');
    SqueezeBraces(r, 1);
    assert (Squeeze(r) + Squeeze(rest))[..|Squeeze(r)|] == Squeeze(r);
  }

  lemma CutOfPrefix(r: string, u: string, body: string)
    requires |u| <= |body| && u == body[..|u|] && CutFrom(r, u, 1)
    ensures CutFrom(r, body, 1)
  {
  }

  lemma CutNeedsElements(es: seq<Element>, r: string)
    requires CutFrom(r, Squeeze(Body(es)), 1)
    ensures |es| > 0
  {
  }

  /** What the normaliser leaves of an object's text that closes its braces too early. */
  lemma CutBody(u: string, t: string)
    requires NulFree(u) && !StaysOpen(u, 1)
    ensures CutFrom(Squeeze(Normalize("{" + u + t)), Squeeze(u), 1) && NulFree(Normalize("{" + u + t))
  {
    hide Squeeze, CutFrom, Normalize, Rest, StaysOpen;
    var st := Reader(false, true, 1, true);
    assert "{" + u + t == "{" + (u + t);
    FirstBraceDropped(u + t);
    RestCut(u, t, st);
    SqueezedCut(Rest(u + t, st), Strip(u, false));
    SqueezeStrip(u, false);
    RestIsStripped(u + t, st);
  }

  lemma CutObject(es: seq<Element>, w: string)
    requires NulFree(w) && CutShort(Squeeze(w), Squeeze("{" + Body(es) + "}")) && Wrapped(w, '{', '}')
    ensures |es| > 0 && CutFrom(Squeeze(Normalize(w)), Squeeze(Body(es)), 1) && NulFree(Normalize(w))
  {
    hide CutFrom, Body, Normalize, Squeeze, StaysOpen, IsSpace;
    var u, body := w[1..], Squeeze(Body(es));
    BackslashIsNoSpace();
    SqueezeAround('{', Body(es), '}');
    assert w == "{" + u;
    SqueezeConcat("{", u);
    SqueezeOne('{');
    var c := "{" + body + "}";
    PrefixOfBody(Squeeze(u), body);
    ClosedTooEarly(u);
    assert "{" + u + "" == w;
    CutBody(u, "");
    CutOfPrefix(Squeeze(Normalize(w)), Squeeze(u), body);
    CutNeedsElements(es, Squeeze(Normalize(w)));
  }

  lemma PrefixOfBody(u: string, body: string)
    requires |"{" + u| < |"{" + body + "}"| && "{" + u == ("{" + body + "}")[..|"{" + u|]
    ensures |u| <= |body| && u == body[..|u|]
  {
    assert ("{" + u)[1..] == u;
    assert ("{" + body + "}")[1..] == body + "}";
    assert u == ("{" + body + "}")[1..][..|u|] == (body + "}")[..|u|] == body[..|u|];
  }

  lemma ClosedTooEarly(u: string)
    requires Braces("{" + Squeeze(u), 0) <= 0
    ensures !StaysOpen(u, 1)
  {
    hide Squeeze;
    SqueezeBraces(u, 1);
    assert ("{" + Squeeze(u))[1..] == Squeeze(u);
    if StaysOpen(u, 1) {
      StaysOpenEnd(u, 1);
      assert false;
    }
  }

  lemma {:induction false} NoCutElements(es: seq<Element>, r: string, bound: nat)
    requires |es| > 0 && NulFree(r) && CutFrom(Squeeze(r), Squeeze(Body(es)), 1) && |r| <= bound
    ensures ParseElements(Parts(r), bound) != es
    decreases es
  {
    hide ParseElement, ParseElements, ParseValue, Parts, CompactElement, CompactElements, CompactValue, Commas, Squeeze;
    hide Join, Lead, LeadCloses, ElementsRead, FewerCommas, Agree, Braces, StaysOpen, CutShort, IsSpace, SqueezeAll;
    if ParseElements(Parts(r), bound) == es {
      var cs, e := CompactElements(es), es[|es| - 1];
      var ps := SqueezeAll(cs);
      SqueezeJoin(cs);
      PrefixAgrees(Squeeze(r), Join(ps, ","));
      SqueezeCommas(r);
      ReadElements(Parts(r), es, bound);
      FewerSqueezed(cs, Parts(r));
      var front, last := SqueezedAlign(ps, r);
      var lead := Lead(front + [last]);
      SqueezeConcat(lead, last);
      LeadAndLast(ps);
      LastSqueezed(cs);
      LastElement(es, Parts(r));
      LastCompact(es);
      LastIsCut(Lead(ps), Squeeze(last), Last(ps), Join(ps, ","));
      PrefixAgrees(Squeeze(last), Squeeze(CompactElement(e)));
      if e.value.Some? {
        var q, w := KeyIsSqueezed(e, last);
        SqueezeConcat(q, w);
        SqueezeConcat(lead, q);
        assert Squeeze(lead) + (Squeeze(q) + Squeeze(w)) == Squeeze(lead) + Squeeze(q) + Squeeze(w);
        assert Squeeze(r) == Squeeze(lead) + Squeeze(q) + Squeeze(w);
        BracesOfRest(Squeeze(lead) + Squeeze(q), Squeeze(w));
        NulFreeEnd(lead, last);
        NulFreeEnd(q, w);
        LastIsCut(Squeeze(q), Squeeze(w), Squeeze(CompactValue(e.value.value)), Squeeze(CompactElement(e)));
        CutShortIs(Squeeze(w), Squeeze(CompactValue(e.value.value)));
        NoCutValue(e.value.value, w);
        assert false;
      } else {
        MissingIsNotCut(e, last);
        assert false;
      }
    }
  }

  lemma NulFreeEnd(s: string, t: string)
    requires NulFree(s + t)
    ensures NulFree(s) && NulFree(t)
  {
    assert forall i :: 0 <= i < |s| ==> (s + t)[i] == s[i];
    assert forall i :: 0 <= i < |t| ==> t[i] == (s + t)[|s| + i];
  }

  lemma CutShortIs(w: string, c: string)
    requires |w| < |c| && w == c[..|w|] && (c[|w|] == '}' || c[|w|] == ']') && Braces(w, 0) <= 0
    ensures CutShort(w, c)
  {
  }

  lemma {:induction false} LastCompact(es: seq<Element>)
    requires |es| > 0
    ensures Last(CompactElements(es)) == CompactElement(es[|es| - 1])
  {
    hide CompactElement;
    if |es| > 1 {
      LastCompact(es[1..]);
    }
  }

  lemma {:induction false} LastCompactItem(vs: seq<Value>)
    requires |vs| > 0
    ensures Last(CompactItems(vs)) == CompactValue(vs[|vs| - 1])
  {
    hide CompactValue;
    if |vs| > 1 {
      LastCompactItem(vs[1..]);
    }
  }

  /** A missing value is only read under an empty key, and the text of such an element has no brace to be cut at. */
  lemma MissingIsNotCut(e: Element, p: string)
    requires e.value.None? && |Squeeze(p)| < |Squeeze(CompactElement(e))|
    requires Squeeze(CompactElement(e))[|Squeeze(p)|] == '}'
    ensures ParseElement(p) != e
  {
    hide ParseElement, Squeeze, IsSpace;
    if ParseElement(p) == e {
      MissingHasNoKey(p);
      MissingText();
      assert false;
    }
  }

  lemma MissingHasNoKey(p: string)
    requires ParseElement(p).value.None?
    ensures ParseElement(p).key == ""
  {
    hide ParseValue;
  }

  lemma MissingText()
    ensures Squeeze(CompactElement(Element("", None))) == "\"\":\"null\""
  {
    hide Squeeze;
    var t := "\"\":\"null\"";
    assert CompactElement(Element("", None)) == t;
    PlainSqueeze(t);
  }

  lemma {:induction false} PlainSqueeze(t: string)
    requires forall i :: 0 <= i < |t| ==> !IsSpace(t[i])
    ensures Squeeze(t) == t
  {
    hide IsSpace;
    if t != "" {
      PlainSqueeze(t[1..]);
    }
  }

  lemma {:induction false} NoCutValue(v: Value, w: string)
    requires NulFree(w) && CutShort(Squeeze(w), Squeeze(CompactValue(v)))
    ensures ParseValue(w) != Some(v)
    decreases v
  {
    hide ParseItems, Parts, CompactElements, CompactItems, Commas, CutShort, CutFrom, Body, Join, Normalize, Escape;
    hide ParseElements, Squeeze;
    match v {
      case IntValue(_) =>
      case StringValue(s) =>
        CutString(s, w);
      case ObjectValue(es) =>
        if Wrapped(w, '{', '}') {
          BodyIs(es);
          CutObject(es, w);
          NoCutElements(es, Normalize(w), |w|);
        }
      case VectorValue(vs) =>
        if Wrapped(w, '[', ']') {
          NoCutItems(vs, w);
        }
    }
  }

  lemma BodyIs(es: seq<Element>)
    ensures CompactValue(ObjectValue(es)) == "{" + Body(es) + "}"
  {
  }

  /** The items' text that is left of an array that was cut. */
  lemma CutArray(j: string, w: string)
    requires CutShort(Squeeze(w), "[" + j + "]") && Wrapped(w, '[', ']')
    ensures var x := Squeeze(Inner(w));
      |x| < |j| && x == j[..|x|] && j[|x|] == ']' && Braces(x, 0) <= 0
  {
    hide Squeeze, IsSpace;
    var y := Inner(w);
    assert w == "[" + y + "]";
    BackslashIsNoSpace();
    SqueezeAround('[', y, ']');
    var x, c := Squeeze(y), "[" + j + "]";
    assert c[1..] == j + "]";
    assert ("[" + x + "]")[1..] == x + "]" == (j + "]")[..|x| + 1];
    assert x == (x + "]")[..|x|] == j[..|x|];
    assert (x + "]")[|x|] == ']';
    BracesConcat("[", x, 0);
    BracesConcat("[" + x, "]", 0);
    BracketBraces(Braces(x, 0));
    BracketBraces(0);
  }

  /** A text that agrees with the printed items but for white space, and gives them, drops none. */
  lemma SqueezedItemsAlign(vs: seq<Value>, x: string, bound: nat) returns (front: seq<string>, last: string)
    requires |vs| > 0 && |x| <= bound && ParseItems(Parts(x), bound) == vs
    requires var ps := SqueezeAll(CompactItems(vs));
      Agree(Squeeze(x), Join(ps, ",")) && Commas(x) <= Commas(Join(ps, ","))
    ensures ItemsRead(Parts(x), vs) && Parts(x) == front + [last]
    ensures var ps := SqueezeAll(CompactItems(vs));
      && SqueezeAll(front) == ButLast(ps) && LeadCloses(front + [last]) && x == Lead(front + [last]) + last
      && Squeeze(Lead(front + [last])) == Lead(ps) && Agree(Squeeze(last), Last(ps))
  {
    hide ParseItems, ItemsRead, Commas, CommasIn, CompactItems, Join, Parts, LeadCloses, Lead, FewerCommas, Agree;
    hide Squeeze, SqueezeAll;
    ItemsCommas(Parts(x), bound);
    CommasInParts(x);
    CommasInJoin(CompactItems(vs));
    SqueezeJoin(CompactItems(vs));
    SqueezeCommas(Join(CompactItems(vs), ","));
    NoneDropped(Parts(x), vs, bound);
    ItemsReadBack(Parts(x), vs, bound);
    FewerSqueezed(CompactItems(vs), Parts(x));
    front, last := SqueezedAlign(SqueezeAll(CompactItems(vs)), x);
  }

  lemma {:induction false} NoCutItems(vs: seq<Value>, w: string)
    requires NulFree(w) && CutShort(Squeeze(w), Squeeze(CompactValue(VectorValue(vs)))) && Wrapped(w, '[', ']')
    ensures ParseItems(Parts(Inner(w)), |w|) != vs
    decreases vs
  {
    hide ParseItem, ParseItems, ParseValue, Parts, CompactItems, Commas, Squeeze, SqueezeAll, IsSpace;
    hide Join, Lead, LeadCloses, ItemsRead, Agree, Braces, Inner;
    var x, cs := Inner(w), CompactItems(vs);
    var ps := SqueezeAll(cs);
    BackslashIsNoSpace();
    SqueezeAround('[', Join(cs, ","), ']');
    SqueezeJoin(cs);
    CutArray(Join(ps, ","), w);
    InnerNulFree(w);
    if ParseItems(Parts(x), |w|) == vs {
      SomeItems(ps);
      PrefixAgrees(Squeeze(x), Join(ps, ","));
      SqueezeCommas(x);
      var v := vs[|vs| - 1];
      var front, last := SqueezedItemsAlign(vs, x, |w|);
      var lead := Lead(front + [last]);
      SqueezeConcat(lead, last);
      LeadAndLast(ps);
      LastSqueezed(cs);
      LastItem(vs, Parts(x));
      LastCompactItem(vs);
      LastIsCut(Lead(ps), Squeeze(last), Last(ps), Join(ps, ","));
      LeadBraces(front + [last]);
      SqueezeBraces(lead, 0);
      BracesConcat(Lead(ps), Squeeze(last), 0);
      ItemIsValue(last);
      CutShortIs(Squeeze(last), Squeeze(CompactValue(v)));
      NulFreeEnd(lead, last);
      NoCutValue(v, last);
      assert false;
    }
  }

  lemma InnerNulFree(w: string)
    requires NulFree(w) && |w| > 0
    ensures NulFree(Inner(w))
  {
  }

  lemma SomeItems(ps: seq<string>)
    requires Join(ps, ",") != ""
    ensures |ps| > 0
  {
  }

  // ----- string values that come back are plain -----

  predicate PlainString(s: string) {
    forall i :: 0 <= i < |s| ==> !IsEscaped(s[i])
  }

  /** No quote and no backslash in any string value, at any depth; keys are not asked. */
  predicate PlainValue(v: Value)
    decreases v
  {
    match v
    case IntValue(_) => true
    case StringValue(s) => PlainString(s)
    case ObjectValue(es) => PlainElements(es)
    case VectorValue(vs) => PlainItems(vs)
  }

  predicate PlainItems(vs: seq<Value>)
    decreases vs
  {
    |vs| == 0 || (PlainValue(vs[0]) && PlainItems(vs[1..]))
  }

  predicate PlainElements(es: seq<Element>)
    decreases es
  {
    |es| == 0 || ((es[0].value.Some? ==> PlainValue(es[0].value.value)) && PlainElements(es[1..]))
  }

  lemma {:induction false} PlainWhenSqueezed(s: string)
    requires PlainString(Squeeze(s))
    ensures PlainString(s)
  {
    hide IsSpace, IsEscaped;
    if s != "" {
      SpaceIsNeither(s[0]);
      if !IsSpace(s[0]) {
        assert Squeeze(s)[0] == s[0] && Squeeze(s)[1..] == Squeeze(s[1..]);
      }
      PlainWhenSqueezed(s[1..]);
    }
  }

  lemma StringIsPlain(s: string, w: string, k: nat)
    requires Squeeze(w) == Squeeze(CompactValue(StringValue(s))) + Closers(k) && ParseValue(w) == Some(StringValue(s))
    ensures PlainString(s)
  {
    hide ParseValue, Squeeze, CompactValue, Escape, PlainString;
    StringIsWrapped(w, s);
    SqueezedString(s);
    SqueezeQuote();
    var z := Squeeze(s);
    EscapeLength(z);
    PlainIs(z);
    PlainWhenSqueezed(s);
  }

  lemma PlainIs(z: string)
    ensures (forall i :: 0 <= i < |z| ==> !IsEscaped(z[i])) ==> PlainString(z)
  {
  }

  /** The two parts of a text at a place of its squeezed text. */
  lemma {:induction false} SplitSqueezed(u: string, n: nat) returns (a: string, b: string)
    requires n <= |Squeeze(u)|
    ensures u == a + b && Squeeze(a) == Squeeze(u)[..n] && Squeeze(b) == Squeeze(u)[n..]
  {
    hide IsSpace;
    if n == 0 {
      a, b := "", u;
    } else if IsSpace(u[0]) {
      a, b := SplitSqueezed(u[1..], n);
      a := [u[0]] + a;
      assert a[1..] + b == u[1..];
    } else {
      a, b := SplitSqueezed(u[1..], n - 1);
      assert Squeeze(u)[1..] == Squeeze(u[1..]);
      a := [u[0]] + a;
      assert a[1..] + b == u[1..];
    }
  }

  /** Of closing braces the normaliser leaves some. */
  lemma {:induction false} RestOfSqueezedClosers(u: string, m: nat, st: Reader) returns (j: nat)
    requires NulFree(u) && Squeeze(u) == Closers(m) && st.removed && st.open >= 1
    ensures Squeeze(Rest(u, st)) == Closers(j)
  {
    hide IsSpace, Next, Keeps, Stops, Rest;
    SqueezeNothing();
    if u == "" {
      j := 0;
      RestOfNothing(st);
    } else {
      RestHead(u, st);
      NextInside(u[0], st);
      SpaceIsPlain(u[0]);
      if Stops(u[0], st) {
        j := 0;
      } else if IsSpace(u[0]) {
        j := RestOfSqueezedClosers(u[1..], m, Next(u[0], st));
        SqueezeConcat([u[0]], Rest(u[1..], Next(u[0], st)));
        SqueezeOne(u[0]);
      } else {
        assert Squeeze(u)[0] == u[0] == '}' && Squeeze(u)[1..] == Squeeze(u[1..]) == Closers(m - 1);
        j := RestOfSqueezedClosers(u[1..], m - 1, Next(u[0], st));
        SqueezeConcat([u[0]], Rest(u[1..], Next(u[0], st)));
        SqueezeOne(u[0]);
        j := j + 1;
        assert "}" + Closers(j - 1) == Closers(j);
      }
    }
  }

  lemma RestOfNothing(st: Reader)
    ensures Rest("", st) == ""
  {
  }

  /** What the normaliser leaves of an object's text: its body cut short, or with closing braces behind it. */
  lemma NormalizedTail(body: string, w: string, k: nat) returns (j: nat)
    requires NulFree(w) && w != "" && w[0] == '{' && Squeeze(w) == "{" + body + "}" + Closers(k)
    ensures NulFree(Normalize(w))
    ensures CutFrom(Squeeze(Normalize(w)), body, 1) || Squeeze(Normalize(w)) == body + Closers(j)
  {
    hide IsSpace, Squeeze, Rest, Normalize, CutFrom, StaysOpen;
    var u := w[1..];
    var st := Reader(false, true, 1, true);
    BackslashIsNoSpace();
    assert w == "{" + u;
    SqueezeConcat("{", u);
    SqueezeOne('{');
    var tail := Closers(k + 1);
    assert "}" + Closers(k) == tail;
    assert Squeeze(u) == ("{" + Squeeze(u))[1..] == ("{" + body + "}" + Closers(k))[1..] == body + tail;
    var a, b := SplitSqueezed(u, |body|);
    assert Squeeze(a) == body && Squeeze(b) == tail;
    NulFreeEnd("{", u);
    NulFreeEnd(a, b);
    SqueezeBraces(a, 1);
    if StaysOpen(a, 1) {
      FirstBraceDropped(u);
      RestInBraces(a, b, st);
      RestIsStripped(u, st);
      StaysOpenEnd(a, 1);
      InsideStaysOpen(a, st);
      j := RestOfSqueezedClosers(b, k + 1, Inside(a, st));
      SqueezeConcat(Strip(a, false), Rest(b, Inside(a, st)));
      SqueezeStrip(a, false);
    } else {
      j := 0;
      assert "{" + a + b == w;
      CutBody(a, b);
    }
  }

  lemma InsideStaysOpen(a: string, st: Reader)
    requires Braces(a, st.open) > 0
    ensures Inside(a, st).removed && Inside(a, st).open >= 1
  {
  }

  /** Part by part the texts of the elements, but for white space, and closing braces behind the last. */
  ghost predicate Rendered(parts: seq<string>, cs: seq<string>, k: nat) {
    |parts| == |cs| &&
    (|cs| == 0 ||
     (NulFree(parts[0]) && Squeeze(parts[0]) == Squeeze(cs[0]) + Closers(if |cs| == 1 then k else 0)
      && Rendered(parts[1..], cs[1..], k)))
  }

  lemma {:induction false} AlignedIsRendered(front: seq<string>, last: string, cs: seq<string>, k: nat)
    requires |cs| > 0 && SqueezeAll(front) == ButLast(SqueezeAll(cs)) && NulFree(Lead(front + [last]) + last)
    requires Squeeze(last) == Last(SqueezeAll(cs)) + Closers(k)
    ensures Rendered(front + [last], cs, k)
  {
    hide Squeeze, Closers, IsSpace;
    var parts := front + [last];
    NulFreeEnd(Lead(parts), last);
    if |cs| == 1 {
      assert front == [] && parts == [last] && parts[1..] == [];
    } else {
      assert parts[0] == front[0] && parts[1..] == front[1..] + [last];
      var rest := SqueezeAll(cs[1..]);
      assert SqueezeAll(cs)[1..] == rest;
      assert SqueezeAll(front)[1..] == SqueezeAll(front[1..]);
      assert ButLast(SqueezeAll(cs))[1..] == ButLast(rest) && Last(rest) == Last(SqueezeAll(cs));
      var lead := Lead(parts[1..]);
      assert Lead(parts) + last == front[0] + ("," + (lead + last));
      NulFreeEnd(front[0], "," + (lead + last));
      NulFreeEnd(",", lead + last);
      assert Squeeze(front[0]) == SqueezeAll(front)[0] == Squeeze(cs[0]);
      NoClosers(Squeeze(cs[0]));
      assert |parts| == |cs| && parts[0] == front[0];
      AlignedIsRendered(front[1..], last, cs[1..], k);
    }
  }

  /** A text that agrees with the pieces, closing braces aside. */
  lemma ClosersAgree(s: string, n: string, k: nat)
    requires Squeeze(s) == n + Closers(k)
    ensures Agree(Squeeze(s), n) && Commas(s) == Commas(n)
  {
    hide Squeeze, Commas;
    SqueezeCommas(s);
    ClosersHaveNoCommas(n, k);
  }

  lemma SameEnd(q: string, last: string, piece: string, tail: string)
    requires q + last == q + piece + tail
    ensures last == piece + tail
  {
    assert (q + last)[|q|..] == (q + piece + tail)[|q|..];
  }

  lemma {:induction false} BodyIsPlain(es: seq<Element>, r: string, k: nat, bound: nat)
    requires NulFree(r) && |r| <= bound && Squeeze(r) == Squeeze(Body(es)) + Closers(k)
    requires ParseElements(Parts(r), bound) == es
    ensures PlainElements(es)
    decreases es, 1
  {
    hide ParseElement, ParseElements, Parts, CompactElements, CompactElement, Commas, Squeeze, SqueezeAll, IsSpace;
    hide Closers, Join, Lead, LeadCloses, ElementsRead, FewerCommas, Agree, Rendered, PlainElements;
    if |es| == 0 {
      NoElementsArePlain();
    } else {
      var cs := CompactElements(es);
      var ps := SqueezeAll(cs);
      SqueezeJoin(cs);
      ClosersAgree(r, Join(ps, ","), k);
      ReadElements(Parts(r), es, bound);
      FewerSqueezed(cs, Parts(r));
      var front, last := SqueezedAlign(ps, r);
      SqueezeConcat(Lead(front + [last]), last);
      LeadAndLast(ps);
      SameEnd(Lead(ps), Squeeze(last), Last(ps), Closers(k));
      AlignedIsRendered(front, last, cs, k);
      RenderedArePlain(es, Parts(r), k);
    }
  }

  lemma NoElementsArePlain()
    ensures PlainElements([]) && PlainItems([])
  {
  }

  lemma {:induction false} RenderedArePlain(es: seq<Element>, parts: seq<string>, k: nat)
    requires Rendered(parts, CompactElements(es), k) && ElementsRead(parts, es)
    ensures PlainElements(es)
    decreases es, 0
  {
    hide ParseElement, CompactElement, Squeeze, IsSpace, Closers, PlainValue;
    if |es| > 0 {
      assert CompactElements(es)[1..] == CompactElements(es[1..]);
      if es[0].value.Some? {
        ElementIsPlain(es[0], parts[0], if |es| == 1 then k else 0);
      }
      RenderedArePlain(es[1..], parts[1..], k);
    }
  }

  lemma {:induction false} ElementIsPlain(e: Element, p: string, k: nat)
    requires e.value.Some? && NulFree(p) && ParseElement(p) == e
    requires Squeeze(p) == Squeeze(CompactElement(e)) + Closers(k)
    ensures PlainValue(e.value.value)
    decreases e
  {
    hide ParseElement, ParseValue, CompactElement, CompactValue, Squeeze, IsSpace, Closers, PlainValue;
    ClosersAgree(p, Squeeze(CompactElement(e)), k);
    var q, w := KeyIsSqueezed(e, p);
    SqueezeConcat(q, w);
    NulFreeEnd(q, w);
    SameEnd(Squeeze(q), Squeeze(w), Squeeze(CompactValue(e.value.value)), Closers(k));
    ValueIsPlain(e.value.value, w, k);
  }

  lemma {:induction false} ValueIsPlain(v: Value, w: string, k: nat)
    requires NulFree(w) && Squeeze(w) == Squeeze(CompactValue(v)) + Closers(k) && ParseValue(w) == Some(v)
    ensures PlainValue(v)
    decreases v
  {
    hide ParseObject, ParseItems, Parts, CompactElements, CompactItems, Squeeze, Closers, Escape, Inner, Join, IsSpace;
    hide PlainElements, PlainItems, PlainString, Body;
    match v {
      case IntValue(_) =>
      case StringValue(s) =>
        StringIsPlain(s, w, k);
      case ObjectValue(es) =>
        BodyIs(es);
        ObjectIsPlain(es, w, k);
      case VectorValue(vs) =>
        ArrayIsPlain(vs, w, k);
    }
  }

  lemma {:induction false} ObjectIsPlain(es: seq<Element>, w: string, k: nat)
    requires NulFree(w) && w != "" && w[0] == '{' && Squeeze(w) == Squeeze("{" + Body(es) + "}") + Closers(k)
    requires ParseObject(w) == es
    ensures PlainElements(es)
    decreases es, 2
  {
    hide ParseElements, Parts, Normalize, CutFrom, Squeeze, Closers, Body, PlainElements, IsSpace;
    BackslashIsNoSpace();
    SqueezeAround('{', Body(es), '}');
    var j := NormalizedTail(Squeeze(Body(es)), w, k);
    if CutFrom(Squeeze(Normalize(w)), Squeeze(Body(es)), 1) {
      CutNeedsElements(es, Squeeze(Normalize(w)));
      NoCutElements(es, Normalize(w), |w|);
      assert false;
    } else {
      BodyIsPlain(es, Normalize(w), j, |w|);
    }
  }

  lemma {:induction false} ArrayIsPlain(vs: seq<Value>, w: string, k: nat)
    requires NulFree(w) && Wrapped(w, '[', ']') && ParseItems(Parts(Inner(w)), |w|) == vs
    requires Squeeze(w) == Squeeze("[" + Join(CompactItems(vs), ",") + "]") + Closers(k)
    ensures PlainItems(vs)
    decreases vs, 1
  {
    hide ParseItems, ParseItem, Parts, CompactItems, Commas, Squeeze, SqueezeAll, IsSpace, Closers, Inner;
    hide Join, Lead, LeadCloses, ItemsRead, Agree, Rendered, PlainItems;
    var x, cs := Inner(w), CompactItems(vs);
    var ps := SqueezeAll(cs);
    SqueezeJoin(cs);
    ArrayText(Join(cs, ","), w, k);
    InnerNulFree(w);
    if |vs| == 0 {
      NoElementsArePlain();
    } else {
      NoClosers(Join(ps, ","));
      ClosersAgree(x, Join(ps, ","), 0);
      var front, last := SqueezedItemsAlign(vs, x, |w|);
      SqueezeConcat(Lead(front + [last]), last);
      LeadAndLast(ps);
      assert Last(ps) + Closers(0) == Last(ps) by {
        NoClosers(Last(ps));
      }
      assert Lead(ps) + Last(ps) + "" == Lead(ps) + Last(ps);
      SameEnd(Lead(ps), Squeeze(last), Last(ps), "");
      assert Last(ps) + "" == Last(ps);
      AlignedIsRendered(front, last, cs, 0);
      RenderedItemsArePlain(vs, Parts(x));
    }
  }

  /** An array is only read from a text that ends with its bracket. */
  lemma ArrayText(j: string, w: string, k: nat)
    requires Wrapped(w, '[', ']') && Squeeze(w) == Squeeze("[" + j + "]") + Closers(k)
    ensures Squeeze(Inner(w)) == Squeeze(j)
  {
    hide Squeeze, IsSpace;
    BackslashIsNoSpace();
    SqueezeAround('[', j, ']');
    var x := Inner(w);
    assert w == "[" + x + "]";
    SqueezeAround('[', x, ']');
    var a, b := "[" + Squeeze(x) + "]", "[" + Squeeze(j) + "]" + Closers(k);
    assert a[|a| - 1] == ']';
    assert b[|b| - 1] == if k > 0 then '}' else ']';
    assert a[1..|a| - 1] == Squeeze(x) && b[1..|b| - 1 - k] == Squeeze(j);
  }

  lemma {:induction false} RenderedItemsArePlain(vs: seq<Value>, parts: seq<string>)
    requires Rendered(parts, CompactItems(vs), 0) && ItemsRead(parts, vs)
    ensures PlainItems(vs)
    decreases vs, 0
  {
    hide ParseItem, ParseValue, CompactValue, Squeeze, IsSpace, Closers, PlainValue;
    if |vs| > 0 {
      assert CompactItems(vs)[1..] == CompactItems(vs[1..]);
      ItemIsValue(parts[0]);
      ValueIsPlain(vs[0], parts[0], 0);
      RenderedItemsArePlain(vs[1..], parts[1..]);
    }
  }

  /**
   * A document whose printed text has no NUL comes back only if its string values have no quote
   * and no backslash, whatever its keys and at any depth.
   */
  lemma StringsStayPlain(es: seq<Element>)
    requires NulFree(PrintObject(es)) && ParseObject(PrintObject(es)) == es
    ensures PlainElements(es)
  {
    hide ParseObject, Squeeze, Body, PlainElements, IsSpace;
    var w := PrintObject(es);
    BackslashIsNoSpace();
    SqueezedElements(es);
    SqueezeAround('{', Join(PrintElements(es), ", "), '}');
    SqueezeAround('{', Body(es), '}');
    NoClosers(Squeeze(w));
    ObjectIsPlain(es, w, 0);
  }
}

/** Reading makes no commas: what that says about the pieces that a text is split into. */
module JsonCommas {
  import opened Wrappers
  import opened JsonText
  import opened JsonNormal
  import opened Json
  import opened JsonTheorems

  function Commas(s: string): nat {
    if s == "" then 0 else (if s[0] == ',' then 1 else 0) + Commas(s[1..])
  }

  function CommasIn(ps: seq<string>): nat {
    if |ps| == 0 then 0 else Commas(ps[0]) + CommasIn(ps[1..])
  }

  lemma {:induction false} CommasConcat(s: string, t: string)
    ensures Commas(s + t) == Commas(s) + Commas(t)
  {
    if s == "" {
      assert s + t == t;
    } else {
      assert (s + t)[1..] == s[1..] + t;
      CommasConcat(s[1..], t);
    }
  }

  lemma CommaCounts(c: char)
    ensures Commas([c]) == if c == ',' then 1 else 0
  {
    assert [c][1..] == "";
  }

  lemma CommasBetween(s: string, t: string)
    ensures Commas(s + "," + t) == Commas(s) + 1 + Commas(t)
  {
    CommasConcat(s, ",");
    CommasConcat(s + ",", t);
    CommaCounts(',');
  }

  lemma CommasAround(open: char, s: string, close: char)
    requires open != ',' && close != ','
    ensures Commas([open] + s + [close]) == Commas(s)
  {
    CommasConcat([open], s);
    CommasConcat([open] + s, [close]);
    CommaCounts(open);
    CommaCounts(close);
  }

  lemma {:induction false} CommasEscaped(s: string)
    ensures Commas(Escape(s)) == Commas(s)
  {
    if s != "" {
      CommasEscaped(s[1..]);
      EscapeHead(s);
      var head := if IsEscaped(s[0]) then ['\\', s[0]] else [s[0]];
      CommasConcat(head, Escape(s[1..]));
      CommaCounts(s[0]);
      assert ['\\', s[0]][1..] == [s[0]];
    }
  }

  /** The normaliser keeps no more commas than it reads. */
  lemma {:induction false} CommasKept(s: string, st: Reader)
    ensures Commas(Rest(s, st)) <= Commas(s)
  {
    hide Keeps, Next, Stops;
    if s != "" && s[0] != '\0' && !Stops(s[0], st) {
      var rest := Rest(s[1..], Next(s[0], st));
      CommasKept(s[1..], Next(s[0], st));
      assert ([s[0]] + rest)[1..] == rest;
    }
  }

  lemma {:induction false} CommasInJoin(ps: seq<string>)
    requires |ps| > 0
    ensures Commas(Join(ps, ",")) == CommasIn(ps) + |ps| - 1
  {
    hide Commas;
    if |ps| == 1 {
      assert ps[1..] == [];
    } else {
      CommasInJoin(ps[1..]);
      CommasBetween(ps[0], Join(ps[1..], ","));
    }
  }

  /** The commas between the parts are not in them. */
  lemma {:induction false} CommasInParts(s: string)
    ensures Parts(s) == [] || CommasIn(Parts(s)) + |Parts(s)| - 1 <= Commas(s)
    decreases |s|
  {
    hide Commas, FindIn;
    match FindIn(s, 0, 0) {
      case Some(i) =>
        assert s == s[..i] + "," + s[i + 1..];
        CommasBetween(s[..i], s[i + 1..]);
        CommasInParts(s[i + 1..]);
        assert ([s[..i]] + Parts(s[i + 1..]))[1..] == Parts(s[i + 1..]);
      case None =>
        if |s| > 0 {
          assert [s][1..] == [];
        }
    }
  }

  // ----- no value has more commas than the text it was read from -----

  lemma {:induction false} ObjectCommas(s: string)
    ensures Commas(Join(CompactElements(ParseObject(s)), ",")) <= Commas(s)
    decreases |s|, 3
  {
    hide Parts, Normalize, Rest, ParseElements, CompactElements, Commas;
    var parts := Parts(Normalize(s));
    CommasOfNormalized(s);
    CommasInParts(Normalize(s));
    ElementsCommas(parts, |s|);
    JoinedCommas(CompactElements(ParseElements(parts, |s|)), parts, Normalize(s));
  }

  lemma CommasOfNormalized(s: string)
    ensures Commas(Normalize(s)) <= Commas(s)
  {
    CommasKept(s, START);
  }

  /** As many pieces as parts, or fewer, and no more commas in them: none more when they are joined. */
  lemma JoinedCommas(ps: seq<string>, parts: seq<string>, s: string)
    requires |ps| <= |parts| && CommasIn(ps) <= CommasIn(parts)
    requires parts == [] || CommasIn(parts) + |parts| - 1 <= Commas(s)
    ensures Commas(Join(ps, ",")) <= Commas(s)
  {
    if |ps| > 0 {
      CommasInJoin(ps);
    }
  }

  lemma {:induction false} ElementsCommas(parts: seq<string>, bound: nat)
    requires forall p :: p in parts ==> |p| <= bound
    ensures CommasIn(CompactElements(ParseElements(parts, bound))) <= CommasIn(parts)
    decreases bound, 2, |parts|
  {
    hide ParseElement, CompactElement, Commas;
    if |parts| > 0 {
      ElementCommas(parts[0]);
      ElementsCommas(parts[1..], bound);
    }
  }

  lemma {:induction false} ElementCommas(e: string)
    ensures Commas(CompactElement(ParseElement(e))) <= Commas(e)
    decreases |e|, 1
  {
    hide ParseValue, CompactValue, Commas, ParseKey;
    var el := ParseElement(e);
    if el.value.Some? {
      var pos := IndexOf(e, ':').value;
      var key, text := e[..pos], e[pos + 1..];
      ValueCommas(text);
      KeyCommas(key);
      assert e == key + ":" + text;
      CommasConcat(key, ":");
      CommasConcat(key + ":", text);
      CommaCounts(':');
      ElementTextCommas(el.key, CompactValue(el.value.value));
    } else {
      MissingCommas();
      assert CompactElement(el) == "\"\":\"null\"";
    }
  }

  lemma {:induction false} CommaFree(s: string)
    requires forall i :: 0 <= i < |s| ==> s[i] != ','
    ensures Commas(s) == 0
  {
    if s != "" {
      CommaFree(s[1..]);
    }
  }

  lemma MissingCommas()
    ensures Commas("\"\":\"null\"") == 0
  {
    CommaFree("\"\":\"null\"");
  }

  lemma ElementTextCommas(key: string, text: string)
    ensures Commas("\"" + key + "\"" + ":" + text) == Commas(key) + Commas(text)
  {
    hide Commas;
    CommasAround('"', key, '"');
    CommasConcat("\"" + key + "\"", ":");
    CommasConcat("\"" + key + "\"" + ":", text);
    CommaCounts(':');
  }

  lemma InnerCommas(s: string)
    requires |s| > 0
    ensures Commas(Inner(s)) <= Commas(s)
  {
    hide Commas;
    if |s| > 1 {
      var t := s[1..];
      assert s == s[..1] + t && t == t[..|t| - 1] + t[|t| - 1..] && Inner(s) == t[..|t| - 1];
      CommasConcat(s[..1], t);
      CommasConcat(t[..|t| - 1], t[|t| - 1..]);
    } else {
      NoCommas();
    }
  }

  lemma NoCommas()
    ensures Commas("") == 0
  {
  }

  lemma KeyCommas(key: string)
    ensures Commas(ParseKey(key)) <= Commas(key)
  {
    hide Commas;
    if |key| > 0 {
      InnerCommas(key);
    }
  }

  lemma {:induction false} ValueCommas(value: string)
    ensures ParseValue(value).Some? ==> Commas(CompactValue(ParseValue(value).value)) <= Commas(value)
    decreases |value|, 6
  {
    hide ParseObject, ParseItems, Parts, CompactElements, CompactItems, Commas, Inner, Escape;
    if Wrapped(value, '"', '"') {
      InnerCommas(value);
      CommasEscaped(Inner(value));
      CommasAround('"', Escape(Inner(value)), '"');
    } else if Wrapped(value, '{', '}') {
      ObjectCommas(value);
      CommasAround('{', Join(CompactElements(ParseObject(value)), ","), '}');
    } else if Wrapped(value, '[', ']') {
      var inner := Inner(value);
      var vs := ParseItems(Parts(inner), |value|);
      InnerCommas(value);
      CommasInParts(inner);
      ItemsCommas(Parts(inner), |value|);
      JoinedCommas(CompactItems(vs), Parts(inner), inner);
      CommasAround('[', Join(CompactItems(vs), ","), ']');
    }
  }

  lemma {:induction false} ItemsCommas(items: seq<string>, bound: nat)
    requires forall p :: p in items ==> |p| <= bound
    ensures |ParseItems(items, bound)| <= |items|
    ensures CommasIn(CompactItems(ParseItems(items, bound))) <= CommasIn(items)
    decreases bound, 5, |items|
  {
    hide ParseItem, CompactValue, Commas;
    if |items| > 0 {
      ItemCommas(items[0]);
      ItemsCommas(items[1..], bound);
      KeptCommas(ParseItem(items[0]), ParseItems(items[1..], bound));
    }
  }

  lemma KeptCommas(v: Option<Value>, rest: seq<Value>)
    ensures CommasIn(CompactItems(Kept(v) + rest))
            == (if v.Some? then Commas(CompactValue(v.value)) else 0) + CommasIn(CompactItems(rest))
  {
    hide CompactValue, Commas;
    match v {
      case Some(value) =>
        assert ([value] + rest)[1..] == rest;
      case None =>
        assert [] + rest == rest;
    }
  }

  lemma {:induction false} ItemCommas(item: string)
    ensures ParseItem(item).Some? ==> Commas(CompactValue(ParseItem(item).value)) <= Commas(item)
    decreases |item|, 4
  {
    hide ParseObject, CompactElements, Commas, Inner, Escape;
    if Wrapped(item, '"', '"') {
      InnerCommas(item);
      CommasEscaped(Inner(item));
      CommasAround('"', Escape(Inner(item)), '"');
    } else if Wrapped(item, '{', '}') {
      ObjectCommas(item);
      CommasAround('{', Join(CompactElements(ParseObject(item)), ","), '}');
    }
  }

  // ----- the parts of a text that agrees with the joined pieces -----

  /** The two texts are alike as far as both go. */
  predicate Agree(r: string, n: string) {
    forall i :: 0 <= i < |r| && i < |n| ==> r[i] == n[i]
  }

  /** All pieces but the last, each with its comma. */
  function Lead(ps: seq<string>): string {
    if |ps| <= 1 then "" else ps[0] + "," + Lead(ps[1..])
  }

  lemma {:induction false} LeadAndLast(ps: seq<string>)
    requires |ps| > 0
    ensures Join(ps, ",") == Lead(ps) + ps[|ps| - 1]
  {
    if |ps| > 1 {
      LeadAndLast(ps[1..]);
      assert ps[0] + "," + (Lead(ps[1..]) + ps[|ps| - 1]) == ps[0] + "," + Lead(ps[1..]) + ps[|ps| - 1];
    } else {
      assert "" + ps[0] == ps[0];
    }
  }

  lemma CommasOfPrefix(s: string, i: nat)
    requires i < |s| && s[i] == ','
    ensures Commas(s[..i]) < Commas(s)
  {
    hide Commas;
    assert s == s[..i] + "," + s[i + 1..];
    CommasBetween(s[..i], s[i + 1..]);
  }

  /** A first part with no more commas than the first piece is that piece. */
  lemma FirstPart(p: string, r: string, piece: string, n: string)
    requires Agree(p + "," + r, piece + "," + n) && Commas(p) == Commas(piece)
    ensures p == piece && Agree(r, n)
  {
    hide Commas;
    var s, t := p + "," + r, piece + "," + n;
    forall i | 0 <= i < |p| && i < |piece|
      ensures p[i] == piece[i]
    {
      assert s[i] == p[i] && t[i] == piece[i];
    }
    if |p| < |piece| {
      assert s[|p|] == t[|p|] == piece[|p|];
      assert p == piece[..|p|];
      CommasOfPrefix(piece, |p|);
      assert false;
    } else if |p| > |piece| {
      assert s[|piece|] == t[|piece|] == ',';
      assert piece == p[..|piece|];
      CommasOfPrefix(p, |piece|);
      assert false;
    }
    assert p == piece;
    forall i | 0 <= i < |r| && i < |n|
      ensures r[i] == n[i]
    {
      assert s[|p| + 1 + i] == t[|p| + 1 + i];
    }
  }

  /** Piece by piece, no more commas than in the parts. */
  predicate FewerCommas(ps: seq<string>, parts: seq<string>) {
    |ps| == |parts| && (|ps| == 0 || (Commas(ps[0]) <= Commas(parts[0]) && FewerCommas(ps[1..], parts[1..])))
  }

  /** All pieces but the last close what they open. */
  ghost predicate LeadCloses(ps: seq<string>) {
    |ps| <= 1 || (Closed(ps[0]) && LeadCloses(ps[1..]))
  }

  function ButLast(ps: seq<string>): seq<string>
    requires |ps| > 0
  {
    ps[..|ps| - 1]
  }

  function Last(ps: seq<string>): string
    requires |ps| > 0
  {
    ps[|ps| - 1]
  }

  /**
   * When the text has as many parts as pieces, no part has fewer commas than its piece, and the
   * text has no more than all, then all parts but the last are the pieces.
   */
  lemma {:induction false} PartsAlign(ps: seq<string>, r: string) returns (last: string)
    requires |ps| > 0 && Agree(r, Join(ps, ",")) && Commas(r) <= Commas(Join(ps, ","))
    requires FewerCommas(ps, Parts(r))
    ensures Parts(r) == ButLast(ps) + [last] && LeadCloses(ps)
    ensures r == Lead(ps) + last && Agree(last, Last(ps))
  {
    hide Commas, FindIn, Closed, Agree, Parts, Join, Lead;
    JoinAndLead(ps);
    if |ps| == 1 {
      last := r;
      OnlyPart(r, ps[0]);
      assert Parts(r) == [r];
      assert "" + r == r;
    } else {
      var rest := MoreParts(r);
      var p := Parts(r)[0];
      assert Parts(r)[1..] == Parts(rest);
      SameCommas(ps, r, p, rest);
      FirstPart(p, rest, ps[0], Join(ps[1..], ","));
      DelimiterAfter(p, rest);
      last := PartsAlign(ps[1..], rest);
      assert ButLast(ps) == [ps[0]] + ButLast(ps[1..]);
      assert p + "," + (Lead(ps[1..]) + last) == p + "," + Lead(ps[1..]) + last;
    }
  }

  /** The first piece, and what follows it. */
  lemma JoinAndLead(ps: seq<string>)
    requires |ps| > 0
    ensures |ps| == 1 ==> Join(ps, ",") == ps[0] && Lead(ps) == ""
    ensures |ps| > 1 ==> Join(ps, ",") == ps[0] + "," + Join(ps[1..], ",") && Lead(ps) == ps[0] + "," + Lead(ps[1..])
  {
  }

  lemma OnlyPart(r: string, piece: string)
    requires |Parts(r)| == 1 && Commas(r) <= Commas(piece) <= Commas(Parts(r)[0])
    ensures Parts(r)[0] == r
  {
    hide Commas, FindIn;
    if FindIn(r, 0, 0).Some? {
      var i := FindIn(r, 0, 0).value;
      CommasOfPrefix(r, i);
      assert false;
    }
  }

  lemma MoreParts(r: string) returns (rest: string)
    requires |Parts(r)| > 1
    ensures r == Parts(r)[0] + "," + rest && Parts(r) == [Parts(r)[0]] + Parts(rest)
    ensures FindIn(r, 0, 0) == Some(|Parts(r)[0]|)
  {
    hide FindIn;
    rest := r[|Parts(r)[0]| + 1..];
  }

  lemma {:induction false} CommasInBound(ps: seq<string>, qs: seq<string>)
    requires FewerCommas(ps, qs)
    ensures CommasIn(ps) <= CommasIn(qs)
  {
    hide Commas;
    if |ps| > 0 {
      CommasInBound(ps[1..], qs[1..]);
    }
  }

  /** The first part has exactly the commas of the first piece, and so have the rests. */
  lemma SameCommas(ps: seq<string>, r: string, p: string, rest: string)
    requires |ps| > 1 && r == p + "," + rest && Parts(r) == [p] + Parts(rest)
    requires Commas(r) <= Commas(Join(ps, ",")) && FewerCommas(ps, Parts(r))
    ensures Commas(p) == Commas(ps[0]) && Commas(rest) <= Commas(Join(ps[1..], ","))
    ensures FewerCommas(ps[1..], Parts(rest))
  {
    hide Commas, Parts;
    assert Parts(r)[1..] == Parts(rest);
    CommasBetween(p, rest);
    CommasBetween(ps[0], Join(ps[1..], ","));
    CommasInParts(rest);
    CommasInJoin(ps[1..]);
    CommasInBound(ps[1..], Parts(rest));
  }
}

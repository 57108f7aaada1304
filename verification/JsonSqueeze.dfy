/**
 * What comes back at all: over texts without their white space, so that it does not matter where
 * the normaliser takes a quote inside a string for the end of the string.
 */
module JsonSqueeze {
  import opened JsonText
  import opened JsonNormal
  import opened Json
  import opened JsonTheorems
  import opened JsonCommas
  import opened JsonReading

  // ----- texts without white space -----

  function Squeeze(s: string): string {
    if s == "" then "" else Emit(s[0], !IsSpace(s[0]), Squeeze(s[1..]))
  }

  function SqueezeAll(ps: seq<string>): (qs: seq<string>)
    ensures |qs| == |ps|
  {
    if |ps| == 0 then [] else [Squeeze(ps[0])] + SqueezeAll(ps[1..])
  }

  lemma {:induction false} SqueezeConcat(s: string, t: string)
    ensures Squeeze(s + t) == Squeeze(s) + Squeeze(t)
  {
    hide IsSpace, Emit;
    if s == "" {
      assert s + t == t;
    } else {
      assert (s + t)[1..] == s[1..] + t;
      SqueezeConcat(s[1..], t);
      EmitConcat(s[0], !IsSpace(s[0]), Squeeze(s[1..]), Squeeze(t));
    }
  }

  lemma SqueezeOne(c: char)
    ensures Squeeze([c]) == if IsSpace(c) then "" else [c]
  {
    hide IsSpace;
    assert [c][1..] == "";
  }

  lemma SqueezeAround(open: char, s: string, close: char)
    requires !IsSpace(open) && !IsSpace(close)
    ensures Squeeze([open] + s + [close]) == [open] + Squeeze(s) + [close]
  {
    hide IsSpace, Squeeze;
    SqueezeConcat([open] + s, [close]);
    SqueezeConcat([open], s);
    SqueezeOne(open);
    SqueezeOne(close);
  }

  lemma SqueezeBetween(s: string, c: char, t: string)
    requires !IsSpace(c)
    ensures Squeeze(s + [c] + t) == Squeeze(s) + [c] + Squeeze(t)
  {
    hide IsSpace, Squeeze;
    SqueezeConcat(s + [c], t);
    SqueezeConcat(s, [c]);
    SqueezeOne(c);
  }

  lemma {:induction false} SqueezeStrip(s: string, q: bool)
    ensures Squeeze(Strip(s, q)) == Squeeze(s)
  {
    hide IsSpace;
    if s != "" {
      SqueezeStrip(s[1..], Toggle(s[0], q));
      if q || !IsSpace(s[0]) {
        assert Strip(s, q)[1..] == Strip(s[1..], Toggle(s[0], q));
      }
    }
  }

  /** White space has no braces, no commas and no escapes. */
  lemma {:induction false} SqueezeBraces(s: string, n: int)
    ensures Braces(Squeeze(s), n) == Braces(s, n)
    ensures n > 0 ==> (StaysOpen(Squeeze(s), n) <==> StaysOpen(s, n))
  {
    hide IsSpace;
    if s != "" {
      SpaceIsPlain(s[0]);
      SqueezeBraces(s[1..], Count(s[0], n));
      if !IsSpace(s[0]) {
        assert Squeeze(s)[1..] == Squeeze(s[1..]);
      }
    }
  }

  lemma {:induction false} SqueezeCommas(s: string)
    ensures Commas(Squeeze(s)) == Commas(s)
  {
    hide IsSpace;
    if s != "" {
      SpaceIsNeither(s[0]);
      SqueezeCommas(s[1..]);
      if !IsSpace(s[0]) {
        assert Squeeze(s)[1..] == Squeeze(s[1..]);
      }
    }
  }

  lemma SpaceIsNeither(c: char)
    ensures IsSpace(c) ==> c != ',' && c != ':' && !IsEscaped(c)
  {
  }

  lemma {:induction false} SqueezeEscape(s: string)
    ensures Squeeze(Escape(s)) == Escape(Squeeze(s))
  {
    hide IsSpace;
    if s != "" {
      SpaceIsNeither(s[0]);
      SqueezeEscape(s[1..]);
      EscapeHead(s);
      var head := if IsEscaped(s[0]) then ['\\', s[0]] else [s[0]];
      SqueezeConcat(head, Escape(s[1..]));
      SqueezeOne(s[0]);
      if IsEscaped(s[0]) {
        BackslashIsNoSpace();
        assert head[1..] == [s[0]];
      }
      if !IsSpace(s[0]) {
        assert Squeeze(s)[1..] == Squeeze(s[1..]);
        EscapeHead(Squeeze(s));
      }
    }
  }

  lemma BackslashIsNoSpace()
    ensures !IsSpace('\\') && !IsSpace('"') && !IsSpace(':') && !IsSpace(',')
    ensures !IsSpace('{') && !IsSpace('}') && !IsSpace('[') && !IsSpace(']')
  {
  }

  lemma {:induction false} SqueezeColons(s: string)
    requires ColonFree(s)
    ensures ColonFree(Squeeze(s))
  {
    hide IsSpace;
    if s != "" {
      SqueezeColons(s[1..]);
    }
  }

  lemma {:induction false} SqueezeJoin(ps: seq<string>)
    ensures Squeeze(Join(ps, ",")) == Join(SqueezeAll(ps), ",")
  {
    hide Squeeze;
    BackslashIsNoSpace();
    if |ps| > 1 {
      SqueezeJoin(ps[1..]);
      SqueezeBetween(ps[0], ',', Join(ps[1..], ","));
      assert SqueezeAll(ps)[1..] == SqueezeAll(ps[1..]);
    } else if |ps| == 0 {
      SqueezeNothing();
    }
  }

  lemma SqueezeNothing()
    ensures Squeeze("") == ""
  {
  }

  lemma {:induction false} FewerSqueezed(cs: seq<string>, parts: seq<string>)
    requires FewerCommas(cs, parts)
    ensures FewerCommas(SqueezeAll(cs), parts)
  {
    hide Commas, Squeeze;
    if |cs| > 0 {
      SqueezeCommas(cs[0]);
      FewerSqueezed(cs[1..], parts[1..]);
    }
  }

  lemma {:induction false} LastSqueezed(cs: seq<string>)
    requires |cs| > 0
    ensures Last(SqueezeAll(cs)) == Squeeze(Last(cs))
  {
    hide Squeeze;
    if |cs| > 1 {
      LastSqueezed(cs[1..]);
    }
  }

  // ----- the printed text without white space -----

  lemma {:induction false} SqueezedValue(v: Value)
    ensures Squeeze(PrintValue(v)) == Squeeze(CompactValue(v))
    decreases v
  {
    hide Squeeze, Escape, Decimal;
    BackslashIsNoSpace();
    match v {
      case IntValue(_) =>
      case StringValue(_) =>
      case ObjectValue(es) =>
        SqueezedElements(es);
        SqueezeAround('{', Join(PrintElements(es), ", "), '}');
        SqueezeAround('{', Body(es), '}');
      case VectorValue(vs) =>
        SqueezedItems(vs);
        SqueezeAround('[', Join(PrintItems(vs), ", "), ']');
        SqueezeAround('[', Join(CompactItems(vs), ","), ']');
    }
  }

  lemma CommaAndSpace(s: string, t: string)
    ensures Squeeze(s + ", " + t) == Squeeze(s) + "," + Squeeze(t)
    ensures Squeeze(s + ": " + t) == Squeeze(s) + ":" + Squeeze(t)
  {
    hide Squeeze;
    BackslashIsNoSpace();
    SqueezeOne(' ');
    SqueezeConcat(" ", t);
    assert s + ", " + t == s + [','] + (" " + t) && s + ": " + t == s + [':'] + (" " + t);
    SqueezeBetween(s, ',', " " + t);
    SqueezeBetween(s, ':', " " + t);
  }

  lemma {:induction false} SqueezedItems(vs: seq<Value>)
    ensures Squeeze(Join(PrintItems(vs), ", ")) == Squeeze(Join(CompactItems(vs), ","))
    decreases vs
  {
    hide Squeeze, PrintValue, CompactValue;
    BackslashIsNoSpace();
    if |vs| > 0 {
      SqueezedValue(vs[0]);
      SqueezedItems(vs[1..]);
      CommaAndSpace(PrintValue(vs[0]), Join(PrintItems(vs[1..]), ", "));
      SqueezeBetween(CompactValue(vs[0]), ',', Join(CompactItems(vs[1..]), ","));
    }
  }

  lemma {:induction false} SqueezedElement(e: Element)
    ensures Squeeze(PrintElement(e)) == Squeeze(CompactElement(e))
    decreases e
  {
    hide Squeeze, PrintValue, CompactValue;
    BackslashIsNoSpace();
    var k := "\"" + e.key + "\"";
    match e.value {
      case Some(v) =>
        SqueezedValue(v);
        CommaAndSpace(k, PrintValue(v));
        SqueezeBetween(k, ':', CompactValue(v));
      case None =>
        CommaAndSpace(k, "\"null\"");
        SqueezeBetween(k, ':', "\"null\"");
    }
  }

  lemma {:induction false} SqueezedElements(es: seq<Element>)
    ensures Squeeze(Join(PrintElements(es), ", ")) == Squeeze(Body(es))
    decreases es
  {
    hide Squeeze, PrintElement, CompactElement;
    BackslashIsNoSpace();
    if |es| > 0 {
      SqueezedElement(es[0]);
      SqueezedElements(es[1..]);
      CommaAndSpace(PrintElement(es[0]), Join(PrintElements(es[1..]), ", "));
      SqueezeBetween(CompactElement(es[0]), ',', Body(es[1..]));
    }
  }

  // ----- the parts of a text that agrees with the pieces but for white space -----

  lemma {:induction false} SqueezedAlign(ps: seq<string>, r: string) returns (front: seq<string>, last: string)
    requires |ps| > 0 && Agree(Squeeze(r), Join(ps, ",")) && Commas(r) <= Commas(Join(ps, ","))
    requires FewerCommas(ps, Parts(r))
    ensures Parts(r) == front + [last] && SqueezeAll(front) == ButLast(ps) && LeadCloses(front + [last])
    ensures r == Lead(front + [last]) + last && Squeeze(Lead(front + [last])) == Lead(ps)
    ensures Agree(Squeeze(last), Last(ps))
  {
    hide Commas, FindIn, Closed, Agree, Parts, Join, Lead, Squeeze, IsSpace;
    JoinAndLead(ps);
    if |ps| == 1 {
      front, last := [], r;
      OnlyPart(r, ps[0]);
      assert Parts(r) == [r];
      assert [] + [r] == [r];
      JoinAndLead([r]);
      SqueezeNothing();
      assert "" + r == r;
    } else {
      var rest := MoreParts(r);
      var p := Parts(r)[0];
      assert Parts(r)[1..] == Parts(rest);
      SameCommas(ps, r, p, rest);
      BackslashIsNoSpace();
      SqueezeBetween(p, ',', rest);
      SqueezeCommas(p);
      FirstPart(Squeeze(p), Squeeze(rest), ps[0], Join(ps[1..], ","));
      DelimiterAfter(p, rest);
      var tail;
      tail, last := SqueezedAlign(ps[1..], rest);
      front := [p] + tail;
      MoreAligned(p, tail, last, ps);
    }
  }

  lemma MoreAligned(p: string, tail: seq<string>, last: string, ps: seq<string>)
    requires |ps| > 1 && Squeeze(p) == ps[0] && SqueezeAll(tail) == ButLast(ps[1..]) && Closed(p)
    requires LeadCloses(tail + [last]) && Squeeze(Lead(tail + [last])) == Lead(ps[1..])
    ensures ([p] + tail) + [last] == [p] + (tail + [last])
    ensures SqueezeAll([p] + tail) == ButLast(ps) && LeadCloses([p] + tail + [last])
    ensures p + "," + (Lead(tail + [last]) + last) == Lead([p] + tail + [last]) + last
    ensures Squeeze(Lead([p] + tail + [last])) == Lead(ps)
  {
    hide Squeeze, Closed, IsSpace;
    var all := [p] + tail + [last];
    assert all == [p] + (tail + [last]) && all[1..] == tail + [last];
    assert ([p] + tail)[1..] == tail;
    assert ButLast(ps) == [ps[0]] + ButLast(ps[1..]);
    var lead := Lead(tail + [last]);
    assert p + "," + (lead + last) == p + "," + lead + last;
    BackslashIsNoSpace();
    SqueezeBetween(p, ',', lead);
  }

  lemma FirstColon(a: string, r: string, b: string, n: string)
    requires ColonFree(a) && ColonFree(b) && Agree(a + ":" + r, b + ":" + n)
    ensures a == b && Agree(r, n)
  {
    NoShorter(a, r, b, n);
    NoShorter(b, n, a, r);
    var s, t := a + ":" + r, b + ":" + n;
    forall i | 0 <= i < |a|
      ensures a[i] == b[i]
    {
      assert s[i] == t[i];
    }
    forall i | 0 <= i < |r| && i < |n|
      ensures r[i] == n[i]
    {
      assert s[|a| + 1 + i] == t[|a| + 1 + i];
    }
  }

  lemma NoShorter(a: string, r: string, b: string, n: string)
    requires ColonFree(b) && Agree(a + ":" + r, b + ":" + n)
    ensures |a| >= |b|
  {
    assert (a + ":" + r)[|a|] == ':';
  }

  /** A text that agrees with an element but for white space, and parses to it: its value is read after the key. */
  lemma KeyIsSqueezed(e: Element, p: string) returns (q: string, w: string)
    requires e.value.Some? && ParseElement(p) == e && Agree(Squeeze(p), Squeeze(CompactElement(e)))
    ensures p == q + w && ParseValue(w) == e.value
    ensures Squeeze(CompactElement(e)) == Squeeze(q) + Squeeze(CompactValue(e.value.value))
  {
    hide ParseValue, ParseKey, ParseElement, Squeeze, CompactValue, IsSpace, Agree;
    ParsedElement(p);
    BackslashIsNoSpace();
    var pos := IndexOf(p, ':').value;
    var a, k := p[..pos], "\"" + e.key + "\"";
    q, w := a + ":", p[pos + 1..];
    assert p == a + [':'] + w;
    KeyLength(a);
    SqueezeColons(a);
    SqueezeBetween(a, ':', w);
    SqueezeBetween(k, ':', CompactValue(e.value.value));
    SqueezeAround('"', e.key, '"');
    SqueezeColons(e.key);
    FirstColon(Squeeze(a), Squeeze(w), Squeeze(k), Squeeze(CompactValue(e.value.value)));
    SqueezeConcat(a, ":");
    SqueezeOne(':');
  }
}

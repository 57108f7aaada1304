/** Reading texts that stand for known elements: their parts, their braces, and where they may be cut. */
module JsonReading {
  import opened Wrappers
  import opened JsonText
  import opened JsonNormal
  import opened Json
  import opened JsonTheorems
  import opened JsonCommas

  /** `k` closing braces. */
  function Closers(k: nat): (s: string)
    ensures |s| == k
  {
    seq(k, _ => '}')
  }

  /** The text of an object between its braces. */
  function Body(es: seq<Element>): string {
    Join(CompactElements(es), ",")
  }

  lemma {:induction false} IndexFirst(s: string, c: char)
    ensures IndexOf(s, c).Some? ==> forall i :: 0 <= i < IndexOf(s, c).value ==> s[i] != c
    ensures IndexOf(s, c).None? ==> forall i :: 0 <= i < |s| ==> s[i] != c
  {
    if s != "" {
      IndexFirst(s[1..], c);
    }
  }

  lemma KeyLength(text: string)
    ensures |ParseKey(text)| == |text| - 2 || ParseKey(text) == text || (text == "\"" && ParseKey(text) == "")
    ensures ColonFree(text) ==> ColonFree(ParseKey(text))
  {
  }

  lemma ParsedElement(p: string)
    requires ParseElement(p).value.Some?
    ensures var pos := IndexOf(p, ':');
      pos.Some? && ColonFree(p[..pos.value]) && ParseElement(p).key == ParseKey(p[..pos.value])
      && ParseElement(p).value == ParseValue(p[pos.value + 1..])
  {
    hide ParseValue;
    IndexFirst(p, ':');
  }

  lemma {:induction false} BracesConcat(s: string, t: string, n: int)
    ensures Braces(s + t, n) == Braces(t, Braces(s, n))
    ensures StaysOpen(s + t, n) <==> StaysOpen(s, n) && StaysOpen(t, Braces(s, n))
  {
    if s == "" {
      assert s + t == t;
    } else {
      assert (s + t)[1..] == s[1..] + t;
      BracesConcat(s[1..], t, Count(s[0], n));
    }
  }

  lemma {:induction false} BracesShift(s: string, m: int, n: int)
    ensures Braces(s, m + n) == Braces(s, m) + n
  {
    if s != "" {
      BracesShift(s[1..], Count(s[0], m), n);
    }
  }

  /** From one open brace, what comes after a text that stays open brings at least as many below one. */
  lemma BracesOfRest(q: string, w: string)
    requires StaysOpen(q + w, 1)
    ensures Braces(w, 0) <= Braces(q + w, 1) - 1
  {
    BracesConcat(q, w, 1);
    StaysOpenEnd(q, 1);
    BracesShift(w, 0, Braces(q, 1));
  }

  lemma ClosedBraces(s: string)
    requires Closed(s)
    ensures Braces(s, 0) == 0
  {
    ScanCountsBraces(s, 0, 0);
    BracesShift(s, 0, 1);
  }

  lemma {:induction false} LeadBraces(ps: seq<string>)
    requires LeadCloses(ps)
    ensures Braces(Lead(ps), 0) == 0
  {
    hide Closed;
    if |ps| > 1 {
      ClosedBraces(ps[0]);
      LeadBraces(ps[1..]);
      BracesConcat(ps[0], ",", 0);
      BracesConcat(ps[0] + ",", Lead(ps[1..]), 0);
      CommaBraces();
    }
  }

  lemma CommaBraces()
    ensures Braces(",", 0) == 0
  {
    assert ","[1..] == "";
  }

  /** A prefix that ends where the last open brace closes. */
  predicate CutFrom(r: string, s: string, open: int) {
    |r| < |s| && r == s[..|r|] && s[|r|] == '}' && StaysOpen(r, open) && Braces(r, open) == 1
  }

  lemma RestHead(s: string, st: Reader)
    requires s != "" && s[0] != '\0'
    ensures Stops(s[0], st) ==> Rest(s, st) == ""
    ensures !Stops(s[0], st) && Keeps(s[0], st) ==> Rest(s, st) == [s[0]] + Rest(s[1..], Next(s[0], st))
    ensures !Stops(s[0], st) && !Keeps(s[0], st) ==> Rest(s, st) == Rest(s[1..], Next(s[0], st))
  {
    hide Stops, Keeps, Next;
  }

  lemma CutHere(s: string, open: int)
    requires s != "" && s[0] == '}' && open == 1
    ensures CutFrom("", s, open)
  {
  }

  lemma CutLater(s: string, rest: string, open: int)
    requires s != "" && Count(s[0], open) > 0 && CutFrom(rest, s[1..], Count(s[0], open))
    ensures CutFrom([s[0]] + rest, s, open)
  {
    assert ([s[0]] + rest)[1..] == rest;
    assert s[..|rest| + 1] == [s[0]] + s[1..][..|rest|];
  }

  /** After the first brace was dropped, a text that closes early is cut there; white space aside. */
  lemma {:induction false} RestCut(s: string, t: string, st: Reader)
    requires NulFree(s) && st.removed && st.open >= 1 && !StaysOpen(s, st.open)
    ensures CutFrom(Rest(s + t, st), Strip(s, st.quoted), st.open)
  {
    hide IsSpace, Next, Keeps, Stops, CutFrom, Rest;
    SpaceIsPlain(s[0]);
    NextInside(s[0], st);
    assert (s + t)[1..] == s[1..] + t;
    RestHead(s + t, st);
    if Stops(s[0], st) {
      CutHere(Strip(s, st.quoted), st.open);
    } else {
      RestCut(s[1..], t, Next(s[0], st));
      if Keeps(s[0], st) {
        var full := Strip(s, st.quoted);
        assert full[1..] == Strip(s[1..], Toggle(s[0], st.quoted));
        CutLater(full, Rest(s[1..] + t, Next(s[0], st)), st.open);
      }
    }
  }

  lemma FirstBraceDropped(s: string)
    ensures Normalize("{" + s) == Rest(s, Reader(false, true, 1, true))
  {
    hide IsSpace;
    assert ("{" + s)[1..] == s;
  }

  predicate ElementsRead(parts: seq<string>, es: seq<Element>) {
    |parts| == |es| && (|es| == 0 || (ParseElement(parts[0]) == es[0] && ElementsRead(parts[1..], es[1..])))
  }

  lemma {:induction false} ReadElements(parts: seq<string>, es: seq<Element>, bound: nat)
    requires forall p :: p in parts ==> |p| <= bound
    ensures ParseElements(parts, bound) == es <==> ElementsRead(parts, es)
    ensures ElementsRead(parts, es) ==> FewerCommas(CompactElements(es), parts)
  {
    hide ParseElement, CompactElement, Commas;
    if |parts| > 0 && |es| > 0 {
      ElementCommas(parts[0]);
      ReadElements(parts[1..], es[1..], bound);
      var head, rest := ParseElement(parts[0]), ParseElements(parts[1..], bound);
      assert [head] + rest == es <==> head == es[0] && rest == es[1..];
    }
  }

  predicate ItemsRead(parts: seq<string>, vs: seq<Value>) {
    |parts| == |vs| && (|vs| == 0 || (ParseItem(parts[0]) == Some(vs[0]) && ItemsRead(parts[1..], vs[1..])))
  }

  lemma {:induction false} ItemsReadBack(parts: seq<string>, vs: seq<Value>, bound: nat)
    requires forall p :: p in parts ==> |p| <= bound
    requires ItemsRead(parts, vs)
    ensures ParseItems(parts, bound) == vs
    ensures FewerCommas(CompactItems(vs), parts)
  {
    hide ParseItem, CompactValue, Commas;
    if |parts| > 0 {
      ItemCommas(parts[0]);
      ItemsReadBack(parts[1..], vs[1..], bound);
    }
  }

  /** When as many items are kept as there are parts, every part gave its item. */
  lemma {:induction false} NoneDropped(parts: seq<string>, vs: seq<Value>, bound: nat)
    requires forall p :: p in parts ==> |p| <= bound
    requires ParseItems(parts, bound) == vs && |parts| == |vs|
    ensures ItemsRead(parts, vs)
  {
    hide ParseItem, CompactValue, Commas, CommasIn;
    if |parts| > 0 {
      var rest := ParseItems(parts[1..], bound);
      ItemsCommas(parts[1..], bound);
      var v := ParseItem(parts[0]);
      assert vs == Kept(v) + rest;
      assert vs[1..] == rest;
      NoneDropped(parts[1..], vs[1..], bound);
    }
  }

  lemma {:induction false} LastElement(es: seq<Element>, parts: seq<string>)
    requires |es| > 0 && ElementsRead(parts, es)
    ensures ParseElement(Last(parts)) == es[|es| - 1]
  {
    hide ParseElement;
    if |es| > 1 {
      LastElement(es[1..], parts[1..]);
    }
  }

  lemma {:induction false} LastItem(vs: seq<Value>, parts: seq<string>)
    requires |vs| > 0 && ItemsRead(parts, vs)
    ensures ParseItem(Last(parts)) == Some(vs[|vs| - 1])
  {
    hide ParseItem;
    if |vs| > 1 {
      LastItem(vs[1..], parts[1..]);
    }
  }

  /**
   * `w` is `c` without its end, which begins with a closing brace or bracket; its braces do not open
   * more than they close.
   */
  predicate CutShort(w: string, c: string) {
    |w| < |c| && w == c[..|w|] && (c[|w|] == '}' || c[|w|] == ']') && Braces(w, 0) <= 0
  }

  lemma CutNeedsElements(es: seq<Element>, r: string)
    requires CutFrom(r, Body(es), 1)
    ensures |es| > 0
  {
  }

  /** The end of a cut text, where the last piece is cut too. */
  lemma LastIsCut(q: string, last: string, piece: string, n: string)
    requires n == q + piece && |q + last| < |n| && q + last == n[..|q + last|]
    ensures |last| < |piece| && last == piece[..|last|] && piece[|last|] == n[|q + last|]
  {
    assert n[..|q + last|] == q + piece[..|last|];
    assert (q + last)[|q|..] == last && (q + piece[..|last|])[|q|..] == piece[..|last|];
  }

  lemma ItemIsValue(item: string)
    ensures ParseItem(item).Some? ==> ParseValue(item) == ParseItem(item)
  {
    hide ParseObject, ParseItems, Parts;
  }

  lemma BracketBraces(n: int)
    ensures Braces("[", n) == n && Braces("]", n) == n
  {
    assert "["[1..] == "" && "]"[1..] == "";
  }

  lemma PrefixAgrees(r: string, n: string)
    requires |r| <= |n| && r == n[..|r|]
    ensures Agree(r, n) && Commas(r) <= Commas(n)
  {
    hide Commas;
    assert n == r + n[|r|..];
    CommasConcat(r, n[|r|..]);
  }

  lemma ItemReads(v: Value, w: string)
    ensures ParseItem(w) == Some(v) <==> !v.VectorValue? && ParseValue(w) == Some(v)
  {
    hide ParseObject, ParseItems, Parts;
  }

  lemma {:induction false} NoDelimiterIn(s: string, lp: nat, lb: nat)
    requires forall i :: 0 <= i < |s| ==> s[i] != ','
    ensures FindIn(s, lp, lb) == None
  {
    if s != "" && !(s[0] == '}' && lp == 0) && !(s[0] == ']' && lb == 0) {
      NoDelimiterIn(s[1..], AfterBrace(s[0], lp), AfterBracket(s[0], lb));
    }
  }

  /** Closing braces behind a text neither add nor hide a delimiter. */
  lemma DelimiterBeforeClosers(s: string, k: nat)
    ensures FindIn(s + Closers(k), 0, 0) == None <==> FindIn(s, 0, 0) == None
  {
    FindAfter(s, "", 0, 0);
    assert s + "" == s;
    FindAfter(s, Closers(k), 0, 0);
    if Scan(s, 0, 0).Through? {
      var o := Scan(s, 0, 0);
      NoDelimiterIn(Closers(k), o.lp, o.lb);
    }
  }

  lemma NoClosers(s: string)
    ensures s + Closers(0) == s
  {
  }

  lemma ClosersHaveNoCommas(s: string, k: nat)
    ensures Agree(s + Closers(k), s) && Commas(s + Closers(k)) == Commas(s)
  {
    hide Commas;
    CommasConcat(s, Closers(k));
    CommaFree(Closers(k));
  }
}

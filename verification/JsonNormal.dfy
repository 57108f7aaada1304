/** The normaliser of the JSON reader: white space outside strings and the outer braces go. */
module JsonNormal {
  predicate IsSpace(c: char) {
    c == ' ' || c == '\t' || c == '\n' || c == 11 as char || c == 12 as char || c == '\r'
  }

  predicate NulFree(s: string) {
    forall k :: 0 <= k < |s| ==> s[k] != '\0'
  }

  function Count(c: char, n: int): int {
    if c == '{' then n + 1 else if c == '}' then n - 1 else n
  }

  /**
   * The normaliser between two characters: `quoted` says whether a string is open, `removed`
   * whether a first brace was dropped, `open` how many braces are open, `blank` whether
   * nothing has been kept yet.
   */
  datatype Reader = Reader(quoted: bool, removed: bool, open: int, blank: bool)

  predicate Drops(c: char, st: Reader) {
    c == '{' && st.open == 0 && st.blank
  }

  predicate Stops(c: char, st: Reader) {
    c == '}' && st.open == 1 && st.removed
  }

  predicate Keeps(c: char, st: Reader) {
    !Drops(c, st) && (st.quoted || !IsSpace(c))
  }

  function Toggle(c: char, q: bool): bool {
    if c == '"' then !q else q
  }

  function Next(c: char, st: Reader): Reader {
    if Drops(c, st) then st.(removed := true, open := 1)
    else Reader(Toggle(c, st.quoted), st.removed, Count(c, st.open), st.blank && !Keeps(c, st))
  }

  function Emit(c: char, kept: bool, rest: string): string {
    if kept then [c] + rest else rest
  }

  /** What is still appended while `s` is read. */
  function Rest(s: string, st: Reader): (r: string)
    ensures |r| <= |s|
  {
    if s == "" || s[0] == '\0' || Stops(s[0], st) then ""
    else Emit(s[0], Keeps(s[0], st), Rest(s[1..], Next(s[0], st)))
  }

  const START := Reader(false, false, 0, true)

  function Normalize(s: string): (r: string)
    ensures |r| <= |s|
  {
    Rest(s, START)
  }

  lemma RestStep(out: string, s: string, i: nat, st: Reader)
    requires i < |s| && s[i] != '\0'
    ensures Stops(s[i], st) ==> out + Rest(s[i..], st) == out
    ensures !Stops(s[i], st) ==>
      out + Rest(s[i..], st) == (if Keeps(s[i], st) then out + [s[i]] else out) + Rest(s[i + 1..], Next(s[i], st))
  {
    hide Stops, Keeps, Next;
    assert s[i..][1..] == s[i + 1..];
  }

  method NormalizeString(message: string) returns (normalized: string)
    ensures normalized == Normalize(message)
  {
    hide IsSpace, Rest;
    normalized := "";
    var inString := false;
    var lpRemoved := false;
    var numberOfLp := 0;
    var i := 0;
    while i < |message| && message[i] != '\0'
      invariant 0 <= i <= |message|
      invariant normalized + Rest(message[i..], Reader(inString, lpRemoved, numberOfLp, normalized == ""))
                == Normalize(message)
    {
      var currChar := message[i];
      RestStep(normalized, message, i, Reader(inString, lpRemoved, numberOfLp, normalized == ""));
      i := i + 1;
      if currChar == '{' {
        numberOfLp := numberOfLp + 1;
        if numberOfLp == 1 && |normalized| == 0 {
          lpRemoved := true;
          continue;
        }
      }
      if currChar == '}' {
        numberOfLp := numberOfLp - 1;
        if numberOfLp == 0 && lpRemoved {
          return;
        }
      }
      if !inString {
        if !IsSpace(currChar) {
          normalized := normalized + [currChar];
        }
      } else {
        normalized := normalized + [currChar];
      }
      if currChar == '"' {
        inString := !inString;
      }
    }
    RestEnds(message, i, Reader(inString, lpRemoved, numberOfLp, normalized == ""));
  }

  lemma RestEnds(s: string, i: nat, st: Reader)
    requires i == |s| || (i < |s| && s[i] == '\0')
    ensures Rest(s[i..], st) == ""
  {
  }

  // ----- white space -----

  /** White space outside strings removed, and nothing else. */
  function Strip(s: string, q: bool): (r: string)
    ensures |r| <= |s|
  {
    if s == "" then ""
    else Emit(s[0], q || !IsSpace(s[0]), Strip(s[1..], Toggle(s[0], q)))
  }

  /** Whether a string is open after `s`. */
  function Quoted(s: string, q: bool): bool {
    if s == "" then q else Quoted(s[1..], Toggle(s[0], q))
  }

  lemma SpaceIsPlain(c: char)
    ensures IsSpace(c) ==> c != '"' && c != '{' && c != '}' && c != '\0'
  {
  }

  lemma {:induction false} RestOfStripped(s: string, st: Reader)
    requires NulFree(s)
    ensures Rest(Strip(s, st.quoted), st) == Rest(s, st)
  {
    hide IsSpace;
    if s != "" {
      SpaceIsPlain(s[0]);
      RestOfStripped(s[1..], Next(s[0], st));
      if st.quoted || !IsSpace(s[0]) {
        assert Strip(s, st.quoted)[1..] == Strip(s[1..], Toggle(s[0], st.quoted));
      }
    }
  }

  /** Texts that differ only in white space outside strings are normalised alike. */
  lemma NormalizeIgnoresSpace(s: string, t: string)
    requires NulFree(s) && NulFree(t) && Strip(s, false) == Strip(t, false)
    ensures Normalize(s) == Normalize(t)
  {
    RestOfStripped(s, START);
    RestOfStripped(t, START);
  }

  // ----- idempotence -----

  /** Once something is kept and no brace was dropped, only white space goes. */
  lemma {:induction false} RestIsStrip(s: string, st: Reader)
    requires NulFree(s) && !st.removed && !st.blank
    ensures Rest(s, st) == Strip(s, st.quoted)
  {
    hide IsSpace;
    if s != "" {
      RestIsStrip(s[1..], Next(s[0], st));
    }
  }

  /** Nothing the normaliser keeps is white space outside strings, and nothing is a NUL. */
  lemma {:induction false} RestIsStripped(s: string, st: Reader)
    ensures Strip(Rest(s, st), st.quoted) == Rest(s, st)
    ensures NulFree(Rest(s, st))
    ensures !st.quoted && Rest(s, st) != "" ==> !IsSpace(Rest(s, st)[0])
  {
    hide IsSpace;
    if s != "" && s[0] != '\0' && !Stops(s[0], st) {
      SpaceIsPlain(s[0]);
      RestIsStripped(s[1..], Next(s[0], st));
      if Keeps(s[0], st) {
        assert Rest(s, st)[1..] == Rest(s[1..], Next(s[0], st));
      }
    }
  }

  /** A second normalisation changes nothing exactly when the first left no brace in front. */
  lemma NormalizeIdempotent(s: string)
    ensures Normalize(Normalize(s)) == Normalize(s) <==> !(['{'] <= Normalize(s))
  {
    hide IsSpace;
    var r := Normalize(s);
    RestIsStripped(s, START);
    if r != "" {
      var st := Next(r[0], START);
      if r[0] == '{' {
        assert |Normalize(r)| < |r|;
      } else {
        RestIsStrip(r[1..], st);
        assert Normalize(r) == Strip(r, false);
      }
    }
  }

  // ----- the outer braces -----

  /** The brace count of `s` from `n` on never falls to zero or below. */
  predicate StaysOpen(s: string, n: int) {
    if s == "" then true
    else Count(s[0], n) > 0 && StaysOpen(s[1..], Count(s[0], n))
  }

  function Braces(s: string, n: int): int {
    if s == "" then n else Braces(s[1..], Count(s[0], n))
  }

  /** The braces of `s` match: they would close neither before their opening nor later than `s`. */
  predicate Balanced(s: string) {
    StaysOpen(s, 1) && Braces(s, 1) == 1
  }

  /** The reader after `s`, once a brace was dropped and as long as it stays open. */
  function Inside(s: string, st: Reader): Reader {
    Reader(Quoted(s, st.quoted), true, Braces(s, st.open), st.blank && Strip(s, st.quoted) == "")
  }

  lemma NextInside(c: char, st: Reader)
    requires st.removed && st.open >= 1
    ensures Keeps(c, st) <==> st.quoted || !IsSpace(c)
    ensures Next(c, st) == Reader(Toggle(c, st.quoted), true, Count(c, st.open), st.blank && !Keeps(c, st))
    ensures Stops(c, st) <==> Count(c, st.open) == 0
  {
  }

  lemma InsideStep(s: string, st: Reader)
    requires s != "" && st.removed && st.open >= 1
    ensures Inside(s[1..], Next(s[0], st)) == Inside(s, st)
  {
    hide IsSpace, Next, Keeps, Stops;
    NextInside(s[0], st);
  }

  lemma EmitConcat(c: char, kept: bool, r: string, t: string)
    ensures Emit(c, kept, r) + t == Emit(c, kept, r + t)
  {
    assert ([c] + r) + t == [c] + (r + t);
  }

  lemma {:induction false} RestInBraces(s: string, t: string, st: Reader)
    requires NulFree(s) && st.removed && st.open >= 1 && StaysOpen(s, st.open)
    ensures Rest(s + t, st) == Strip(s, st.quoted) + Rest(t, Inside(s, st))
  {
    hide IsSpace, Next, Keeps, Stops, Inside, Emit;
    if s == "" {
      assert s + t == t;
      InsideStart(st);
    } else {
      NextInside(s[0], st);
      InsideStep(s, st);
      assert (s + t)[1..] == s[1..] + t;
      RestInBraces(s[1..], t, Next(s[0], st));
      EmitConcat(s[0], Keeps(s[0], st), Strip(s[1..], Toggle(s[0], st.quoted)), Rest(t, Inside(s, st)));
    }
  }

  lemma InsideStart(st: Reader)
    requires st.removed
    ensures Inside("", st) == st
  {
  }

  /** After the first brace is dropped, an unmatched closing brace ends the text. */
  lemma {:induction false} RestCutShort(s: string, t: string, st: Reader)
    requires NulFree(s) && st.removed && st.open >= 1 && !StaysOpen(s, st.open)
    ensures var r := Rest(s + t, st); var full := Strip(s, st.quoted);
      |r| < |full| && r <= full && full[|r|] == '}'
  {
    hide IsSpace, Next, Keeps, Stops;
    SpaceIsPlain(s[0]);
    NextInside(s[0], st);
    assert (s + t)[1..] == s[1..] + t;
    if !Stops(s[0], st) {
      RestCutShort(s[1..], t, Next(s[0], st));
    }
  }

  /** A text that does not start with a brace only loses white space. */
  lemma BodyIsStripped(body: string)
    requires NulFree(body) && !(['{'] <= Strip(body, false))
    ensures Normalize(body) == Strip(body, false)
  {
    hide IsSpace;
    StripTwice(body, false);
    RestOfStripped(body, START);
    var t := Strip(body, false);
    if t != "" {
      RestIsStrip(t[1..], Next(t[0], START));
    }
  }

  lemma {:induction false} StripTwice(s: string, q: bool)
    ensures Strip(Strip(s, q), q) == Strip(s, q)
    ensures NulFree(s) ==> NulFree(Strip(s, q))
    ensures !q && Strip(s, q) != "" ==> !IsSpace(Strip(s, q)[0])
  {
    hide IsSpace;
    if s != "" {
      SpaceIsPlain(s[0]);
      StripTwice(s[1..], Toggle(s[0], q));
      if q || !IsSpace(s[0]) {
        assert Strip(s, q)[1..] == Strip(s[1..], Toggle(s[0], q));
      }
    }
  }

  /** What normalising an object's text leaves: the body, or a part of it up to a brace, or the body and a brace. */
  lemma OuterBraces(body: string, tail: string)
    requires NulFree(body) && NulFree(tail)
    ensures var r := Normalize("{" + body + "}" + tail); var full := Strip(body, false);
      && (Balanced(body) ==> r == full)
      && (!StaysOpen(body, 1) ==> |r| < |full| && r <= full && full[|r|] == '}')
      && (StaysOpen(body, 1) && !Balanced(body) ==> |full| < |r| && full + "}" <= r)
  {
    hide IsSpace;
    var close := "}" + tail;
    var s := "{" + body + "}" + tail;
    assert s[1..] == body + close;
    var st := Reader(false, true, 1, true);
    assert Normalize(s) == Rest(body + close, st);
    if StaysOpen(body, 1) {
      RestInBraces(body, close, st);
      StaysOpenEnd(body, 1);
      SpaceIsPlain('}');
      NextInside('}', Inside(body, st));
      assert close[0] == '}';
    } else {
      RestCutShort(body, close, st);
    }
  }

  /** Dropping the outer braces leaves the normalised body exactly when the braces of the body match. */
  lemma OuterBracesDropped(body: string, tail: string)
    requires NulFree(body) && NulFree(tail)
    requires !(['{'] <= Strip(body, false))
    ensures Normalize("{" + body + "}" + tail) == Normalize(body) <==> Balanced(body)
  {
    hide IsSpace, StaysOpen, Normalize;
    OuterBraces(body, tail);
    BodyIsStripped(body);
  }

  lemma {:induction false} StaysOpenEnd(s: string, n: int)
    requires StaysOpen(s, n) && n > 0
    ensures Braces(s, n) > 0
  {
    if s != "" {
      StaysOpenEnd(s[1..], Count(s[0], n));
    }
  }
}

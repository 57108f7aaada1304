/** The two text scanners of the JSON reader: the delimiter search and the normaliser. */
module JsonText {
  import opened Wrappers

  // ----- the search for the next delimiter -----

  /** The offset of the first comma outside all braces and brackets, unless a closing one comes unmatched before it. */
  function FindIn(s: string, lp: nat, lb: nat): (r: Option<nat>)
    ensures r.Some? ==> r.value < |s| && s[r.value] == ','
  {
    if s == "" then None
    else if s[0] == ',' && lp == 0 && lb == 0 then Some(0)
    else if (s[0] == '}' && lp == 0) || (s[0] == ']' && lb == 0) then None
    else
      match FindIn(s[1..], AfterBrace(s[0], lp), AfterBracket(s[0], lb))
      case Some(i) => Some(i + 1)
      case None => None
  }

  function AfterBrace(c: char, lp: nat): nat
    requires c == '}' ==> lp > 0
  {
    if c == '{' then lp + 1 else if c == '}' then lp - 1 else lp
  }

  function AfterBracket(c: char, lb: nat): nat
    requires c == ']' ==> lb > 0
  {
    if c == '[' then lb + 1 else if c == ']' then lb - 1 else lb
  }

  function Shift(r: Option<nat>, offset: nat): Option<nat> {
    match r
    case Some(i) => Some(i + offset)
    case None => None
  }

  /** `std::string::find_first_of`. */
  method FindFirstOf(data: string, targets: string, start: nat) returns (pos: Option<nat>)
    ensures pos.Some? ==> start <= pos.value < |data| && data[pos.value] in targets
    ensures pos.Some? ==> forall k :: start <= k < pos.value ==> data[k] !in targets
    ensures pos.None? ==> forall k :: start <= k < |data| ==> data[k] !in targets
  {
    var i := start;
    while i < |data|
      invariant start <= i
      invariant forall k :: start <= k < i && k < |data| ==> data[k] !in targets
    {
      if data[i] in targets {
        return Some(i);
      }
      i := i + 1;
    }
    return None;
  }

  predicate IsTarget(c: char) {
    c == '{' || c == '}' || c == '[' || c == ']' || c == ','
  }

  const TARGETS := "{}[],"

  lemma TargetsListed(c: char)
    ensures c in TARGETS <==> IsTarget(c)
  {
    assert TARGETS == ['{', '}', '[', ']', ','];
  }

  /** Where the next target stands, as the search wants it. */
  method NextTarget(data: string, start: nat) returns (pos: Option<nat>)
    ensures pos.Some? ==> start <= pos.value < |data| && IsTarget(data[pos.value])
    ensures forall k :: start <= k < (if pos.Some? then pos.value else |data|) ==> !IsTarget(data[k])
  {
    pos := FindFirstOf(data, TARGETS, start);
    forall c: char
      ensures c in TARGETS <==> IsTarget(c)
    {
      TargetsListed(c);
    }
  }

  /** Characters that are no targets do not matter to the search. */
  lemma {:induction false} SkipOthers(data: string, i: nat, j: nat, lp: nat, lb: nat)
    requires i <= j <= |data|
    requires forall k :: i <= k < j ==> !IsTarget(data[k])
    ensures FindIn(data[i..], lp, lb) == Shift(FindIn(data[j..], lp, lb), j - i)
    ensures Shift(FindIn(data[i..], lp, lb), i) == Shift(FindIn(data[j..], lp, lb), j)
    decreases j - i
  {
    hide FindIn, IsTarget;
    if i < j {
      SkipOthers(data, i + 1, j, lp, lb);
      SkipOther(data[i..], lp, lb);
      assert data[i..][1..] == data[i + 1..];
    }
  }

  lemma SkipOther(s: string, lp: nat, lb: nat)
    requires s != "" && !IsTarget(s[0])
    ensures FindIn(s, lp, lb) == Shift(FindIn(s[1..], lp, lb), 1)
  {
  }

  method FindJsonElementDelimeter(data: string, start: nat) returns (r: Option<nat>)
    ensures r == if start <= |data| then Shift(FindIn(data[start..], 0, 0), start) else None
  {
    hide FindIn, Shift, IsTarget;
    var lp: nat, lb: nat := 0, 0;
    var from := start;
    var pos := NextTarget(data, from);
    if start > |data| {
      return None;
    }
    ghost var answer := Shift(FindIn(data[start..], 0, 0), start);
    while pos.Some?
      invariant start <= from <= |data|
      invariant pos.Some? ==> from <= pos.value < |data| && IsTarget(data[pos.value])
      invariant forall k :: from <= k < (if pos.Some? then pos.value else |data|) ==> !IsTarget(data[k])
      invariant answer == Shift(FindIn(data[from..], lp, lb), from)
      decreases |data| - from
    {
      var p := pos.value;
      SkipOthers(data, from, p, lp, lb);
      FindStep(data, p, lp, lb);
      match data[p] {
        case '{' =>
          lp := lp + 1;
        case '}' =>
          if lp <= 0 {
            return None;
          }
          lp := lp - 1;
        case '[' =>
          lb := lb + 1;
        case ']' =>
          if lb <= 0 {
            return None;
          }
          lb := lb - 1;
        case _ =>
          if lp == 0 && lb == 0 {
            return pos;
          }
      }
      from := p + 1;
      pos := NextTarget(data, from);
    }
    SkipOthers(data, from, |data|, lp, lb);
    FindNothing(data, lp, lb);
    return None;
  }

  lemma FindNothing(data: string, lp: nat, lb: nat)
    ensures Shift(FindIn(data[|data|..], lp, lb), |data|) == None
  {
  }

  lemma FindStep(data: string, p: nat, lp: nat, lb: nat)
    requires p < |data|
    ensures var r := Shift(FindIn(data[p..], lp, lb), p);
      var rest := data[p + 1..];
      match data[p] {
        case '{' => r == Shift(FindIn(rest, lp + 1, lb), p + 1)
        case '}' => r == if lp == 0 then None else Shift(FindIn(rest, lp - 1, lb), p + 1)
        case '[' => r == Shift(FindIn(rest, lp, lb + 1), p + 1)
        case ']' => r == if lb == 0 then None else Shift(FindIn(rest, lp, lb - 1), p + 1)
        case ',' => IsTarget(',') && r == if lp == 0 && lb == 0 then Some(p) else Shift(FindIn(rest, lp, lb), p + 1)
        case _ => !IsTarget(data[p])
      }
  {
    assert data[p..][1..] == data[p + 1..];
  }

  // ----- splitting at top-level commas -----

  /** The pieces between the delimiters; an empty last piece is dropped. */
  function Parts(s: string): (ps: seq<string>)
    ensures forall p :: p in ps ==> |p| <= |s|
    decreases |s|
  {
    match FindIn(s, 0, 0)
    case Some(i) => [s[..i]] + Parts(s[i + 1..])
    case None => if |s| > 0 then [s] else []
  }

  /** The search runs through `s` and leaves both depths as they were. */
  ghost predicate Closed(s: string) {
    Scan(s, 0, 0) == Through(0, 0)
  }

  datatype Outcome = Found | Unmatched | Through(lp: nat, lb: nat)

  /** What the search does on `s`, from given depths. */
  ghost function Scan(s: string, lp: nat, lb: nat): Outcome {
    if s == "" then Through(lp, lb)
    else if s[0] == ',' && lp == 0 && lb == 0 then Found
    else if (s[0] == '}' && lp == 0) || (s[0] == ']' && lb == 0) then Unmatched
    else Scan(s[1..], AfterBrace(s[0], lp), AfterBracket(s[0], lb))
  }

  lemma {:induction false} ScanConcat(s: string, t: string, lp: nat, lb: nat)
    ensures Scan(s + t, lp, lb) == match Scan(s, lp, lb) {
        case Through(lp', lb') => Scan(t, lp', lb')
        case other => other
      }
  {
    if s == "" {
      assert s + t == t;
    } else {
      assert (s + t)[1..] == s[1..] + t;
      if !(s[0] == ',' && lp == 0 && lb == 0) && !(s[0] == '}' && lp == 0) && !(s[0] == ']' && lb == 0) {
        ScanConcat(s[1..], t, AfterBrace(s[0], lp), AfterBracket(s[0], lb));
      }
    }
  }

  lemma {:induction false} FindAfter(s: string, t: string, lp: nat, lb: nat)
    ensures Scan(s, lp, lb).Through? ==>
      var o := Scan(s, lp, lb); FindIn(s + t, lp, lb) == Shift(FindIn(t, o.lp, o.lb), |s|)
    ensures Scan(s, lp, lb).Unmatched? ==> FindIn(s + t, lp, lb) == None
    ensures Scan(s, lp, lb).Found? ==> FindIn(s + t, lp, lb).Some? && FindIn(s + t, lp, lb).value < |s|
  {
    if s == "" {
      assert s + t == t;
    } else {
      hide AfterBrace, AfterBracket;
      assert (s + t)[1..] == s[1..] + t;
      if !(s[0] == ',' && lp == 0 && lb == 0) && !(s[0] == '}' && lp == 0) && !(s[0] == ']' && lb == 0) {
        FindAfter(s[1..], t, AfterBrace(s[0], lp), AfterBracket(s[0], lb));
      }
    }
  }

  /** A comma right after `s` is the first delimiter exactly when `s` is closed. */
  lemma DelimiterAfter(s: string, t: string)
    ensures FindIn(s + "," + t, 0, 0) == Some(|s|) <==> Closed(s)
  {
    FindAfter(s, "," + t, 0, 0);
    assert s + "," + t == s + ("," + t);
    if Scan(s, 0, 0).Through? && Scan(s, 0, 0) != Through(0, 0) {
      var o := Scan(s, 0, 0);
      assert ("," + t)[0] == ',';
    }
  }

  /** The pieces with a separator between each two of them. */
  function Join(ps: seq<string>, separator: string): string {
    if |ps| == 0 then ""
    else if |ps| == 1 then ps[0]
    else ps[0] + separator + Join(ps[1..], separator)
  }

  lemma PartsOfTwo(p: string, rest: string)
    ensures Closed(p) ==> Parts(p + "," + rest) == [p] + Parts(rest)
    ensures !Closed(p) ==> Parts(p + "," + rest) == [] || Parts(p + "," + rest)[0] != p
  {
    hide Scan, FindIn;
    var s := p + "," + rest;
    DelimiterAfter(p, rest);
    assert s[|p| + 1..] == rest && s[..|p|] == p;
    if !Closed(p) && FindIn(s, 0, 0).Some? {
      assert Parts(s)[0] == s[..FindIn(s, 0, 0).value];
    }
  }

  /** All pieces but the last are closed, and the last is neither empty nor split. */
  ghost predicate Splittable(ps: seq<string>)
    requires |ps| >= 1
  {
    if |ps| == 1 then ps[0] != "" && FindIn(ps[0], 0, 0) == None
    else Closed(ps[0]) && Splittable(ps[1..])
  }

  /** Splitting undoes joining exactly when the pieces are splittable. */
  lemma {:induction false} PartsOfJoin(ps: seq<string>)
    requires |ps| >= 1
    ensures Parts(Join(ps, ",")) == ps <==> Splittable(ps)
  {
    hide Closed, FindIn;
    if |ps| > 1 {
      PartsOfJoin(ps[1..]);
      PartsOfTwo(ps[0], Join(ps[1..], ","));
      assert ps == [ps[0]] + ps[1..];
    }
  }
}

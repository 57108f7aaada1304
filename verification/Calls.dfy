/** Calls of two legs, and the main loop that admits, steps and removes them. */
module Calls {
  import opened Ints
  import opened Blocks
  import opened CallLegs

  const STEP_DURATION := 20
  const PORT: uint16 := 32514
  const ID_OFFSET := 0xffff / 2

  /** What chance and the tone generator give one leg of a call. */
  datatype Start = Start(eth: EthLine, timestamp: uint32, ssrc: uint32, seqNum: uint16, encoded: nat -> Payload)

  function StreamFrom(srcIp: uint32, dstIp: uint32, id: uint16, start: Start): Stream {
    Stream(start.eth, srcIp, PORT, dstIp, PORT, id, start.timestamp, start.ssrc, start.seqNum, 8, start.encoded)
  }

  class Call {
    const legs: seq<CallLeg>
    /** The milliseconds left. */
    var duration: uint32

    /** The milliseconds the call was created with. */
    ghost const total: uint32
    /** The milliseconds every leg was stepped. */
    ghost var elapsed: nat
    ghost const Repr: set<object>

    ghost predicate Valid()
      reads this, Repr
    {
      && this in Repr
      && (forall i :: 0 <= i < |legs| ==> legs[i].Repr <= Repr && this !in legs[i].Repr)
      && (forall i, j :: 0 <= i < j < |legs| ==> legs[i].Repr !! legs[j].Repr)
      && (forall i :: 0 <= i < |legs| ==> legs[i].Valid() && legs[i].elapsed == elapsed)
    }

    constructor Mirror(srcIp: uint32, dstIp: uint32, seconds: uint32, forth: Start, back: Start)
      ensures Valid() && fresh(Repr)
      ensures |legs| == 2
      ensures legs[0].stream == Stream(forth.eth, srcIp, 32514, dstIp, 32514, 1, forth.timestamp, forth.ssrc,
                                       forth.seqNum, 8, forth.encoded)
      ensures legs[1].stream == Stream(back.eth, dstIp, 32514, srcIp, 32514, 0x8000, back.timestamp, back.ssrc,
                                       back.seqNum, 8, back.encoded)
      ensures duration == total == seconds * 1000 % 0x1_0000_0000 && elapsed == 0
    {
      hide CallLeg.Valid;
      var id: uint16 := 1;
      var first := new CallLeg(StreamFrom(srcIp, dstIp, id, forth));
      id := id + ID_OFFSET;
      var second := new CallLeg(StreamFrom(dstIp, srcIp, id, back));
      legs := [first, second];
      duration := seconds * 1000 % 0x1_0000_0000;
      total := seconds * 1000 % 0x1_0000_0000;
      elapsed := 0;
      Repr := {this} + first.Repr + second.Repr;
    }

    /** Steps every leg by the step, or by what is left; the legs take sixteen bits of it. */
    method Step(stepDuration: uint32) returns (stillHasTime: bool)
      requires Valid()
      modifies Repr
      ensures Valid()
      ensures stillHasTime == (old(duration) >= stepDuration)
      ensures var step := if stillHasTime then stepDuration else old(duration);
        duration == old(duration) - step && elapsed == old(elapsed) + step % 0x1_0000
    {
      hide CallLeg.Valid;
      var step := stepDuration;
      stillHasTime := true;
      if duration < step {
        step := duration;
        stillHasTime := false;
      }
      ghost var before := elapsed;
      var legStep := step % 0x1_0000;
      for i := 0 to |legs|
        invariant duration == old(duration) && elapsed == before && this in Repr
        invariant forall j :: 0 <= j < |legs| ==> legs[j].Valid()
        invariant forall j :: 0 <= j < i ==> legs[j].elapsed == before + legStep
        invariant forall j :: i <= j < |legs| ==> legs[j].elapsed == before
      {
        legs[i].Step(legStep);
      }
      elapsed := before + legStep;
      duration := duration - step;
    }
  }

  /** Hands out two consecutive addresses for each call. */
  class MirrorCallFactory {
    var ipPool: uint32

    constructor (startIp: uint32)
      ensures ipPool == startIp
    {
      ipPool := startIp;
    }

    method CreateCall(seconds: uint32, forth: Start, back: Start) returns (call: Call)
      modifies this
      ensures ipPool == Wrap(Wrap(old(ipPool) + 1) + 1)
      ensures fresh(call.Repr) && call.Valid() && Joins(call, old(ipPool), Wrap(old(ipPool) + 1))
      ensures call.legs[0].stream.srcAddr == old(ipPool) && call.legs[1].stream.dstAddr == old(ipPool)
      ensures call.duration == call.total == seconds * 1000 % 0x1_0000_0000 && call.elapsed == 0
    {
      hide Call.Valid;
      var srcIp := ipPool;
      ipPool := Wrap(ipPool + 1);
      var dstIp := ipPool;
      ipPool := Wrap(ipPool + 1);
      call := new Call.Mirror(srcIp, dstIp, seconds, forth, back);
    }
  }

  /** Two legs between two addresses, one in each direction. */
  predicate Joins(call: Call, a: uint32, b: uint32) {
    && |call.legs| == 2
    && call.legs[0].stream.srcAddr == call.legs[1].stream.dstAddr == a
    && call.legs[0].stream.dstAddr == call.legs[1].stream.srcAddr == b
  }

  /** Thirty-two bit wrap-around. */
  function Wrap(x: nat): uint32 {
    x % 0x1_0000_0000
  }

  /** The first of the two addresses of call `k`. */
  function AddressOf(startIp: uint32, k: nat): uint32 {
    Wrap(startIp + 2 * k)
  }

  /** Two calls share an address exactly when a multiple of 2^31 calls lies between them. */
  lemma AddressesDiffer(startIp: uint32, j: nat, k: nat)
    requires j <= k
    ensures AddressOf(startIp, j) == AddressOf(startIp, k) <==> (k - j) % 0x8000_0000 == 0
    ensures AddressOf(startIp, j) != Wrap(AddressOf(startIp, k) + 1)
    ensures AddressOf(startIp, k) != Wrap(AddressOf(startIp, j) + 1)
  {
    hide Wrap;
    var x, d := startIp + 2 * j, k - j;
    assert startIp + 2 * k == x + 2 * d;
    SameWrap(x, 2 * d);
    HalfWrap(d);
    Neighbours(x, d);
  }

  lemma HalfWrap(d: nat)
    ensures Wrap(2 * d) == 2 * (d % 0x8000_0000)
  {
    var q, r := d / 0x8000_0000, d % 0x8000_0000;
    assert 2 * d == 0x1_0000_0000 * q + 2 * r;
  }

  lemma SameWrap(x: nat, d: nat)
    ensures Wrap(x) == Wrap(x + d) <==> Wrap(d) == 0
  {
    var q, r := x / 0x1_0000_0000, (x + d) / 0x1_0000_0000;
    assert x == 0x1_0000_0000 * q + Wrap(x) && x + d == 0x1_0000_0000 * r + Wrap(x + d);
    if Wrap(x) == Wrap(x + d) {
      assert d == 0x1_0000_0000 * (r - q);
    }
  }

  /** Addresses an even number apart never meet the next one's neighbour. */
  lemma Neighbours(x: nat, d: nat)
    ensures Wrap(x) != Wrap(Wrap(x + 2 * d) + 1) && Wrap(x + 2 * d) != Wrap(Wrap(x) + 1)
  {
    hide Wrap;
    WrapParity(x);
    WrapParity(x + 2 * d);
    WrapParity(Wrap(x) + 1);
    WrapParity(Wrap(x + 2 * d) + 1);
    NextParity(Wrap(x));
    NextParity(Wrap(x + 2 * d));
    EvenStep(x, d);
  }

  lemma WrapParity(x: nat)
    ensures Wrap(x) % 2 == x % 2
  {
    var q, w := x / 0x1_0000_0000, Wrap(x);
    hide Wrap;
    assert x == 2 * (0x8000_0000 * q) + w;
    EvenStep(w, 0x8000_0000 * q);
  }

  lemma NextParity(x: nat)
    ensures (x + 1) % 2 != x % 2
  {
  }

  lemma EvenStep(x: nat, d: nat)
    ensures (x + 2 * d) % 2 == x % 2
  {
  }

  lemma NextAddress(startIp: uint32, k: nat)
    ensures AddressOf(startIp, k + 1) == Wrap(Wrap(AddressOf(startIp, k) + 1) + 1)
  {
    hide Wrap;
    var x := startIp + 2 * k;
    assert startIp + 2 * (k + 1) == x + 1 + 1;
    WrapNext(x);
    WrapNext(x + 1);
  }

  lemma WrapNext(x: nat)
    ensures Wrap(Wrap(x) + 1) == Wrap(x + 1)
  {
    ModOfSum(x, 1);
  }

  // ----- the schedule, by ages -----

  /** One turn of the main loop, as the rest of the program decides it. */
  datatype Turn = Turn(shouldStart: bool, ellapsedMicros: nat, seconds: uint16, forth: Start, back: Start)

  /** An admitted call: its milliseconds, and the number of sweeps since. */
  datatype Entry = Entry(total: nat, age: nat)

  predicate IsAlive(e: Entry) {
    STEP_DURATION * e.age <= e.total
  }

  function AliveCount(book: seq<Entry>): nat {
    if |book| == 0 then 0 else (if IsAlive(book[0]) then 1 else 0) + AliveCount(book[1..])
  }

  predicate Sweeps(turn: Turn) {
    turn.ellapsedMicros > 20000
  }

  function Admit(book: seq<Entry>, turn: Turn, limit: nat): seq<Entry> {
    if turn.shouldStart && AliveCount(book) < limit then book + [Entry(1000 * turn.seconds, 0)] else book
  }

  function Older(book: seq<Entry>): (r: seq<Entry>)
    ensures |r| == |book|
  {
    seq(|book|, k requires 0 <= k < |book| => book[k].(age := book[k].age + 1))
  }

  function After(book: seq<Entry>, turn: Turn, limit: nat): seq<Entry> {
    if Sweeps(turn) then Older(Admit(book, turn, limit)) else Admit(book, turn, limit)
  }

  /** All calls ever admitted, in order. */
  function Book(turns: seq<Turn>, limit: nat): seq<Entry> {
    if |turns| == 0 then [] else After(Book(turns[..|turns| - 1], limit), turns[|turns| - 1], limit)
  }

  function SweepCount(turns: seq<Turn>): nat {
    if |turns| == 0 then 0 else SweepCount(turns[..|turns| - 1]) + (if Sweeps(turns[|turns| - 1]) then 1 else 0)
  }

  lemma {:induction false} AliveAppend(book: seq<Entry>, e: Entry)
    ensures AliveCount(book + [e]) == AliveCount(book) + (if IsAlive(e) then 1 else 0)
  {
    if |book| > 0 {
      assert (book + [e])[1..] == book[1..] + [e];
      AliveAppend(book[1..], e);
    }
  }

  lemma {:induction false} AliveShrinks(book: seq<Entry>)
    ensures AliveCount(Older(book)) <= AliveCount(book)
  {
    if |book| > 0 {
      assert Older(book)[1..] == Older(book[1..]);
      AliveShrinks(book[1..]);
    }
  }

  /** There are never more live calls than the limit. */
  lemma {:induction false} LiveWithinLimit(turns: seq<Turn>, limit: nat)
    ensures AliveCount(Book(turns, limit)) <= limit
  {
    if |turns| > 0 {
      var book, turn := Book(turns[..|turns| - 1], limit), turns[|turns| - 1];
      LiveWithinLimit(turns[..|turns| - 1], limit);
      AliveAppend(book, Entry(1000 * turn.seconds, 0));
      AliveShrinks(Admit(book, turn, limit));
    }
  }

  /** A call admitted at turn `i` has since then been swept once by every sweep. */
  lemma {:induction false} AgeIsSweepCount(turns: seq<Turn>, limit: nat, i: nat)
    requires i < |turns| && turns[i].shouldStart && AliveCount(Book(turns[..i], limit)) < limit
    ensures var k := |Book(turns[..i], limit)|;
      k < |Book(turns, limit)| && Book(turns, limit)[k] == Entry(1000 * turns[i].seconds, SweepCount(turns[i..]))
  {
    hide AliveCount, After;
    var n := |turns| - 1;
    var book := Book(turns[..n], limit);
    if i < n {
      var some := turns[..n];
      assert some[..i] == turns[..i] && some[i] == turns[i];
      AgeIsSweepCount(some, limit, i);
      assert turns[i..][..n - i] == some[i..];
      AgeGrows(book, turns[n], limit, |Book(turns[..i], limit)|);
    } else {
      assert turns[i..][..0] == [];
      AgeStarts(book, turns[n], limit);
    }
  }

  /** A turn's effect on a call already admitted: one more sweep if more than 20000 microseconds passed, else none. */
  lemma AgeGrows(book: seq<Entry>, turn: Turn, limit: nat, k: nat)
    requires k < |book|
    ensures k < |After(book, turn, limit)|
    ensures After(book, turn, limit)[k] == book[k].(age := book[k].age + if turn.ellapsedMicros > 20000 then 1 else 0)
  {
  }

  lemma AgeStarts(book: seq<Entry>, turn: Turn, limit: nat)
    requires turn.shouldStart && AliveCount(book) < limit
    ensures |book| < |After(book, turn, limit)|
    ensures After(book, turn, limit)[|book|] == Entry(1000 * turn.seconds, if turn.ellapsedMicros > 20000 then 1 else 0)
  {
  }

  /** Whether turn `i` is told to start a call and finds fewer live ones than the limit. */
  predicate Starts(turns: seq<Turn>, limit: nat, i: nat)
    requires i < |turns|
  {
    turns[i].shouldStart && AliveCount(Book(turns[..i], limit)) < limit
  }

  /** The number of turns among the first `n` that start a call. */
  function StartCount(turns: seq<Turn>, limit: nat, n: nat): nat
    requires n <= |turns|
  {
    if n == 0 then 0 else StartCount(turns, limit, n - 1) + if Starts(turns, limit, n - 1) then 1 else 0
  }

  /** Calls are created by exactly those turns, and by no other. */
  lemma {:induction false} OneCallPerStart(turns: seq<Turn>, limit: nat, n: nat)
    requires n <= |turns|
    ensures |Book(turns[..n], limit)| == StartCount(turns, limit, n)
  {
    hide AliveCount, Sweeps, Older;
    if n > 0 {
      OneCallPerStart(turns, limit, n - 1);
      assert turns[..n][..n - 1] == turns[..n - 1];
    }
  }

  /** A live call: no more sweeps of 20 ms than its time allows. */
  lemma {:induction false} AliveCountIs(book: seq<Entry>)
    ensures AliveCount(book) == |set k | 0 <= k < |book| && 20 * book[k].age <= book[k].total|
  {
    var alive := set k | 0 <= k < |book| && 20 * book[k].age <= book[k].total;
    if |book| == 0 {
      assert alive == {};
    } else {
      var n := |book| - 1;
      var before := set k | 0 <= k < n && 20 * book[..n][k].age <= book[..n][k].total;
      AliveCountIs(book[..n]);
      assert book == book[..n] + [book[n]];
      AliveAppend(book[..n], book[n]);
      assert alive == before + if IsAlive(book[n]) then {n} else {};
    }
  }

  // ----- the main loop -----

  ghost function AliveCalls(cs: seq<Call>, ages: seq<nat>): seq<Call>
    requires |ages| == |cs|
  {
    if |cs| == 0 then []
    else (if STEP_DURATION * ages[0] <= cs[0].total then [cs[0]] else []) + AliveCalls(cs[1..], ages[1..])
  }

  lemma {:induction false} AliveConcat(cs: seq<Call>, ages: seq<nat>, p: nat)
    requires |ages| == |cs| && p <= |cs|
    ensures AliveCalls(cs, ages) == AliveCalls(cs[..p], ages[..p]) + AliveCalls(cs[p..], ages[p..])
  {
    if p == 0 {
      assert cs[0..] == cs && ages[0..] == ages;
    } else {
      AliveConcat(cs[1..], ages[1..], p - 1);
      assert cs[..p][1..] == cs[1..][..p - 1] && ages[..p][1..] == ages[1..][..p - 1];
      assert cs[1..][p - 1..] == cs[p..] && ages[1..][p - 1..] == ages[p..];
    }
  }

  /** One more call, after the first `p`. */
  lemma AliveNext(cs: seq<Call>, ages: seq<nat>, p: nat)
    requires |ages| == |cs| && p < |cs|
    ensures var one := if STEP_DURATION * ages[p] <= cs[p].total then [cs[p]] else [];
      && AliveCalls(cs[..p + 1], ages[..p + 1]) == AliveCalls(cs[..p], ages[..p]) + one
      && AliveCalls(cs[p..], ages[p..]) == one + AliveCalls(cs[p + 1..], ages[p + 1..])
  {
    AliveConcat(cs[..p + 1], ages[..p + 1], p);
    assert cs[..p + 1][..p] == cs[..p] && ages[..p + 1][..p] == ages[..p];
    assert cs[..p + 1][p..] == [cs[p]] && ages[..p + 1][p..] == [ages[p]];
    assert cs[p..][1..] == cs[p + 1..] && ages[p..][1..] == ages[p + 1..];
  }

  /** One sweep more for call `p`. */
  lemma AliveBump(cs: seq<Call>, ages: seq<nat>, p: nat)
    requires |ages| == |cs| && p < |cs|
    ensures var older := ages[p := ages[p] + 1];
      var one := if STEP_DURATION * ages[p] <= cs[p].total then [cs[p]] else [];
      var one' := if STEP_DURATION * (ages[p] + 1) <= cs[p].total then [cs[p]] else [];
      var front, back := AliveCalls(cs[..p], ages[..p]), AliveCalls(cs[p + 1..], ages[p + 1..]);
      && AliveCalls(cs, ages) == front + one + back
      && AliveCalls(cs, older) == front + one' + back
      && AliveCalls(cs[..p + 1], older[..p + 1]) == front + one'
  {
    hide AliveCalls;
    var older := ages[p := ages[p] + 1];
    AliveConcat(cs, ages, p);
    AliveConcat(cs, older, p);
    AliveNext(cs, ages, p);
    AliveNext(cs, older, p);
    assert older[..p] == ages[..p] && older[p + 1..] == ages[p + 1..];
  }

  ghost function EntriesOf(cs: seq<Call>, ages: seq<nat>): (r: seq<Entry>)
    requires |ages| == |cs|
    ensures |r| == |cs|
  {
    seq(|cs|, k requires 0 <= k < |cs| => Entry(cs[k].total, ages[k]))
  }

  lemma {:induction false} AliveCallsCount(cs: seq<Call>, ages: seq<nat>)
    requires |ages| == |cs|
    ensures |AliveCalls(cs, ages)| == AliveCount(EntriesOf(cs, ages))
  {
    if |cs| > 0 {
      AliveCallsCount(cs[1..], ages[1..]);
      assert EntriesOf(cs, ages)[1..] == EntriesOf(cs[1..], ages[1..]);
    }
  }

  /** A call as its age wants it: stepped 20 ms by every sweep until nothing is left. */
  ghost predicate OfAge(c: Call, age: nat)
    reads c, c.Repr
  {
    && c.Valid() && c.total % STEP_DURATION == 0
    && c.elapsed == (if STEP_DURATION * age <= c.total then STEP_DURATION * age else c.total)
    && c.duration == c.total - c.elapsed
  }

  lemma NewOfAge(c: Call, seconds: uint16)
    requires c.Valid() && c.total == c.duration == seconds * 1000 % 0x1_0000_0000 && c.elapsed == 0
    ensures OfAge(c, 0) && c.total == 1000 * seconds && c in c.Repr
  {
    SelfOwned(c);
    hide Call.Valid;
    Milliseconds(seconds);
  }

  lemma Milliseconds(seconds: int)
    requires 0 <= seconds < 0x1_0000
    ensures seconds * 1000 % 0x1_0000_0000 == 1000 * seconds
    ensures 1000 * seconds % STEP_DURATION == 0
  {
    WholeSteps(50 * seconds);
  }

  lemma WholeSteps(n: int)
    ensures STEP_DURATION * n % STEP_DURATION == 0
  {
  }

  lemma SelfOwned(c: Call)
    requires c.Valid()
    ensures c in c.Repr
  {
  }

  lemma OutOfTime(c: Call, age: nat)
    requires OfAge(c, age) && STEP_DURATION * age > c.total
    ensures OfAge(c, age + 1)
  {
  }

  /** The step that the main loop gives a live call. */
  method StepCall(c: Call, ghost age: nat) returns (stepResult: bool)
    requires OfAge(c, age) && STEP_DURATION * age <= c.total
    modifies c.Repr
    ensures OfAge(c, age + 1) && stepResult == (STEP_DURATION * (age + 1) <= c.total)
  {
    hide Call.Valid;
    stepResult := c.Step(STEP_DURATION);
  }

  class Simulation {
    var calls: seq<Call>
    const factory: MirrorCallFactory
    const numberOfCalls: nat

    ghost const startIp: uint32
    /** All calls ever created, and how often they were swept since. */
    ghost var admitted: seq<Call>
    ghost var ages: seq<nat>
    ghost var Repr: set<object>

    ghost predicate Owns()
      reads this`Repr, this`admitted
    {
      && this in Repr && factory in Repr
      && (forall k :: 0 <= k < |admitted| ==> admitted[k] in admitted[k].Repr && admitted[k].Repr <= Repr)
      && (forall k :: 0 <= k < |admitted| ==> this !in admitted[k].Repr && factory !in admitted[k].Repr)
      && (forall j, k :: 0 <= j < k < |admitted| ==> admitted[j].Repr !! admitted[k].Repr)
    }

    /** Call `k` joins the k-th pair of addresses. */
    ghost predicate Addressed()
      reads this`admitted, factory
    {
      && (forall k :: 0 <= k < |admitted| ==>
            Joins(admitted[k], AddressOf(startIp, k), Wrap(AddressOf(startIp, k) + 1)))
      && factory.ipPool == AddressOf(startIp, |admitted|)
    }

    /** The live calls are those young enough, in the order of their creation. */
    ghost predicate Valid()
      reads this, Repr
    {
      && Owns() && Addressed() && |ages| == |admitted|
      && (forall k :: 0 <= k < |admitted| ==> OfAge(admitted[k], ages[k]))
      && calls == AliveCalls(admitted, ages)
    }

    ghost function Entries(): seq<Entry>
      requires |ages| == |admitted|
      reads this
    {
      EntriesOf(admitted, ages)
    }

    constructor (start: uint32, limit: nat)
      ensures Valid() && fresh(Repr) && Entries() == [] && numberOfCalls == limit && startIp == start
    {
      calls := [];
      factory := new MirrorCallFactory(start);
      numberOfCalls := limit;
      startIp := start;
      admitted, ages := [], [];
      new;
      Repr := {this, factory};
    }

    method Create(seconds: uint16, forth: Start, back: Start)
      requires Valid()
      modifies Repr
      ensures Valid() && fresh(Repr - old(Repr))
      ensures Entries() == old(Entries()) + [Entry(1000 * seconds, 0)]
    {
      hide OfAge, Joins, Call.Valid, AliveCalls, AddressOf;
      ghost var n := |admitted|;
      ghost var before := admitted;
      NextAddress(startIp, n);
      var call := factory.CreateCall(seconds, forth, back);
      NewOfAge(call, seconds);
      calls := calls + [call];
      admitted, ages := admitted + [call], ages + [0];
      Repr := Repr + call.Repr;
      AliveNext(admitted, ages, n);
      assert admitted[..n] == before && admitted[..n + 1] == admitted;
      assert ages[..n] == old(ages) && ages[..n + 1] == ages;
    }

    /** The number of live calls among the first `p`. */
    ghost function LiveBefore(p: nat): nat
      requires |ages| == |admitted| && p <= |admitted|
      reads this
    {
      |AliveCalls(admitted[..p], ages[..p])|
    }

    /** A sweep does nothing to removed calls; here they get their age. */
    ghost method SkipRemoved(p: nat) returns (q: nat)
      requires Valid() && p <= |admitted|
      modifies this`ages
      ensures Valid() && p <= q <= |admitted|
      ensures forall k :: 0 <= k < |ages| ==> ages[k] == old(ages)[k] + if p <= k < q then 1 else 0
      ensures LiveBefore(q) == old(LiveBefore(p))
      ensures if q == |admitted| then LiveBefore(q) == |calls| else STEP_DURATION * ages[q] <= admitted[q].total
      ensures q < |admitted| ==> LiveBefore(q) < |calls| && calls[LiveBefore(q)] == admitted[q]
    {
      hide AliveCalls, OfAge, Simulation.Addressed;
      q := p;
      while q < |admitted| && STEP_DURATION * ages[q] > admitted[q].total
        invariant Valid() && p <= q <= |admitted|
        invariant forall k :: 0 <= k < |ages| ==> ages[k] == old(ages)[k] + if p <= k < q then 1 else 0
        invariant LiveBefore(q) == old(LiveBefore(p))
      {
        AliveBump(admitted, ages, q);
        OutOfTime(admitted[q], ages[q]);
        ages := ages[q := ages[q] + 1];
        q := q + 1;
      }
      if q < |admitted| {
        AliveBump(admitted, ages, q);
      } else {
        assert admitted[..q] == admitted && ages[..q] == ages;
      }
    }

    /** The sweep at call `i`, which is the admitted call `p`: the place where it goes on. */
    method StepAt(i: nat, ghost p: nat) returns (next: nat)
      requires Valid() && p < |admitted| && STEP_DURATION * ages[p] <= admitted[p].total
      requires i == LiveBefore(p) && i < |calls| && calls[i] == admitted[p]
      modifies Repr
      ensures Valid() && Repr == old(Repr) && admitted == old(admitted)
      ensures ages == old(ages)[p := old(ages)[p] + 1] && next == LiveBefore(p + 1)
    {
      hide AliveCalls, OfAge, Simulation.Addressed;
      AliveBump(admitted, ages, p);
      var stepResult := StepCall(calls[i], ages[p]);
      var it := i;
      if stepResult == false {
        calls := calls[..it] + calls[it + 1..];
        it := it - 1;
      }
      next := it + 1;
      ages := ages[p := ages[p] + 1];
    }

    /** Steps every live call by 20 ms, and erases those that had less time left. */
    method Sweep()
      requires Valid()
      modifies Repr
      ensures Valid() && Repr == old(Repr) && admitted == old(admitted)
      ensures Entries() == Older(old(Entries()))
    {
      hide AliveCalls, OfAge, Simulation.Addressed, Simulation.Owns;
      var i := 0;
      assert this in Repr by {
        OwnsItself();
      }
      ghost var p := SkipRemoved(0);
      NoneBefore();
      while i < |calls|
        invariant Valid() && Repr == old(Repr) && admitted == old(admitted)
        invariant 0 <= p <= |admitted| && |ages| == |old(ages)| && i == LiveBefore(p)
        invariant p == |admitted| ==> i == |calls|
        invariant p < |admitted| ==> i < |calls| && calls[i] == admitted[p]
        invariant p < |admitted| ==> STEP_DURATION * ages[p] <= admitted[p].total
        invariant forall k :: 0 <= k < |ages| ==> ages[k] == old(ages)[k] + if k < p then 1 else 0
        decreases |admitted| - p
      {
        i := StepAt(i, p);
        p := SkipRemoved(p + 1);
      }
    }

    lemma OwnsItself()
      requires Owns()
      ensures this in Repr
    {
    }

    lemma NoneBefore()
      requires |ages| == |admitted|
      ensures LiveBefore(0) == 0
    {
    }

    /** One turn of the main loop. */
    method Iterate(turn: Turn)
      requires Valid()
      modifies Repr
      ensures Valid() && fresh(Repr - old(Repr))
      ensures Entries() == After(old(Entries()), turn, numberOfCalls)
    {
      hide OfAge, AliveCalls, AliveCount, Older;
      AliveCallsCount(admitted, ages);
      if turn.shouldStart && |calls| < numberOfCalls {
        Create(turn.seconds, turn.forth, turn.back);
      }
      if turn.ellapsedMicros > 20000 {
        Sweep();
      }
    }

    /** Call `k` is no longer among the live ones, exactly when more sweeps met it than its time allows. */
    lemma RemovedWhenOver(k: nat)
      requires Valid() && k < |admitted|
      ensures admitted[k] in calls <==> 20 * ages[k] <= admitted[k].total
    {
      hide OfAge, AliveCalls;
      AliveMembers(admitted, ages, k);
    }

    /** By then each leg has sent its packets, one for every 20 ms of the call, and no more. */
    lemma RemovedAfterLastPacket(k: nat, leg: nat)
      requires Valid() && k < |admitted| && admitted[k] !in calls && leg < |admitted[k].legs|
      ensures var l := admitted[k].legs[leg]; l.sent == Packets(l.stream, admitted[k].total / 20)
    {
      hide Packets, Simulation.Addressed, AliveCalls;
      RemovedWhenOver(k);
    }
  }

  lemma {:induction false} AliveMembers(cs: seq<Call>, ages: seq<nat>, k: nat)
    requires |ages| == |cs| && k < |cs|
    requires forall i, j :: 0 <= i < j < |cs| ==> cs[i] != cs[j]
    ensures cs[k] in AliveCalls(cs, ages) <==> STEP_DURATION * ages[k] <= cs[k].total
  {
    AliveFrom(cs[1..], ages[1..]);
    if k > 0 {
      AliveMembers(cs[1..], ages[1..], k - 1);
    }
  }

  lemma {:induction false} AliveFrom(cs: seq<Call>, ages: seq<nat>)
    requires |ages| == |cs|
    ensures forall c :: c in AliveCalls(cs, ages) ==> c in cs
  {
    if |cs| > 0 {
      AliveFrom(cs[1..], ages[1..]);
    }
  }

  /** The main loop for any number of turns: the live calls follow the schedule, within the limit. */
  method RunTurns(startIp: uint32, numberOfCalls: nat, turns: seq<Turn>) returns (simulation: Simulation)
    ensures simulation.Valid() && simulation.startIp == startIp
    ensures simulation.Entries() == Book(turns, numberOfCalls)
    ensures |simulation.calls| == AliveCount(Book(turns, numberOfCalls)) <= numberOfCalls
  {
    hide AliveCount, AliveCalls, After, OfAge, Simulation.Owns, Simulation.Addressed;
    simulation := new Simulation(startIp, numberOfCalls);
    for i := 0 to |turns|
      invariant simulation.Valid() && fresh(simulation.Repr)
      invariant simulation.numberOfCalls == numberOfCalls && simulation.startIp == startIp
      invariant simulation.Entries() == Book(turns[..i], numberOfCalls)
    {
      assert turns[..i + 1][..i] == turns[..i];
      simulation.Iterate(turns[i]);
    }
    assert turns[..|turns|] == turns;
    AliveCallsCount(simulation.admitted, simulation.ages);
    LiveWithinLimit(turns, numberOfCalls);
  }
}

/** The transmit quadrature mirror filter: its delay line and its two decimated outputs. */
module G722Qmf {
  import opened Ints
  import opened FixedPoint
  import opened G722Tables

  // ----- the filter as a convolution over the whole input -----

  /** The sample `k` places before the newest one; the input is preceded by silence. */
  function Past(x: seq<int16>, k: nat): int16 {
    if k < |x| then x[|x| - 1 - k] else 0
  }

  /** The last twenty-four samples, newest first. */
  function Line(x: seq<int16>): (line: seq<int16>)
    ensures |line| == 24
  {
    seq(24, k requires 0 <= k < 24 => Past(x, k))
  }

  /** The tap `i` of the phase that starts at tap `phase`. */
  function Tap(phase: nat, i: nat): (c: int16)
    requires phase < 2 && i < 12
  {
    COEF_QMF[2 * i + phase]
  }

  /** The sum of the first `n` products of the phase that starts at tap `phase`. */
  function TapSum(line: seq<int16>, phase: nat, n: nat): int
    requires |line| == 24 && phase < 2 && n <= 12
  {
    if n == 0 then 0
    else TapSum(line, phase, n - 1) + Times(Tap(phase, n - 1), line[2 * (n - 1) + phase])
  }

  /** One more product. */
  lemma NextTapSum(line: seq<int16>, phase: nat, n: nat)
    requires |line| == 24 && phase < 2 && n <= 12
    ensures n == 0 ==> TapSum(line, phase, n) == 0
    ensures n > 0 ==>
      TapSum(line, phase, n) == TapSum(line, phase, n - 1) + Times(Tap(phase, n - 1), line[2 * (n - 1) + phase])
  {
    hide Tap;
  }

  /** A component from the sum or difference of the two phases. */
  function Component(c: int): (x: int16) {
    Clamp(c / 0x8000, -16384, 16383)
  }

  function LowOutput(line: seq<int16>): (xl: int16)
    requires |line| == 24
  {
    Component(TapSum(line, 0, 12) + TapSum(line, 1, 12))
  }

  function HighOutput(line: seq<int16>): (xh: int16)
    requires |line| == 24
  {
    Component(TapSum(line, 0, 12) - TapSum(line, 1, 12))
  }

  // ----- no accumulator saturates -----

  function Abs(c: int): nat {
    if c < 0 then -c else c
  }

  function AbsTaps(phase: nat, n: nat): nat
    requires phase < 2 && n <= 12
  {
    if n == 0 then 0
    else
      AbsTaps(phase, n - 1) + Abs(Tap(phase, n - 1))
  }

  /** The sums of the first absolute taps of each phase. */
  const ABS_SUMS: seq<seq<nat>> := [
    [0, 6, 28, 52, 116, 536, 2438, 10190, 11800, 12524, 12836, 12942, 12964],
    [0, 22, 128, 440, 1164, 2774, 10526, 12428, 12848, 12912, 12936, 12958, 12964]
  ]

  lemma {:induction false} AbsTapsAre(phase: nat, n: nat)
    requires phase < 2 && n <= 12
    ensures AbsTaps(phase, n) == ABS_SUMS[phase][n]
  {
    hide Abs, Tap;
    if n > 0 {
      AbsTapsAre(phase, n - 1);
      if phase == 0 {
        EvenTap(n - 1);
      } else {
        OddTap(n - 1);
      }
    }
  }

  lemma EvenTap(n: nat)
    requires n < 12
    ensures Abs(Tap(0, n)) == ABS_SUMS[0][n + 1] - ABS_SUMS[0][n]
  {
  }

  lemma OddTap(n: nat)
    requires n < 12
    ensures Abs(Tap(1, n)) == ABS_SUMS[1][n + 1] - ABS_SUMS[1][n]
  {
  }

  lemma AbsTapTotals(phase: nat)
    requires phase < 2
    ensures AbsTaps(phase, 12) == 12964
  {
    hide AbsTaps;
    AbsTapsAre(phase, 12);
  }

  lemma {:induction false} AbsTapsGrow(phase: nat, m: nat, n: nat)
    requires phase < 2 && m <= n <= 12
    ensures AbsTaps(phase, m) <= AbsTaps(phase, n)
  {
    if m < n {
      AbsTapsGrow(phase, m, n - 1);
    }
  }

  /** What one phase can reach on 16-bit samples. */
  predicate InRange(sum: int) {
    -0x8000 * 12964 <= sum <= 0x8000 * 12964
  }

  /** Every partial sum of a phase is at most 12964 times the largest sample magnitude. */
  lemma {:induction false} TapSumBound(line: seq<int16>, phase: nat, n: nat)
    requires |line| == 24 && phase < 2 && n <= 12
    ensures -0x8000 * AbsTaps(phase, n) <= TapSum(line, phase, n) <= 0x8000 * AbsTaps(phase, n)
    ensures InRange(TapSum(line, phase, n))
  {
    if n > 0 {
      TapSumBound(line, phase, n - 1);
      var c := Tap(phase, n - 1);
      MulBound(c, Abs(c), line[2 * (n - 1) + phase], 0x8000);
    }
    AbsTapTotals(phase);
    AbsTapsGrow(phase, n, 12);
  }

  // ----- the delay line in place -----

  /** One more product joins a phase's sum without saturating. */
  lemma Accumulated(line: seq<int16>, phase: nat, i: nat)
    requires |line| == 24 && phase < 2 && i < 12
    ensures InRange(TapSum(line, phase, i)) && InRange(TapSum(line, phase, i + 1))
    ensures MultiplyAdd(TapSum(line, phase, i), COEF_QMF[2 * i + phase], line[2 * i + phase])
            == TapSum(line, phase, i + 1)
  {
    TapSumBound(line, phase, i);
    TapSumBound(line, phase, i + 1);
  }

  lemma FirstProduct(line: seq<int16>, phase: nat)
    requires |line| == 24 && phase < 2
    ensures TapSum(line, phase, 1) == Times(COEF_QMF[phase], line[phase])
    ensures InRange(TapSum(line, phase, 1))
  {
    assert TapSum(line, phase, 0) == 0;
    TapSumBound(line, phase, 1);
  }

  /** The two phases' sums over the delay line. */
  method Accumulate(delayx: array<int16>) returns (accuma: int32, accumb: int32)
    requires delayx.Length == 24
    ensures accuma == TapSum(delayx[..], 0, 12) && accumb == TapSum(delayx[..], 1, 12)
    ensures InRange(accuma) && InRange(accumb)
  {
    hide TapSum, MultiplyAdd;
    ghost var line := delayx[..];
    FirstProduct(line, 0);
    FirstProduct(line, 1);
    accuma := Times(COEF_QMF[0], delayx[0]);
    accumb := Times(COEF_QMF[1], delayx[1]);
    var i := 1;
    while i < 12
      invariant 1 <= i <= 12
      invariant accuma == TapSum(line, 0, i) && accumb == TapSum(line, 1, i)
      invariant InRange(accuma) && InRange(accumb)
    {
      Accumulated(line, 0, i);
      Accumulated(line, 1, i);
      accuma := MultiplyAdd(accuma, COEF_QMF[2 * i], delayx[2 * i]);
      accumb := MultiplyAdd(accumb, COEF_QMF[2 * i + 1], delayx[2 * i + 1]);
      i := i + 1;
    }
  }

  method QmfTx(delayx: array<int16>, xin0: int16, xin1: int16) returns (xl: int16, xh: int16)
    requires delayx.Length == 24
    modifies delayx
    ensures delayx[2..] == ([xin0, xin1] + old(delayx[2..]))[..22]
    ensures xl == LowOutput([xin0, xin1] + old(delayx[2..]))
    ensures xh == HighOutput([xin0, xin1] + old(delayx[2..]))
  {
    hide TapSum, SaturateAdd, SaturateSubtract, ShiftRight, Clamp15ToBits, Component;
    delayx[1] := xin1;
    delayx[0] := xin0;
    assert delayx[..] == [xin0, xin1] + old(delayx[2..]);
    var accuma, accumb := Accumulate(delayx);
    ShiftLine(delayx);
    Descaling(accuma, accumb);
    var compLow := SaturateAdd(accuma, accumb);
    compLow := SaturateAdd(compLow, compLow);
    var compHigh := SaturateSubtract(accuma, accumb);
    compHigh := SaturateAdd(compHigh, compHigh);
    xl := Clamp15ToBits(ShiftRight(compLow, 16));
    xh := Clamp15ToBits(ShiftRight(compHigh, 16));
  }

  /** The two components are exact: no sum, difference or doubling saturates. */
  lemma Descaling(a: int32, b: int32)
    requires InRange(a) && InRange(b)
    ensures Clamp15ToBits(ShiftRight(SaturateAdd(SaturateAdd(a, b), SaturateAdd(a, b)), 16)) == Component(a + b)
    ensures Clamp15ToBits(ShiftRight(SaturateAdd(SaturateSubtract(a, b), SaturateSubtract(a, b)), 16))
            == Component(a - b)
  {
    Doubled(a + b);
    Doubled(a - b);
  }

  lemma Doubled(c: int)
    requires -0x8000 * 25928 <= c <= 0x8000 * 25928
    ensures ShiftRight(SaturateAdd(c, c), 16) == c / 0x8000
  {
    Pow2Values();
    assert (c + c) / 0x1_0000 == c / 0x8000;
  }

  /** The descending copy that moves the delay line by two places. */
  method ShiftLine(delayx: array<int16>)
    requires delayx.Length == 24
    modifies delayx
    ensures delayx[2..] == old(delayx[..22])
  {
    var i := 0;
    while i < 22
      invariant 0 <= i <= 22
      invariant forall k :: 0 <= k < 24 - i ==> delayx[k] == old(delayx[k])
      invariant forall k :: 24 - i <= k < 24 ==> delayx[k] == old(delayx[k - 2])
    {
      delayx[23 - i] := delayx[21 - i];
      i := i + 1;
    }
  }

  // ----- the delay line over a run -----

  lemma LineAfterPair(x: seq<int16>, xin1: int16, xin0: int16)
    ensures Line(x + [xin1, xin0]) == [xin0, xin1] + Line(x)[..22]
  {
    var y := x + [xin1, xin0];
    assert forall k :: 2 <= k < 24 ==> Past(y, k) == Past(x, k - 2);
  }
}

/**
 * The sub-band coder over exact arithmetic: products are floor(x * y / 2^15) of
 * unbounded integers, and a clamp stands only where a limit may be reached.
 * In every state a run can reach, the fixed-point coder computes the same.
 */
module G722Reference {
  import opened Ints
  import opened FixedPoint
  import opened G722Tables
  import opened G722Quantizers
  import opened G722Bands

  // ----- what every run keeps -----

  /** The zero coefficients lie in an asymmetric range that their update never leaves. */
  predicate ZerosInRange(b: seq<int16>) {
    |b| == 7 && forall i :: 1 <= i < 7 ==> b[i] <= 32513
  }

  predicate DifferencesInRange(d: seq<int16>, limit: int) {
    |d| == 7 && forall i :: 0 <= i < 7 ==> -limit <= d[i] <= limit
  }

  const LOW_LIMIT := 10228
  const HIGH_LIMIT := 3704

  /** Holds from `ResetBand` on, whatever the slots that it leaves alone. */
  predicate LowTame(band: Band) {
    && band.Shaped() && ZerosInRange(band.b) && DifferencesInRange(band.d, LOW_LIMIT)
    && 0 <= band.nb <= NBL_MAX && 0 <= band.det <= 16384
  }

  predicate HighTame(band: Band) {
    && band.Shaped() && ZerosInRange(band.b) && DifferencesInRange(band.d, HIGH_LIMIT)
    && 0 <= band.nb <= NBH_MAX && 0 <= band.det <= 16384
  }

  /** Holds from the first sample pair on: the pole section is stable. */
  predicate PolesStable(band: Band) {
    |band.a| == 3 && Stable(band.a[1], band.a[2])
  }

  // ----- the exact predictor -----

  function Gradient(d0: int, di: int): int {
    if d0 == 0 then 0 else if (d0 < 0) == (di < 0) then 128 else -128
  }

  function ExactZero(d0: int16, di: int16, bi: int16): (r: int16)
    requires bi <= 32513
    ensures r <= 32513
  {
    Gradient(d0, di) + Mul15(bi, 32640)
  }

  function ExactZeros(d: seq<int16>, b: seq<int16>): (r: seq<int16>)
    requires |d| == 7 && ZerosInRange(b)
    ensures |r| == 7 && ZerosInRange(r)
  {
    seq(7, i requires 0 <= i < 7 => if i == 0 then b[0] else ExactZero(d[0], d[i], b[i]))
  }

  function ExactZeroSum(d: seq<int16>, b: seq<int16>, n: nat): int16
    requires |d| == |b| == 7 && n <= 6
  {
    if n == 0 then 0
    else Clamp(ExactZeroSum(d, b, n - 1) + Mul15(Times(2, d[7 - n]), b[7 - n]), MIN_16, MAX_16)
  }

  function ExactPole2(a1: int, a2: int, p0: int, p1: int, p2: int): (r: int16)
    ensures -12288 <= r <= 12288
  {
    var f := Clamp(4 * a1, MIN_16, MAX_16);
    var g := if (p0 < 0) == (p1 < 0) then Clamp(-f, MIN_16, MAX_16) else f;
    var h := if (p0 < 0) == (p2 < 0) then 128 else -128;
    Clamp(g / 128 + h + Mul15(a2, 32512), -12288, 12288)
  }

  function ExactPole1(a1: int, a2: int, p0: int, p1: int): (r: int16)
    requires -12288 <= a2 <= 12288
    ensures Stable(r, a2)
  {
    var h := if (p0 < 0) == (p1 < 0) then 192 else -192;
    Clamp(h + Mul15(a1, 32640), a2 - 15360, 15360 - a2)
  }

  function ExactPoles(a: seq<int16>, p: seq<int16>): (a': seq<int16>)
    requires |a| == |p| == 3
    ensures |a'| == 3 && Stable(a'[1], a'[2])
  {
    var a2 := ExactPole2(a[1], a[2], p[0], p[1], p[2]);
    [a[0], ExactPole1(a[1], a2, p[0], p[1]), a2]
  }

  function ExactPoleSection(r: seq<int16>, a: seq<int16>): int16
    requires |r| == |a| == 3
  {
    var r1, r2 := Clamp(Times(2, r[1]), MIN_16, MAX_16), Clamp(Times(2, r[2]), MIN_16, MAX_16);
    Clamp(Mul15(a[1], r1) + Mul15(a[2], r2), MIN_16, MAX_16)
  }

  function ExactPredict(band: Band, d0: int16, nb: int16, det: int16): (next: Band)
    requires band.Shaped() && ZerosInRange(band.b)
    ensures next.Shaped() && ZerosInRange(next.b) && PolesStable(next)
  {
    var d := band.d[0 := d0];
    var p := band.p[0 := Clamp(d0 + band.sz, MIN_16, MAX_16)];
    var r := band.r[0 := Clamp(band.s + d0, MIN_16, MAX_16)];
    var b := ExactZeros(d, band.b);
    var a := ExactPoles(band.a, p);
    var sz := ExactZeroSum(Delay(d), b, |b| - 1);
    var sp := ExactPoleSection(Delay(r), a);
    Band(nb, det, Clamp(sp + sz, MIN_16, MAX_16), sp, sz, a, Delay(p), Delay(r), b, Delay(d))
  }

  /** The difference that the four-bit core of a low-band code stands for, in Q15 units of the scale factor. */
  function LowQuantum(il: int16): (q: int16)
    requires 0 <= il <= 63
    ensures -20456 <= q <= 20456
  {
    (if RISIL[il / 4] == 0 then 8 else -8) * OQ4[RIL4[il / 4]]
  }

  function HighQuantum(ih: int16): (q: int16)
    requires 0 <= ih <= 3
    ensures -7408 <= q <= 7408
  {
    (if SIH[ih] == 0 then 8 else -8) * OQ2[IH2[ih]]
  }

  function ExactDifference(det: int16, q: int16): (d0: int16)
    requires 0 <= det <= 16384
  {
    Mul15Bound(det, 16384, q, 32768);
    Mul15(det, q)
  }

  /** The step of the log scale factor that a code asks for. */
  function LowLogStep(il: int16): int16
    requires 0 <= il <= 63
  {
    WL[RIL4[il / 4]]
  }

  function HighLogStep(ih: int16): int16
    requires 0 <= ih <= 3
  {
    WH[IH2[ih]]
  }

  function ExactLog(nb: int16, w: int16, max: int16): (nb': int16)
    requires 0 <= max
    ensures 0 <= nb' <= max
  {
    Clamp(Mul15(nb, 32512) + w, 0, max)
  }

  function ExactLowNext(band: Band, il: int16): (next: Band)
    requires LowTame(band) && 0 <= il <= 63
    ensures next.Shaped()
  {
    var nb := ExactLog(band.nb, LowLogStep(il), 18432);
    ExactPredict(band, ExactDifference(band.det, LowQuantum(il)), nb, 4 * (Ila(nb / 64 + 64) + 1))
  }

  function ExactHighNext(band: Band, ih: int16): (next: Band)
    requires HighTame(band) && 0 <= ih <= 3
    ensures next.Shaped()
  {
    var nb := ExactLog(band.nb, HighLogStep(ih), 22528);
    ExactPredict(band, ExactDifference(band.det, HighQuantum(ih)), nb, 4 * (Ila(nb / 64) + 1))
  }

  // ----- the fixed-point functions agree with the exact ones -----

  lemma ZeroIsExact(d0: int16, di: int16, bi: int16)
    requires bi <= 32513
    ensures ZeroCoefficient(d0, di, bi) == ExactZero(d0, di, bi)
  {
  }

  lemma ZerosAreExact(d: seq<int16>, b: seq<int16>)
    requires |d| == 7 && ZerosInRange(b)
    ensures ZeroCoefficients(d, b) == ExactZeros(d, b)
  {
    forall i | 1 <= i < 7
      ensures ZeroCoefficients(d, b)[i] == ExactZeros(d, b)[i]
    {
      ZeroIsExact(d[0], d[i], b[i]);
    }
  }

  /** Doubled differences stay clear of -32768, so no product of the zero section wraps. */
  lemma {:induction false} ZeroSumIsExact(d: seq<int16>, b: seq<int16>, n: nat)
    requires |b| == 7 && DifferencesInRange(d, LOW_LIMIT) && n <= 6
    ensures ZeroSum(d, b, n) == ExactZeroSum(d, b, n)
  {
    hide ScaledMult;
    if n > 0 {
      ZeroSumIsExact(d, b, n - 1);
    }
  }

  lemma Pole2IsExact(a: seq<int16>, p: seq<int16>)
    requires |a| == |p| == 3
    ensures Pole2(a, p) == ExactPole2(a[1], a[2], p[0], p[1], p[2])
  {
    hide ScaledMult, ShiftLeftShort, ShiftRightShort, Saturate, SaturateAddShort, SaturateSubtractShort, Pow2;
    Pow2Values();
    var f := ShiftLeftShort(a[1], 2);
    assert f == Clamp(Times(4, a[1]), MIN_16, MAX_16);
    var g := if (p[0] < 0) == (p[1] < 0) then SaturateSubtractShort(0, f) else SaturateAddShort(0, f);
    assert SaturateAddShort(0, f) == f;
    assert ShiftRightShort(g, 7) == g / 128;
  }

  lemma Pole1IsExact(a: seq<int16>, p: seq<int16>)
    requires |a| == |p| == 3 && -12288 <= a[2] <= 12288
    ensures Pole1(a, p) == ExactPole1(a[1], a[2], p[0], p[1])
  {
    hide ScaledMult, ShiftLeftShort, ShiftRightShort;
  }

  lemma PolesAreExact(a: seq<int16>, p: seq<int16>)
    requires |a| == |p| == 3
    ensures Poles(a, p) == ExactPoles(a, p)
  {
    hide Pole2, Pole1, ExactPole2, ExactPole1;
    Pole2IsExact(a, p);
    Pole1IsExact(a[2 := Pole2(a, p)], p);
  }

  /** Stable coefficients stay clear of -32768, so no product of the pole section wraps. */
  lemma PoleSectionIsExact(r: seq<int16>, a: seq<int16>)
    requires |r| == |a| == 3 && Stable(a[1], a[2])
    ensures PoleSection(r, a) == ExactPoleSection(r, a)
  {
    hide ScaledMult;
  }

  lemma PredictIsExact(band: Band, d0: int16, nb: int16, det: int16)
    requires band.Shaped() && ZerosInRange(band.b)
    requires DifferencesInRange(band.d, LOW_LIMIT) && -LOW_LIMIT <= d0 <= LOW_LIMIT
    ensures Predict(band, d0, nb, det) == ExactPredict(band, d0, nb, det)
  {
    hide ZeroCoefficients, ExactZeros, ZeroSum, ExactZeroSum, Poles, ExactPoles, PoleSection, ExactPoleSection;
    var d := band.d[0 := d0];
    var p := band.p[0 := SaturateAddShort(d0, band.sz)];
    var r := band.r[0 := SaturateAddShort(band.s, d0)];
    ZerosAreExact(d, band.b);
    PolesAreExact(band.a, p);
    var b := ExactZeros(d, band.b);
    ZeroSumIsExact(Delay(d), b, |b| - 1);
    PoleSectionIsExact(Delay(r), ExactPoles(band.a, p));
  }

  /** The quantised difference of the low band. */
  lemma LowDifferenceIsExact(il: int16, detl: int16)
    requires 0 <= il <= 63 && 0 <= detl <= 16384
    ensures Invqal(il, detl) == ExactDifference(detl, LowQuantum(il))
    ensures -LOW_LIMIT <= Invqal(il, detl) <= LOW_LIMIT
  {
    hide Invqal;
    Mul15Bound(detl, 16384, LowQuantum(il), 20456);
  }

  lemma HighDifferenceIsExact(ih: int16, deth: int16)
    requires 0 <= ih <= 3 && 0 <= deth <= 16384
    ensures Invqah(ih, deth) == ExactDifference(deth, HighQuantum(ih))
    ensures -HIGH_LIMIT <= Invqah(ih, deth) <= HIGH_LIMIT
  {
    hide Invqah;
    Mul15Bound(HighQuantum(ih), 7408, deth, 16384);
    assert Mul15(HighQuantum(ih), deth) == Mul15(deth, HighQuantum(ih));
  }

  lemma LowScaleIsExact(il: int16, nbl: int16)
    requires 0 <= il <= 63
    ensures Logscl(il, nbl) == ExactLog(nbl, LowLogStep(il), 18432)
    ensures Scalel(Logscl(il, nbl)) == 4 * (Ila(Logscl(il, nbl) / 64 + 64) + 1)
  {
    hide Logscl, Ila, IlaIndex;
  }

  lemma HighScaleIsExact(ih: int16, nbh: int16)
    requires 0 <= ih <= 3
    ensures Logsch(ih, nbh) == ExactLog(nbh, HighLogStep(ih), 22528)
    ensures Scaleh(Logsch(ih, nbh)) == 4 * (Ila(Logsch(ih, nbh) / 64) + 1)
  {
    hide Logsch, Ila, IlaIndex;
  }

  /** One low-band sample: exact, and back in the range from which the next one is exact. */
  lemma LowNextIsExact(band: Band, il: int16)
    requires LowTame(band) && 0 <= il <= 63
    ensures LowNext(band, il) == ExactLowNext(band, il)
    ensures LowTame(LowNext(band, il)) && PolesStable(LowNext(band, il))
  {
    hide Predict, ExactPredict, Invqal, Logscl, Scalel, Ila, LowQuantum, ExactDifference, LowLogStep, ExactLog;
    var d0, nb := Invqal(il, band.det), Logscl(il, band.nb);
    LowDifferenceIsExact(il, band.det);
    LowScaleIsExact(il, band.nb);
    PredictIsExact(band, d0, nb, Scalel(nb));
    PredictKeepsDifferences(band, d0, nb, Scalel(nb), LOW_LIMIT);
  }

  lemma HighNextIsExact(band: Band, ih: int16)
    requires HighTame(band) && 0 <= ih <= 3
    ensures HighNext(band, ih) == ExactHighNext(band, ih)
    ensures HighTame(HighNext(band, ih)) && PolesStable(HighNext(band, ih))
  {
    hide Predict, ExactPredict, Invqah, Logsch, Scaleh, Ila, HighQuantum, ExactDifference, HighLogStep, ExactLog;
    var d0, nb := Invqah(ih, band.det), Logsch(ih, band.nb);
    HighDifferenceIsExact(ih, band.det);
    HighScaleIsExact(ih, band.nb);
    PredictIsExact(band, d0, nb, Scaleh(nb));
    PredictKeepsDifferences(band, d0, nb, Scaleh(nb), HIGH_LIMIT);
  }

  lemma PredictKeepsDifferences(band: Band, d0: int16, nb: int16, det: int16, limit: int)
    requires band.Shaped() && DifferencesInRange(band.d, limit) && -limit <= d0 <= limit
    ensures var next := Predict(band, d0, nb, det);
      && DifferencesInRange(next.d, limit) && next.nb == nb && next.det == det
      && next.d == [d0, d0] + band.d[1..6]
  {
    hide ZeroCoefficients, ZeroSum, Poles, PoleSection;
  }
}

/**
 * The upper bound of the high band's adaptation is reached too: thirty-two alternating pairs keep
 * the difference so far beyond the decision level that no exact prediction is needed.
 */
module G722Climb {
  import opened Ints
  import opened FixedPoint
  import opened G722Tables
  import opened G722Quantizers
  import opened G722Bands
  import opened G722Qmf
  import opened G722Runs
  import opened G722Reference
  import opened G722Theorems
  import opened G722Tight

  // ----- the climb, in numbers -----

  /** The log scale factor before each pair, when every code is an outer one. */
  const LOGS: seq<int> := [
    0, 798, 1589, 2374, 3153, 3926, 4693, 5454, 6209, 6958, 7701, 8438, 9170, 9896, 10616, 11331, 12040,
    12743, 13441, 14133, 14820, 15502, 16178, 16849, 17515, 18176, 18832, 19482, 20127, 20767, 21402, 22032, 22528
  ]

  /** A bound of the scale factor before each pair. */
  const SCALES: seq<int> := [
    8, 12, 20, 20, 36, 36, 60, 60, 104, 104, 176, 176, 176, 296, 296, 500, 500,
    840, 840, 1416, 1416, 2380, 2380, 2380, 4008, 4008, 6740, 6740, 11336, 11336, 11336, 16384, 16384
  ]

  /** A bound of the rebuilt difference of each pair. */
  const STEPS: seq<int> := [
    2, 3, 5, 5, 9, 9, 14, 14, 24, 24, 40, 40, 40, 67, 67, 114, 114,
    190, 190, 321, 321, 539, 539, 539, 907, 907, 1524, 1524, 2563, 2563, 2563, 3705, 3705
  ]

  /** A bound of the prediction before each pair. */
  const PREDICTIONS: seq<int> := [
    0, 9, 9, 10, 11, 12, 14, 17, 19, 26, 30, 43, 51, 58, 86, 102, 160,
    194, 304, 369, 583, 714, 1120, 1380, 1636, 2405, 2946, 4481, 5583, 8525, 10733, 13158, 17655
  ]

  /** The high band's samples. */
  const HIGH_SAMPLES: seq<int16> := [
    15, -68, 219, -568, 1461, -8192, -16384, -15816, -16384, -16316, -16384, -16384, -16384, -16384, -16384, -16384,
    -16384, -16384, -16384, -16384, -16384, -16384, -16384, -16384, -16384, -16384, -16384, -16384, -16384, -16384,
    -16384, -16384
  ]

  /** A bound of the second pole coefficient before each pair. */
  const POLES: seq<int> := [
    0, 129, 264, 405, 552, 705, 864, 1029, 1200, 1377, 1560, 1749, 1944, 2145, 2352, 2565, 2784, 3009, 3240, 3477,
    3720, 3969, 4224, 4485, 4752, 5025, 5304, 5589, 5880, 6177, 6480, 6789, 7104
  ]

  /** A bound of the reconstruction in the newest place of the history before pair `k`. */
  function HistoryBound(k: nat): int
    requires k <= 33
  {
    if k == 0 then 0 else PREDICTIONS[k - 1] + STEPS[k - 1]
  }

  predicate Near(x: int, m: int) {
    -m <= x <= m
  }

  lemma LogsClimb(k: nat)
    requires k < 32
    ensures Clamp(Mul15(LOGS[k], 32512) + 798, 0, 22528) == LOGS[k + 1]
  {
  }

  /** The last entries of the rows of `ila`. */
  const ROW_ENDS: seq<int> := [2, 4, 8, 14, 25, 43, 73, 124, 209, 353, 594, 1001, 1684, 2833, 4095]

  lemma IlaRowEnd(row: nat, i: nat)
    requires row <= 14 && i < 24 && 24 * row + i < 353
    ensures IlaFrom(row, i) <= ROW_ENDS[row]
  {
  }

  lemma ScalesBound(k: nat)
    requires 1 <= k <= 32
    ensures 0 <= LOGS[k] <= 22528 && 4 * (ROW_ENDS[LOGS[k] / 64 / 24] + 1) <= SCALES[k]
  {
  }

  lemma StepsFit(k: nat)
    requires k < 32
    ensures 0 <= SCALES[k] <= 16384 && 7408 * SCALES[k] < 0x8000 * STEPS[k] && 0 <= STEPS[k] <= STEPS[k + 1]
  {
  }

  /** No prediction within its bound brings the difference below the decision level. */
  lemma SamplesFit(k: nat)
    requires k < 32
    ensures 0 <= PREDICTIONS[k]
    ensures 4512 * SCALES[k] <= 0x8000 * (Abs(HIGH_SAMPLES[k]) - PREDICTIONS[k] - 1)
  {
  }

  lemma PolesFit(k: nat)
    requires k < 32
    ensures 0 <= POLES[k] && POLES[k] + 129 + 6 * k <= POLES[k + 1]
  {
  }

  /** What the next prediction can be at most, times 2^15, from the bounds of all that enters it. */
  function NextPrediction(k: nat, step: int, newest: int, older: int, pole: int): int {
    1536 * step * (k + 1) + 384 * newest * (k + 1) + 2 * older * pole + 8 * 0x8000
  }

  predicate PredictionFits(k: nat)
    requires k < 32
  {
    NextPrediction(k, STEPS[k], HistoryBound(k + 1), HistoryBound(k), POLES[k + 1]) <= 0x8000 * PREDICTIONS[k + 1]
  }

  lemma Fits0()
    ensures PredictionFits(0) && PredictionFits(1) && PredictionFits(2) && PredictionFits(3)
  {
  }

  lemma Fits4()
    ensures PredictionFits(4) && PredictionFits(5) && PredictionFits(6) && PredictionFits(7)
  {
  }

  lemma Fits8()
    ensures PredictionFits(8) && PredictionFits(9) && PredictionFits(10) && PredictionFits(11)
  {
  }

  lemma Fits12()
    ensures PredictionFits(12) && PredictionFits(13) && PredictionFits(14) && PredictionFits(15)
  {
  }

  lemma Fits16()
    ensures PredictionFits(16) && PredictionFits(17) && PredictionFits(18) && PredictionFits(19)
  {
  }

  lemma Fits20()
    ensures PredictionFits(20) && PredictionFits(21) && PredictionFits(22) && PredictionFits(23)
  {
  }

  lemma Fits24()
    ensures PredictionFits(24) && PredictionFits(25) && PredictionFits(26) && PredictionFits(27)
  {
  }

  lemma Fits28()
    ensures PredictionFits(28) && PredictionFits(29) && PredictionFits(30) && PredictionFits(31)
  {
  }

  lemma PredictionsFit(k: nat)
    requires k < 32
    ensures PredictionFits(k)
  {
    hide PredictionFits;
    Fits0();
    Fits4();
    Fits8();
    Fits12();
    Fits16();
    Fits20();
    Fits24();
    Fits28();
  }

  // ----- one step of the climb -----

  /** The newest rebuilt differences are no larger than the last step. */
  function StepBound(k: nat): int
    requires k <= 33
  {
    if k == 0 then 0 else STEPS[k - 1]
  }

  /** The high band before pair `k`, with every code an outer one so far. */
  predicate Climbing(band: Band, k: nat)
    requires k <= 32
  {
    && HighTame(band) && band.nb == LOGS[k] && band.det <= SCALES[k]
    && Near(band.s, PREDICTIONS[k]) && Near(band.a[1], 192 * k) && Near(band.a[2], POLES[k])
    && (forall i :: 1 <= i < 7 ==> Near(band.b[i], 128 * k) && Near(band.d[i], StepBound(k)))
    && Near(band.r[1], HistoryBound(k)) && Near(band.r[2], if k == 0 then 0 else HistoryBound(k - 1))
  }

  lemma NearClamp(x: int, lo: int, hi: int, m: int)
    requires Near(x, m) && lo <= 0 <= hi
    ensures Near(Clamp(x, lo, hi), m)
  {
  }

  lemma NearProduct(x: int, m: int, y: int, n: int)
    requires Near(x, m) && Near(y, n)
    ensures 0x8000 * Mul15(x, y) <= m * n && -(m * n) - 0x8000 <= 0x8000 * Mul15(x, y)
  {
    MulBound(x, m, y, n);
  }

  /** A leaky coefficient does not grow. */
  lemma NearLeak(x: int, m: int, y: int)
    requires Near(x, m) && 0 <= y <= 0x8000
    ensures Near(Mul15(x, y), m)
  {
    MulBound(x, m, y, 0x8000);
    MulMono(y, 0x8000, m);
    if x >= 0 {
      MulMono(y, 0x8000, x);
    } else {
      MulMono(y, 0x8000, -x);
    }
    assert -(0x8000 * m) <= x * y <= 0x8000 * m;
  }

  lemma ZeroClimbs(d0: int16, di: int16, bi: int16, k: nat)
    requires bi <= 32513 && Near(bi, 128 * k)
    ensures Near(ExactZero(d0, di, bi), 128 * (k + 1))
  {
    hide Mul15;
    NearLeak(bi, 128 * k, 32640);
  }

  lemma Pole2Climbs(a1: int, a2: int, p0: int, p1: int, p2: int, k: nat, m: int)
    requires Near(a1, 192 * k) && Near(a2, m)
    ensures Near(ExactPole2(a1, a2, p0, p1, p2), m + 129 + 6 * k)
  {
    hide Mul15;
    NearLeak(a2, m, 32512);
    var f := Clamp(4 * a1, MIN_16, MAX_16);
    NearClamp(4 * a1, MIN_16, MAX_16, 768 * k);
    NearClamp(-f, MIN_16, MAX_16, 768 * k);
    var g := if (p0 < 0) == (p1 < 0) then Clamp(-f, MIN_16, MAX_16) else f;
    assert Near(g, 768 * k) && Near(g / 128, 6 * k);
    var h := if (p0 < 0) == (p2 < 0) then 128 else -128;
    NearClamp(g / 128 + h + Mul15(a2, 32512), -12288, 12288, m + 129 + 6 * k);
  }

  lemma Pole1Climbs(a1: int, a2: int, p0: int, p1: int, k: nat)
    requires -12288 <= a2 <= 12288 && Near(a1, 192 * k)
    ensures Near(ExactPole1(a1, a2, p0, p1), 192 * (k + 1))
  {
    hide Mul15;
    NearLeak(a1, 192 * k, 32640);
    var h := if (p0 < 0) == (p1 < 0) then 192 else -192;
    NearClamp(h + Mul15(a1, 32640), a2 - 15360, 15360 - a2, 192 * (k + 1));
  }

  /** The zero section stays small with its coefficients and differences. */
  lemma {:induction false} ZeroSumClimbs(d: seq<int16>, b: seq<int16>, n: nat, m: nat, c: nat)
    requires |d| == |b| == 7 && n <= 6
    requires forall i :: 1 <= i < 7 ==> Near(d[i], m) && Near(b[i], c)
    ensures Near(0x8000 * ExactZeroSum(d, b, n), n * (2 * m * c + 0x8000))
  {
    hide Mul15;
    if n > 0 {
      ZeroSumClimbs(d, b, n - 1, m, c);
      NearProduct(Times(2, d[7 - n]), 2 * m, b[7 - n], c);
      OneMore(ExactZeroSum(d, b, n - 1), Mul15(Times(2, d[7 - n]), b[7 - n]), n, 2 * m * c + 0x8000);
    }
  }

  lemma OneMore(before: int, product: int, n: nat, w: int)
    requires n > 0 && Near(0x8000 * before, (n - 1) * w) && Near(0x8000 * product, w)
    ensures Near(0x8000 * Clamp(before + product, MIN_16, MAX_16), n * w)
  {
    ScaledClamp(before + product, n * w);
  }

  lemma ScaledClamp(x: int, m: int)
    requires Near(0x8000 * x, m)
    ensures Near(0x8000 * Clamp(x, MIN_16, MAX_16), m)
  {
  }

  lemma PoleSectionClimbs(r: seq<int16>, a: seq<int16>, newest: nat, older: nat, c1: nat, c2: nat)
    requires |r| == |a| == 3 && Near(r[1], newest) && Near(r[2], older) && Near(a[1], c1) && Near(a[2], c2)
    ensures Near(0x8000 * ExactPoleSection(r, a), 2 * newest * c1 + 2 * older * c2 + 2 * 0x8000)
  {
    hide Mul15;
    var r1, r2 := Clamp(Times(2, r[1]), MIN_16, MAX_16), Clamp(Times(2, r[2]), MIN_16, MAX_16);
    NearClamp(Times(2, r[1]), MIN_16, MAX_16, 2 * newest);
    NearClamp(Times(2, r[2]), MIN_16, MAX_16, 2 * older);
    NearProduct(a[1], c1, r1, 2 * newest);
    NearProduct(a[2], c2, r2, 2 * older);
    Commute(c1, 2 * newest, newest);
    Commute(c2, 2 * older, older);
    ScaledClamp(Mul15(a[1], r1) + Mul15(a[2], r2), 2 * newest * c1 + 2 * older * c2 + 2 * 0x8000);
  }

  lemma Commute(c: int, twice: int, x: int)
    requires twice == 2 * x
    ensures c * twice == 2 * x * c
  {
  }

  /** The prediction stays within its bound. */
  lemma PredictionClimbs(d: seq<int16>, b: seq<int16>, r: seq<int16>, a: seq<int16>, k: nat)
    requires k < 32 && |d| == |b| == 7 && |r| == |a| == 3
    requires forall i :: 1 <= i < 7 ==> Near(d[i], STEPS[k]) && Near(b[i], 128 * (k + 1))
    requires Near(r[1], HistoryBound(k + 1)) && Near(r[2], HistoryBound(k))
    requires Near(a[1], 192 * (k + 1)) && Near(a[2], POLES[k + 1])
    ensures Near(Clamp(ExactPoleSection(r, a) + ExactZeroSum(d, b, 6), MIN_16, MAX_16), PREDICTIONS[k + 1])
  {
    hide ExactPoleSection, ExactZeroSum;
    StepsFit(k);
    PolesFit(k);
    HistoryIsPositive(k);
    HistoryIsPositive(k + 1);
    PredictionsFit(k);
    ZeroSumClimbs(d, b, 6, STEPS[k], 128 * (k + 1));
    PoleSectionClimbs(r, a, HistoryBound(k + 1), HistoryBound(k), 192 * (k + 1), POLES[k + 1]);
    WeightsAdd(k, STEPS[k], HistoryBound(k + 1), HistoryBound(k), POLES[k + 1]);
    var x := ExactPoleSection(r, a) + ExactZeroSum(d, b, 6);
    assert Near(0x8000 * x, 0x8000 * PREDICTIONS[k + 1]);
    NearClamp(x, MIN_16, MAX_16, PREDICTIONS[k + 1]);
  }

  lemma HistoryIsPositive(k: nat)
    requires k <= 32
    ensures HistoryBound(k) >= 0
  {
    if k > 0 {
      StepsFit(k - 1);
      SamplesFit(k - 1);
    }
  }

  lemma WeightsAdd(k: nat, step: int, newest: int, older: int, pole: int)
    ensures 6 * (2 * step * (128 * (k + 1)) + 0x8000) + (2 * newest * (192 * (k + 1)) + 2 * older * pole + 2 * 0x8000)
            == NextPrediction(k, step, newest, older, pole)
  {
    assert 2 * step * (128 * (k + 1)) == 256 * step * (k + 1);
    assert 2 * newest * (192 * (k + 1)) == 384 * newest * (k + 1);
  }

  lemma OuterProduct(det: int, scale: int, step: int)
    requires 0 <= det <= scale && 7408 * scale < 0x8000 * step
    ensures Near(Mul15(det, 7408), step) && Near(Mul15(det, -7408), step)
  {
  }

  lemma OuterStep(det: int16, q: int16, k: nat)
    requires k < 32 && 0 <= det <= SCALES[k] && (q == 7408 || q == -7408)
    ensures Near(Mul15(det, q), STEPS[k])
  {
    hide Mul15;
    StepsFit(k);
    OuterProduct(det, SCALES[k], STEPS[k]);
  }

  lemma NextScale(nb: int16, k: nat)
    requires k < 32 && nb == LOGS[k + 1]
    ensures 0 <= nb <= 22528 && 4 * (Ila(nb / 64) + 1) <= SCALES[k + 1]
  {
    hide Ila, IlaFrom;
    ScalesBound(k + 1);
    var i := nb / 64;
    RowOfIla(i as int, i as int / 24, i as int % 24);
  }

  lemma RowOfIla(i: nat, row: nat, place: nat)
    requires i < 353 && row == i / 24 && place == i % 24
    ensures Ila(i) <= ROW_ENDS[row]
  {
    hide IlaFrom;
    IlaByRow(0, row, place);
    IlaRowEnd(row, place);
  }

  /** The histories after a step. */
  lemma HistoriesClimb(band: Band, d0: int16, k: nat)
    requires k < 32 && Climbing(band, k) && Near(d0, STEPS[k])
    ensures var d := Delay(band.d[0 := d0]); forall i :: 1 <= i < 7 ==> Near(d[i], STEPS[k])
    ensures var r := Delay(band.r[0 := Clamp(band.s + d0, MIN_16, MAX_16)]);
      Near(r[1], HistoryBound(k + 1)) && Near(r[2], HistoryBound(k))
  {
    StepGrows(k);
    NearClamp(band.s + d0, MIN_16, MAX_16, HistoryBound(k + 1));
  }

  lemma StepGrows(k: nat)
    requires k < 32
    ensures 0 <= StepBound(k) <= STEPS[k]
  {
    StepsFit(k);
    if k > 0 {
      StepsFit(k - 1);
    }
  }

  lemma PolesClimb(a: seq<int16>, p: seq<int16>, k: nat)
    requires |a| == |p| == 3 && k < 32 && Near(a[1], 192 * k) && Near(a[2], POLES[k])
    ensures Near(ExactPoles(a, p)[1], 192 * (k + 1)) && Near(ExactPoles(a, p)[2], POLES[k + 1])
  {
    hide ExactPole2, ExactPole1;
    PolesFit(k);
    Pole2Climbs(a[1], a[2], p[0], p[1], p[2], k, POLES[k]);
    Pole1Climbs(a[1], ExactPole2(a[1], a[2], p[0], p[1], p[2]), p[0], p[1], k);
  }

  lemma ZerosClimb(d: seq<int16>, b: seq<int16>, k: nat)
    requires |d| == 7 && ZerosInRange(b) && forall i :: 1 <= i < 7 ==> Near(b[i], 128 * k)
    ensures forall i :: 1 <= i < 7 ==> Near(ExactZeros(d, b)[i], 128 * (k + 1))
  {
    hide ExactZero;
    forall i | 1 <= i < 7
      ensures Near(ExactZeros(d, b)[i], 128 * (k + 1))
    {
      ZeroClimbs(d[0], d[i], b[i], k);
    }
  }

  lemma TameHasZeros(band: Band)
    requires HighTame(band)
    ensures band.Shaped() && ZerosInRange(band.b)
  {
  }

  lemma MemoriesClimb(band: Band, d0: int16, nb: int16, det: int16, k: nat)
    requires k < 32 && Climbing(band, k) && Near(d0, STEPS[k])
    ensures var next := ExactPredict(band, d0, nb, det);
      && Near(next.a[1], 192 * (k + 1)) && Near(next.a[2], POLES[k + 1])
      && (forall i :: 1 <= i < 7 ==> Near(next.b[i], 128 * (k + 1)) && Near(next.d[i], STEPS[k]))
      && Near(next.r[1], HistoryBound(k + 1)) && Near(next.r[2], HistoryBound(k))
  {
    hide ExactPredict, Climbing, Near, HistoryBound;
    NextFields(band, d0, nb, det, k);
    HistoriesClimb(band, d0, k);
    NextPoles(band, d0, k);
    NextZeros(band, d0, k);
  }

  lemma NextFields(band: Band, d0: int16, nb: int16, det: int16, k: nat)
    requires k < 32 && Climbing(band, k)
    ensures band.Shaped() && ZerosInRange(band.b)
    ensures var next := ExactPredict(band, d0, nb, det);
      && next.a == ExactPoles(band.a, band.p[0 := Clamp(d0 + band.sz, MIN_16, MAX_16)])
      && next.b == ExactZeros(band.d[0 := d0], band.b) && next.d == Delay(band.d[0 := d0])
      && next.r == Delay(band.r[0 := Clamp(band.s + d0, MIN_16, MAX_16)])
  {
    hide ExactPoles, ExactZeros, ExactZeroSum, ExactPoleSection, Delay, Near, Clamp, HistoryBound;
  }

  lemma NextPoles(band: Band, d0: int16, k: nat)
    requires k < 32 && Climbing(band, k)
    ensures var a := ExactPoles(band.a, band.p[0 := Clamp(d0 + band.sz, MIN_16, MAX_16)]);
      Near(a[1], 192 * (k + 1)) && Near(a[2], POLES[k + 1])
  {
    hide ExactPoles, Near, Clamp, HistoryBound;
    PolesClimb(band.a, band.p[0 := Clamp(d0 + band.sz, MIN_16, MAX_16)], k);
  }

  lemma NextZeros(band: Band, d0: int16, k: nat)
    requires k < 32 && Climbing(band, k)
    ensures var b := ExactZeros(band.d[0 := d0], band.b); forall i :: 1 <= i < 7 ==> Near(b[i], 128 * (k + 1))
  {
    hide ExactZeros, Near, Clamp, HistoryBound;
    ZerosClimb(band.d[0 := d0], band.b, k);
  }

  lemma NextPredictionClimbs(band: Band, d0: int16, nb: int16, det: int16, k: nat)
    requires k < 32 && Climbing(band, k) && Near(d0, STEPS[k])
    ensures Near(ExactPredict(band, d0, nb, det).s, PREDICTIONS[k + 1])
  {
    hide ExactPoles, ExactZeros, ExactZeroSum, ExactPoleSection, Delay, HighTame, Near, Clamp, HistoryBound;
    TameHasZeros(band);
    MemoriesClimb(band, d0, nb, det, k);
    var next := ExactPredict(band, d0, nb, det);
    PredictionClimbs(next.d, next.b, next.r, next.a, k);
  }

  /** Whatever the signs of the samples, an outer code takes the band one step up. */
  lemma PredictClimbs(band: Band, d0: int16, nb: int16, det: int16, k: nat)
    requires k < 32 && Climbing(band, k) && Near(d0, STEPS[k])
    requires nb == LOGS[k + 1] && 0 <= det <= SCALES[k + 1] && HighTame(ExactPredict(band, d0, nb, det))
    ensures Climbing(ExactPredict(band, d0, nb, det), k + 1)
  {
    hide ExactPoles, ExactZeros, ExactZeroSum, ExactPoleSection, Delay, HighTame, Near, Clamp, HistoryBound;
    MemoriesClimb(band, d0, nb, det, k);
    NextPredictionClimbs(band, d0, nb, det, k);
  }

  lemma OuterCode(ih: int16)
    requires ih == 0 || ih == 2
    ensures (HighQuantum(ih) == 7408 || HighQuantum(ih) == -7408) && HighLogStep(ih) == 798
  {
  }

  lemma HighClimbs(band: Band, ih: int16, k: nat)
    requires k < 32 && Climbing(band, k) && (ih == 0 || ih == 2)
    ensures Climbing(HighNext(band, ih), k + 1)
  {
    hide ExactPredict, Ila, Climbing, HighNext, HighTame, HighQuantum, HighLogStep, Mul15, Clamp, PolesStable;
    ClimbingIs(band, k);
    HighNextIsExact(band, ih);
    OuterCode(ih);
    var d0 := ExactDifference(band.det, HighQuantum(ih));
    var nb := ExactLog(band.nb, HighLogStep(ih), 22528);
    OuterStep(band.det, HighQuantum(ih), k);
    LogsClimb(k);
    NextScale(nb, k);
    var det: int16 := 4 * (Ila(nb / 64) + 1);
    assert HighNext(band, ih) == ExactPredict(band, d0, nb, det);
    PredictClimbs(band, d0, nb, det, k);
  }

  lemma ClimbingIs(band: Band, k: nat)
    requires k <= 32 && Climbing(band, k)
    ensures HighTame(band) && 0 <= band.det <= SCALES[k] && band.nb == LOGS[k] && Near(band.s, PREDICTIONS[k])
  {
  }

  // ----- the input that climbs -----

  /** `k` pairs at full level, of opposite signs. */
  function Alternating(k: nat): (x: seq<int16>)
    ensures |x| == 2 * k
  {
    seq(2 * k, i => if i % 2 == 0 then MAX_16 else MIN_16)
  }

  /** What a phase of the delay line holds of these pairs. */
  function FullLevel(phase: nat): int16 {
    if phase == 0 then MIN_16 else MAX_16
  }

  lemma AlternatingLine(k: nat, m: nat, phase: nat)
    requires phase < 2 && m == if k <= 12 then k else 12
    ensures forall j :: 0 <= j < 12 ==> Line(Alternating(k))[2 * j + phase] == if j < m then FullLevel(phase) else 0
  {
    forall j | 0 <= j < 12
      ensures Line(Alternating(k))[2 * j + phase] == (if j < m then FullLevel(phase) else 0)
    {
      AlternatingPast(k, j);
    }
  }

  lemma AlternatingTapSum(k: nat, m: nat, phase: nat)
    requires phase < 2 && m == if k <= 12 then k else 12
    ensures TapSum(Line(Alternating(k)), phase, 12) == Times(FullLevel(phase), TAP_SUMS[phase][m])
  {
    hide TapSum, Line, Alternating, FullLevel;
    AlternatingLine(k, m, phase);
    SteadyTapSum(Line(Alternating(k)), phase, FullLevel(phase), m, 12);
  }

  lemma AlternatingPast(k: nat, j: nat)
    ensures Past(Alternating(k), 2 * j) == if j < k then MIN_16 else 0
    ensures Past(Alternating(k), 2 * j + 1) == if j < k then MAX_16 else 0
  {
  }

  lemma AlternatingSample(k: nat)
    requires k < 32
    ensures HighOutput(Line(Alternating(k + 1))) == HIGH_SAMPLES[k]
  {
    hide TapSum, Line, Alternating, Component;
    var m := if k + 1 <= 12 then k + 1 else 12;
    AlternatingTapSum(k + 1, m, 0);
    AlternatingTapSum(k + 1, m, 1);
    SampleIs(k, m);
  }

  lemma SampleIs(k: nat, m: nat)
    requires k < 32 && m == if k + 1 <= 12 then k + 1 else 12
    ensures Component(Times(MIN_16, TAP_SUMS[0][m]) - Times(MAX_16, TAP_SUMS[1][m])) == HIGH_SAMPLES[k]
  {
  }

  /** A sample far enough from the prediction gets an outer code. */
  lemma OuterDifference(xh: int16, s: int16, det: int16, m: int, scale: int)
    requires Near(s, m) && 0 <= det <= scale
    requires 4512 * scale <= 0x8000 * (Abs(xh) - m - 1)
    ensures var ih := Quanth(SaturateSubtractShort(xh, s), det); ih == 0 || ih == 2
  {
    hide Quanth;
    var eh := SaturateSubtractShort(xh, s);
    assert 4512 * det <= 4512 * scale;
    assert Mul15(4512, det) <= Magnitude(eh);
  }

  /** Every pair gets an outer code. */
  lemma OuterInput(band: Band, k: nat)
    requires k < 32 && Climbing(band, k)
    ensures var ih := HighInput(band, HIGH_SAMPLES[k]); ih == 0 || ih == 2
  {
    hide Quanth, Climbing, HighTame;
    ClimbingIs(band, k);
    SamplesFit(k);
    OuterDifference(HIGH_SAMPLES[k], band.s, band.det, PREDICTIONS[k], SCALES[k]);
  }

  /** The high band after `k` alternating pairs. */
  function HighAfter(k: nat): (band: Band)
    ensures band.Shaped()
  {
    Run(FreshState(), Alternating(k)).high
  }

  lemma AlternatingStep(k: nat)
    requires k < 32
    ensures HighAfter(k + 1) == HighNext(HighAfter(k), HighInput(HighAfter(k), HIGH_SAMPLES[k]))
  {
    hide Run, Line, HighNext, LowNext, LowInput, HighInput, LowOutput, HighOutput, FreshState, CodesOf;
    var st, x := FreshState(), Alternating(k);
    FreshIsInitial();
    assert Alternating(k + 1) == x + [MAX_16, MIN_16];
    LastPair(st, x, MAX_16, MIN_16);
    CodesQuantizeConvolution(st, x, MAX_16, MIN_16);
    AlternatingSample(k);
  }

  lemma {:induction false} HighKeepsClimbing(k: nat)
    requires k <= 32
    ensures Climbing(HighAfter(k), k)
  {
    hide Climbing, HighAfter, HighNext, HighInput;
    if k == 0 {
      ClimbStarts();
    } else {
      HighKeepsClimbing(k - 1);
      AlternatingStep(k - 1);
      OuterInput(HighAfter(k - 1), k - 1);
      HighClimbs(HighAfter(k - 1), HighInput(HighAfter(k - 1), HIGH_SAMPLES[k - 1]), k - 1);
    }
  }

  lemma ClimbStarts()
    ensures Climbing(HighAfter(0), 0)
  {
    assert Alternating(0) == [];
  }

  /** The high band's log scale factor reaches its upper bound, and with it the last entry of `ila`. */
  lemma HighBoundIsReached()
    ensures HighAfter(32).nb == 22528 && IlaIndex(HighAfter(32).nb) == 352 && HighAfter(32).det == 16384
  {
    hide Climbing, Scaleh, Run, FreshState;
    HighKeepsClimbing(32);
    ClimbingIs(HighAfter(32), 32);
    assert LOGS[32] == 22528;
    FreshIsInitial();
    ScalesAgreeOverRuns(FreshState(), Alternating(32));
    TopScale();
  }

  lemma TopScale()
    ensures Scaleh(22528) == 16384 && IlaIndex(22528) == 352
  {
    assert IlaIndex(22528) == 352;
    IlaByRow(0, 14, 16);
    assert IlaFrom(14, 16) == 4095;
  }
}

/** The upper bound of the low band's adaptation is reached: seven pairs at full level suffice. */
module G722Tight {
  import opened Ints
  import opened FixedPoint
  import opened G722Tables
  import opened G722Quantizers
  import opened G722Bands
  import opened G722Qmf
  import opened G722Runs
  import opened G722Reference
  import opened G722Accuracy
  import opened G722Theorems

  /** The low band before each of the seven pairs, and after the last but one. */
  const BANDS: seq<Band> := [
    Band(0, 32, 0, 0, 0,
         [0, 0, 0], [0, 0, 0], [0, 0, 0], [0, 0, 0, 0, 0, 0, 0], [0, 0, 0, 0, 0, 0, 0]),
    Band(3042, 88, 0, 0, 0,
         [0, -192, -128], [-20, -20, 0], [-20, -20, 0], [0, -128, -128, -128, -128, -128, -128],
         [-20, -20, 0, 0, 0, 0, 0]),
    Band(6060, 244, -3, -2, -1,
         [0, -384, -5], [54, 54, -20], [54, 54, -20], [0, -256, 0, 0, 0, 0, 0], [54, 54, -20, 0, 0, 0, 0]),
    Band(9054, 676, 8, 5, 3,
         [0, -575, 111], [-154, -154, 54], [-156, -156, 54], [0, -383, 128, -128, -128, -128, -128],
         [-153, -153, 54, -20, 0, 0, 0]),
    Band(12025, 1836, -42, -24, -18,
         [0, -765, 220], [425, 425, -154], [430, 430, -156], [0, -510, 255, -256, 0, 0, 0],
         [422, 422, -153, 54, -20, 0, 0]),
    Band(14973, 4976, 133, 77, 56,
         [0, -955, 322], [-1165, -1165, 425], [-1189, -1189, 430], [0, -637, 382, -383, 128, -128, -128],
         [-1147, -1147, 422, -153, 54, -20, 0]),
    Band(17898, 13484, -457, -258, -199,
         [0, -1144, 417], [3162, 3162, -1165], [3239, 3239, -1189], [0, -763, 508, -510, 255, -256, 0],
         [3106, 3106, -1147, 422, -153, 54, -20])
  ]

  lemma Update0()
    ensures Predict(BANDS[0], -20, 3042, 88) == BANDS[1]
  {
    hide Predict, Mul15, ExactPoles, ExactZeros, ExactZeroSum, ExactPoleSection, Ila, Scalel;
    PredictIsExact(BANDS[0], -20, 3042, 88);
    var d: seq<int16>, p: seq<int16>, r: seq<int16> := [-20, 0, 0, 0, 0, 0, 0], [-20, 0, 0], [-20, 0, 0];
    assert BANDS[0].d[0 := -20] == d && BANDS[0].p[0 := -20] == p && BANDS[0].r[0 := -20] == r;
    Zeros0();
    Poles0();
    ZeroSection0();
    PoleSection0();
    assert Delay(d) == [-20, -20, 0, 0, 0, 0, 0] && Delay(p) == [-20, -20, 0] && Delay(r) == [-20, -20, 0];
  }

  lemma Zeros0()
    ensures ExactZeros([-20, 0, 0, 0, 0, 0, 0], [0, 0, 0, 0, 0, 0, 0]) == [0, -128, -128, -128, -128, -128, -128]
  {
  }

  lemma Poles0()
    ensures ExactPoles([0, 0, 0], [-20, 0, 0]) == [0, -192, -128]
  {
  }

  lemma ZeroSection0()
    ensures ExactZeroSum([-20, -20, 0, 0, 0, 0, 0], [0, -128, -128, -128, -128, -128, -128], 6) == 0
  {
  }

  lemma PoleSection0()
    ensures ExactPoleSection([-20, -20, 0], [0, -192, -128]) == 0
  {
  }

  lemma Update1()
    ensures Predict(BANDS[1], 54, 6060, 244) == BANDS[2]
  {
    hide Predict, Mul15, ExactPoles, ExactZeros, ExactZeroSum, ExactPoleSection, Ila, Scalel;
    PredictIsExact(BANDS[1], 54, 6060, 244);
    var d: seq<int16>, p: seq<int16>, r: seq<int16> := [54, -20, 0, 0, 0, 0, 0], [54, -20, 0], [54, -20, 0];
    assert BANDS[1].d[0 := 54] == d && BANDS[1].p[0 := 54] == p && BANDS[1].r[0 := 54] == r;
    Zeros1();
    Poles1();
    ZeroSection1();
    PoleSection1();
    assert Delay(d) == [54, 54, -20, 0, 0, 0, 0] && Delay(p) == [54, 54, -20] && Delay(r) == [54, 54, -20];
  }

  lemma Zeros1()
    ensures ExactZeros([54, -20, 0, 0, 0, 0, 0], [0, -128, -128, -128, -128, -128, -128]) == [0, -256, 0, 0, 0, 0, 0]
  {
  }

  lemma Poles1()
    ensures ExactPoles([0, -192, -128], [54, -20, 0]) == [0, -384, -5]
  {
  }

  lemma ZeroSection1()
    ensures ExactZeroSum([54, 54, -20, 0, 0, 0, 0], [0, -256, 0, 0, 0, 0, 0], 6) == -1
  {
  }

  lemma PoleSection1()
    ensures ExactPoleSection([54, 54, -20], [0, -384, -5]) == -2
  {
  }

  lemma Update2()
    ensures Predict(BANDS[2], -153, 9054, 676) == BANDS[3]
  {
    hide Predict, Mul15, ExactPoles, ExactZeros, ExactZeroSum, ExactPoleSection, Ila, Scalel;
    PredictIsExact(BANDS[2], -153, 9054, 676);
    var d: seq<int16>, p: seq<int16>, r: seq<int16> := [-153, 54, -20, 0, 0, 0, 0], [-154, 54, -20], [-156, 54, -20];
    assert BANDS[2].d[0 := -153] == d && BANDS[2].p[0 := -154] == p && BANDS[2].r[0 := -156] == r;
    Zeros2();
    Poles2();
    ZeroSection2();
    PoleSection2();
    assert Delay(d) == [-153, -153, 54, -20, 0, 0, 0] && Delay(p) == [-154, -154, 54] && Delay(r) == [-156, -156, 54];
  }

  lemma Zeros2()
    ensures ExactZeros([-153, 54, -20, 0, 0, 0, 0], [0, -256, 0, 0, 0, 0, 0]) == [0, -383, 128, -128, -128, -128, -128]
  {
  }

  lemma Poles2()
    ensures ExactPoles([0, -384, -5], [-154, 54, -20]) == [0, -575, 111]
  {
  }

  lemma ZeroSection2()
    ensures ExactZeroSum([-153, -153, 54, -20, 0, 0, 0], [0, -383, 128, -128, -128, -128, -128], 6) == 3
  {
  }

  lemma PoleSection2()
    ensures ExactPoleSection([-156, -156, 54], [0, -575, 111]) == 5
  {
  }

  lemma Update3()
    ensures Predict(BANDS[3], 422, 12025, 1836) == BANDS[4]
  {
    hide Predict, Mul15, ExactPoles, ExactZeros, ExactZeroSum, ExactPoleSection, Ila, Scalel;
    PredictIsExact(BANDS[3], 422, 12025, 1836);
    var d: seq<int16>, p: seq<int16>, r: seq<int16> := [422, -153, 54, -20, 0, 0, 0], [425, -154, 54], [430, -156, 54];
    assert BANDS[3].d[0 := 422] == d && BANDS[3].p[0 := 425] == p && BANDS[3].r[0 := 430] == r;
    Zeros3();
    Poles3();
    ZeroSection3();
    PoleSection3();
    assert Delay(d) == [422, 422, -153, 54, -20, 0, 0] && Delay(p) == [425, 425, -154] && Delay(r) == [430, 430, -156];
  }

  lemma Zeros3()
    ensures ExactZeros([422, -153, 54, -20, 0, 0, 0], [0, -383, 128, -128, -128, -128, -128])
            == [0, -510, 255, -256, 0, 0, 0]
  {
  }

  lemma Poles3()
    ensures ExactPoles([0, -575, 111], [425, -154, 54]) == [0, -765, 220]
  {
  }

  lemma ZeroSection3()
    ensures ExactZeroSum([422, 422, -153, 54, -20, 0, 0], [0, -510, 255, -256, 0, 0, 0], 6) == -18
  {
  }

  lemma PoleSection3()
    ensures ExactPoleSection([430, 430, -156], [0, -765, 220]) == -24
  {
  }

  lemma Update4()
    ensures Predict(BANDS[4], -1147, 14973, 4976) == BANDS[5]
  {
    hide Predict, Mul15, ExactPoles, ExactZeros, ExactZeroSum, ExactPoleSection, Ila, Scalel;
    PredictIsExact(BANDS[4], -1147, 14973, 4976);
    var d: seq<int16>, p: seq<int16>, r: seq<int16> := [-1147, 422, -153, 54, -20, 0, 0], [-1165, 425, -154],
        [-1189, 430, -156];
    assert BANDS[4].d[0 := -1147] == d && BANDS[4].p[0 := -1165] == p && BANDS[4].r[0 := -1189] == r;
    Zeros4();
    Poles4();
    ZeroSection4();
    PoleSection4();
    assert Delay(d) == [-1147, -1147, 422, -153, 54, -20, 0] && Delay(p) == [-1165, -1165, 425]
           && Delay(r) == [-1189, -1189, 430];
  }

  lemma Zeros4()
    ensures ExactZeros([-1147, 422, -153, 54, -20, 0, 0], [0, -510, 255, -256, 0, 0, 0])
            == [0, -637, 382, -383, 128, -128, -128]
  {
  }

  lemma Poles4()
    ensures ExactPoles([0, -765, 220], [-1165, 425, -154]) == [0, -955, 322]
  {
  }

  lemma ZeroSection4()
    ensures ExactZeroSum([-1147, -1147, 422, -153, 54, -20, 0], [0, -637, 382, -383, 128, -128, -128], 6) == 56
  {
  }

  lemma PoleSection4()
    ensures ExactPoleSection([-1189, -1189, 430], [0, -955, 322]) == 77
  {
  }

  lemma Update5()
    ensures Predict(BANDS[5], 3106, 17898, 13484) == BANDS[6]
  {
    hide Predict, Mul15, ExactPoles, ExactZeros, ExactZeroSum, ExactPoleSection, Ila, Scalel;
    PredictIsExact(BANDS[5], 3106, 17898, 13484);
    var d: seq<int16>, p: seq<int16>, r: seq<int16> := [3106, -1147, 422, -153, 54, -20, 0], [3162, -1165, 425],
        [3239, -1189, 430];
    assert BANDS[5].d[0 := 3106] == d && BANDS[5].p[0 := 3162] == p && BANDS[5].r[0 := 3239] == r;
    Zeros5();
    Poles5();
    ZeroSection5();
    PoleSection5();
    assert Delay(d) == [3106, 3106, -1147, 422, -153, 54, -20] && Delay(p) == [3162, 3162, -1165]
           && Delay(r) == [3239, 3239, -1189];
  }

  lemma Zeros5()
    ensures ExactZeros([3106, -1147, 422, -153, 54, -20, 0], [0, -637, 382, -383, 128, -128, -128])
            == [0, -763, 508, -510, 255, -256, 0]
  {
  }

  lemma Poles5()
    ensures ExactPoles([0, -955, 322], [3162, -1165, 425]) == [0, -1144, 417]
  {
  }

  lemma ZeroSection5()
    ensures ExactZeroSum([3106, 3106, -1147, 422, -153, 54, -20], [0, -763, 508, -510, 255, -256, 0], 6) == -199
  {
  }

  lemma PoleSection5()
    ensures ExactPoleSection([3239, 3239, -1189], [0, -1144, 417]) == -258
  {
  }

  // ----- the input of the low band -----

  const LOUD: int16 := 32767

  /** `k` pairs at full level. */
  function Loud(k: nat): (x: seq<int16>)
    ensures |x| == 2 * k
  {
    seq(2 * k, _ => LOUD)
  }

  /** The sums of the first taps of each phase. */
  const TAP_SUMS: seq<seq<int>> := [
    [0, 6, -16, 8, 72, -348, 1554, 9306, 7696, 8420, 8108, 8214, 8192],
    [0, -22, 84, -228, 496, -1114, 6638, 8540, 8120, 8184, 8208, 8186, 8192]
  ]

  /** The low band's samples for the seven pairs. */
  const LOW_SAMPLES: seq<int16> := [-16, 67, -220, 567, -1462, 8191, 16383]

  lemma TapDifference(phase: nat, n: nat)
    requires phase < 2 && n < 12
    ensures Tap(phase, n) as int == TAP_SUMS[phase][n + 1] - TAP_SUMS[phase][n]
  {
  }

  /** The sum of a phase whose newest `m` places hold the same sample, and the others silence. */
  lemma {:induction false} SteadyTapSum(line: seq<int16>, phase: nat, c: int16, m: nat, n: nat)
    requires |line| == 24 && phase < 2 && m <= 12 && n <= 12
    requires forall j :: 0 <= j < 12 ==> line[2 * j + phase] == if j < m then c else 0
    ensures TapSum(line, phase, n) == Times(c, TAP_SUMS[phase][if n <= m then n else m])
  {
    hide Tap, TapSum, Times;
    NextTapSum(line, phase, n);
    if n == 0 {
      TimesZero(c);
    } else {
      SteadyTapSum(line, phase, c, m, n - 1);
      if n <= m {
        TapDifference(phase, n - 1);
        TimesAdds(c, TAP_SUMS[phase][n - 1], Tap(phase, n - 1));
      } else {
        TimesZero(Tap(phase, n - 1));
      }
    }
  }

  lemma TimesZero(c: int)
    ensures Times(c, 0) == 0
  {
  }

  lemma TimesAdds(c: int, x: int, y: int)
    ensures Times(c, x) + Times(y, c) == Times(c, x + y)
  {
  }

  lemma LoudLine(k: nat)
    requires k <= 7
    ensures forall i :: 0 <= i < 24 ==> Line(Loud(k))[i] == if i < 2 * k then LOUD else 0
  {
  }

  lemma LoudSample(k: nat)
    requires k < 7
    ensures LowOutput(Line(Loud(k + 1))) == LOW_SAMPLES[k]
  {
    hide TapSum, Line;
    var line := Line(Loud(k + 1));
    LoudLine(k + 1);
    SteadyTapSum(line, 0, LOUD, k + 1, 12);
    SteadyTapSum(line, 1, LOUD, k + 1, 12);
  }

  // ----- the codes -----

  /** A difference beyond level 26 gets the outermost core. */
  lemma LoudCode(el: int16, det: int16)
    requires 0 <= det && Magnitude(el) >= Mul15(15840, det)
    ensures LowCode(el, det) / 4 == if el < 0 then 1 else 8
  {
    hide Level, Levels, Cell, CellCode, Magnitude, Threshold, Mul15;
    var c := Cell(el, det);
    CellBrackets(el, det);
    LevelTwentySix(det);
    LevelsMonotonic(if c <= 26 then c else 26, 26, det);
    if el < 0 {
      NegativeCode(c);
    } else {
      PositiveCode(c);
    }
  }

  lemma LevelTwentySix(det: int16)
    ensures Level(26, det) == Mul15(15840, det)
  {
    hide Level, Mul15;
    assert Threshold(26) == 15840;
  }

  lemma LoudNext(band: Band, il: int16, d0: int16, nb: int16)
    requires band.Shaped() && 0 <= il <= 63 && (il / 4 == 1 || il / 4 == 8)
    requires d0 == Mul15(band.det, if il / 4 == 8 then 20456 else -20456)
    requires nb == Clamp(Mul15(band.nb, 32512) + 3042, 0, 18432)
    ensures LowNext(band, il) == Predict(band, d0, nb, Scalel(nb))
  {
    hide Predict, Mul15, Scalel, Pow2;
  }

  /** An entry of `ila` by its row. */
  lemma {:induction false} IlaByRow(first: nat, row: nat, i: nat)
    requires first <= row <= 14 && 24 * row + i < 353
    ensures IlaFrom(first, 24 * (row - first) + i) == IlaFrom(row, i)
    decreases row - first
  {
    hide IlaFrom;
    if first < row {
      IlaNextRow(first, 24 * (row - first) + i);
      IlaByRow(first + 1, row, i);
    }
  }

  lemma IlaNextRow(first: nat, i: nat)
    requires first < 14 && i >= 24 && 24 * first + i < 353
    ensures IlaFrom(first, i) == IlaFrom(first + 1, i - 24)
  {
    hide Ila0, Ila1, Ila2, Ila3, Ila4, Ila5, Ila6, Ila7, Ila8, Ila9, Ila10, Ila11, Ila12, Ila13, Ila14;
  }

  lemma Next0(il: int16)
    requires 0 <= il <= 63 && il / 4 == 1
    ensures LowNext(BANDS[0], il) == BANDS[1]
  {
    hide Predict, Scalel, LowNext;
    LoudNext(BANDS[0], il, -20, 3042);
    Scale0();
    Update0();
  }

  lemma Scale0()
    ensures Scalel(3042) == 88
  {
    assert IlaIndex(3042) == 47;
    IlaByRow(0, 4, 15);
    assert IlaFrom(4, 15) == 21;
  }

  lemma Next1(il: int16)
    requires 0 <= il <= 63 && il / 4 == 8
    ensures LowNext(BANDS[1], il) == BANDS[2]
  {
    hide Predict, Scalel, LowNext;
    LoudNext(BANDS[1], il, 54, 6060);
    Scale1();
    Update1();
  }

  lemma Scale1()
    ensures Scalel(6060) == 244
  {
    assert IlaIndex(6060) == 94;
    IlaByRow(0, 6, 14);
    assert IlaFrom(6, 14) == 60;
  }

  lemma Next2(il: int16)
    requires 0 <= il <= 63 && il / 4 == 1
    ensures LowNext(BANDS[2], il) == BANDS[3]
  {
    hide Predict, Scalel, LowNext;
    LoudNext(BANDS[2], il, -153, 9054);
    Scale2();
    Update2();
  }

  lemma Scale2()
    ensures Scalel(9054) == 676
  {
    assert IlaIndex(9054) == 141;
    IlaByRow(0, 8, 13);
    assert IlaFrom(8, 13) == 168;
  }

  lemma Next3(il: int16)
    requires 0 <= il <= 63 && il / 4 == 8
    ensures LowNext(BANDS[3], il) == BANDS[4]
  {
    hide Predict, Scalel, LowNext;
    LoudNext(BANDS[3], il, 422, 12025);
    Scale3();
    Update3();
  }

  lemma Scale3()
    ensures Scalel(12025) == 1836
  {
    assert IlaIndex(12025) == 187;
    IlaByRow(0, 10, 11);
    assert IlaFrom(10, 11) == 458;
  }

  lemma Next4(il: int16)
    requires 0 <= il <= 63 && il / 4 == 1
    ensures LowNext(BANDS[4], il) == BANDS[5]
  {
    hide Predict, Scalel, LowNext;
    LoudNext(BANDS[4], il, -1147, 14973);
    Scale4();
    Update4();
  }

  lemma Scale4()
    ensures Scalel(14973) == 4976
  {
    assert IlaIndex(14973) == 233;
    IlaByRow(0, 12, 9);
    assert IlaFrom(12, 9) == 1243;
  }

  lemma Next5(il: int16)
    requires 0 <= il <= 63 && il / 4 == 8
    ensures LowNext(BANDS[5], il) == BANDS[6]
  {
    hide Predict, Scalel, LowNext;
    LoudNext(BANDS[5], il, 3106, 17898);
    Scale5();
    Update5();
  }

  lemma Scale5()
    ensures Scalel(17898) == 13484
  {
    assert IlaIndex(17898) == 279;
    IlaByRow(0, 14, 7);
    assert IlaFrom(14, 7) == 3370;
  }

  lemma Next(k: nat, il: int16)
    requires k < 6 && 0 <= il <= 63 && il / 4 == if LOW_SAMPLES[k] < 0 then 1 else 8
    ensures LowNext(BANDS[k], il) == BANDS[k + 1]
  {
    hide LowNext;
    match k {
      case 0 => Next0(il);
      case 1 => Next1(il);
      case 2 => Next2(il);
      case 3 => Next3(il);
      case 4 => Next4(il);
      case _ => Next5(il);
    }
  }

  /** Every pair of the seven gets the outermost core. */
  lemma LoudInput(k: nat)
    requires k < 7
    ensures LowInput(BANDS[k], LOW_SAMPLES[k]) / 4 == if LOW_SAMPLES[k] < 0 then 1 else 8
  {
    hide LowCode;
    LoudCode(SaturateSubtractShort(LOW_SAMPLES[k], BANDS[k].s), BANDS[k].det);
  }

  /** The low band after `k` pairs at full level. */
  function LowAfter(k: nat): (band: Band)
    ensures band.Shaped()
  {
    Run(FreshState(), Loud(k)).low
  }

  /** What one more pair at full level does to the low band. */
  lemma LoudStep(k: nat)
    requires k < 7
    ensures LowAfter(k + 1) == LowNext(LowAfter(k), LowInput(LowAfter(k), LOW_SAMPLES[k]))
  {
    hide Run, Line, LowNext, LowInput, LowOutput, HighOutput, FreshState, CodesOf;
    var st, x := FreshState(), Loud(k);
    FreshIsInitial();
    assert Loud(k + 1) == x + [LOUD, LOUD];
    LastPair(st, x, LOUD, LOUD);
    CodesQuantizeConvolution(st, x, LOUD, LOUD);
    LoudSample(k);
  }

  lemma FreshIsInitial()
    ensures Initial(FreshState())
  {
  }

  lemma {:induction false} LoudBands(k: nat)
    requires k <= 6
    ensures LowAfter(k) == BANDS[k]
  {
    hide LowNext, LowInput, LowCode, LowAfter;
    if k == 0 {
      LoudStart();
    } else {
      LoudBands(k - 1);
      LoudStep(k - 1);
      LoudInput(k - 1);
      Next(k - 1, LowInput(BANDS[k - 1], LOW_SAMPLES[k - 1]));
    }
  }

  lemma LoudStart()
    ensures LowAfter(0) == BANDS[0]
  {
    assert Loud(0) == [];
  }

  /** The low band's log scale factor reaches its upper bound, and with it the last entry of `ila`. */
  lemma UpperBoundIsReached()
    ensures LowAfter(7).nb == 18432 && IlaIndex(LowAfter(7).nb) + 64 == 352 && LowAfter(7).det == 16384
  {
    hide LowNext, LowInput, LowCode, LowAfter, Predict, Scalel;
    LoudBands(6);
    LoudStep(6);
    LoudInput(6);
    LoudNext(BANDS[6], LowInput(BANDS[6], LOW_SAMPLES[6]), 8417, 18432);
    LastScale();
    PredictKeeps(BANDS[6], 8417, 18432, 16384);
  }

  lemma LastScale()
    ensures Scalel(18432) == 16384
  {
    assert IlaIndex(18432) == 288;
    IlaByRow(0, 14, 16);
    assert IlaFrom(14, 16) == 4095;
  }

  lemma PredictKeeps(band: Band, d0: int16, nb: int16, det: int16)
    requires band.Shaped()
    ensures Predict(band, d0, nb, det).nb == nb && Predict(band, d0, nb, det).det == det
  {
  }
}

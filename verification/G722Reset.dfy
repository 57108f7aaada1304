/** What `ResetBand` leaves behind, and when it matters. */
module G722Reset {
  import opened Ints
  import opened FixedPoint
  import opened G722Quantizers
  import opened G722Bands
  import opened G722Qmf
  import opened G722Runs
  import opened G722Reference
  import opened G722Accuracy

  // ----- one band -----

  /** The value that the first `Uppol2` after a reset stores, for either sign of the new sample. */
  function FirstPole2(a2: int16, p2: int16, negative: bool): int {
    Clamp((if negative == (p2 < 0) then 128 else -128) + Mul15(a2, 32512), -12288, 12288)
  }

  lemma FirstPolesAfterReset(a2: int16, p2: int16, p0: int16)
    ensures Poles([0, 0, a2], [p0, 0, p2])[2] == FirstPole2(a2, p2, p0 < 0)
  {
    hide Pole1, Pole2, ExactPole1;
    PolesAreExact([0, 0, a2], [p0, 0, p2]);
  }

  lemma PolesAfterResetAgree(a2: int16, p2: int16, a2': int16, p2': int16, p0: int16)
    ensures Poles([0, 0, a2], [p0, 0, p2]) == Poles([0, 0, a2'], [p0, 0, p2'])
            <==> FirstPole2(a2, p2, p0 < 0) == FirstPole2(a2', p2', p0 < 0)
  {
    hide ExactPole2;
    FirstPolesAfterReset(a2, p2, p0);
    FirstPolesAfterReset(a2', p2', p0);
    PolesAreExact([0, 0, a2], [p0, 0, p2]);
    PolesAreExact([0, 0, a2'], [p0, 0, p2']);
  }

  /** The histories that the first update after a reset works on. */
  lemma HistoriesAfterReset(d0: int16, p2: int16, r2: int16)
    ensures [0, 0, p2][0 := SaturateAddShort(d0, 0)] == [d0, 0, p2]
    ensures Delay([d0, 0, p2]) == [d0, d0, 0]
    ensures Delay([0, 0, r2][0 := SaturateAddShort(0, d0)]) == [d0, d0, 0]
  {
  }

  /** Only the updated second coefficient carries what a reset left over into the next band. */
  lemma PredictAfterReset(a2: int16, p2: int16, r2: int16, a2': int16, p2': int16, r2': int16,
                          start: int16, d0: int16, nb: int16, det: int16)
    ensures Predict(ResetBandValue(start, a2, p2, r2), d0, nb, det)
            == Predict(ResetBandValue(start, a2', p2', r2'), d0, nb, det)
            <==> FirstPole2(a2, p2, d0 < 0) == FirstPole2(a2', p2', d0 < 0)
  {
    hide ZeroCoefficients, ZeroSection, Poles, PoleSection, Delay, SaturateAddShort, FirstPole2;
    HistoriesAfterReset(d0, p2, r2);
    HistoriesAfterReset(d0, p2', r2');
    PolesAfterResetAgree(a2, p2, a2', p2', d0);
  }

  /** The leftovers that two resets can have without any later difference. */
  predicate SameLeftovers(band: Band, band': Band)
    requires band.Shaped() && band'.Shaped()
  {
    var m, m' := Mul15(band.a[2], 32512), Mul15(band'.a[2], 32512);
    || (m >= 12416 && m' >= 12416)
    || (m <= -12416 && m' <= -12416)
    || (m == m' && (band.p[2] < 0) == (band'.p[2] < 0))
  }

  predicate SameFirstPole(band: Band, band': Band, negative: bool)
    requires band.Shaped() && band'.Shaped()
  {
    FirstPole2(band.a[2], band.p[2], negative) == FirstPole2(band'.a[2], band'.p[2], negative)
  }

  lemma SameLeftoversSamePoles(band: Band, band': Band)
    requires band.Shaped() && band'.Shaped()
    ensures SameLeftovers(band, band') <==> SameFirstPole(band, band', false) && SameFirstPole(band, band', true)
  {
  }

  // ----- the first difference -----

  /** The sign of the difference that a first sample gives, in either band. */
  lemma FirstDifferences(xl: int16, xh: int16)
    ensures xl >= 0 ==> Invqal(LowCode(xl, 32), 32) >= 0
    ensures xl == -28 ==> Invqal(LowCode(xl, 32), 32) < 0
    ensures Invqah(Quanth(xh, 8), 8) < 0 <==> xh < 0
  {
    hide Invqal, Invqah, Quanth, Cell, Level, Levels, Search, CellCode, Brackets, Magnitude, Threshold;
    var c := Cell(xl, 32);
    CodeCore(xl < 0, c);
    CellBrackets(xl, 32);
    if xl == -28 {
      LastLevels(c);
    }
  }

  /** The magnitude 27 lies beyond the levels of the inner cells. */
  lemma LastLevels(c: nat)
    requires Brackets(27, 32, c)
    ensures c == 30
  {
    hide Level;
    BracketsRange(27, 32, c);
    LevelsMonotonic(if c < 30 then c else 29, 29, 32);
    assert Level(29, 32) == Mul15(Threshold(29), 32);
  }

  // ----- the first pair -----

  /** Only the two newest samples contribute. */
  lemma {:induction false} TapSumOfPair(line: seq<int16>, phase: nat, n: nat)
    requires |line| == 24 && phase < 2 && n <= 12
    requires forall k :: 2 <= k < 24 ==> line[k] == 0
    ensures TapSum(line, phase, n) == if n == 0 then 0 else Times(if phase == 0 then 6 else -22, line[phase])
  {
    hide TapSum, Tap;
    NextTapSum(line, phase, n);
    if n > 0 {
      TapSumOfPair(line, phase, n - 1);
      FirstTaps();
      assert n > 1 ==> Times(Tap(phase, n - 1), 0) == 0;
    }
  }

  lemma FirstTaps()
    ensures Tap(0, 0) == 6 && Tap(1, 0) == -22
  {
  }

  lemma FirstOutputs(line: seq<int16>)
    requires |line| == 24 && forall k :: 2 <= k < 24 ==> line[k] == 0
    ensures LowOutput(line) == Component(6 * line[0] as int - 22 * line[1] as int)
    ensures HighOutput(line) == Component(6 * line[0] as int + 22 * line[1] as int)
  {
    hide TapSum, Component;
    TapSumOfPair(line, 0, 12);
    TapSumOfPair(line, 1, 12);
  }

  lemma SilentLine()
    ensures forall k :: 0 <= k < 22 ==> Line([])[..22][k] == 0
  {
  }

  /** The outputs of the first pair after a reset. */
  function FirstXl(xin1: int16, xin0: int16): int16 {
    Component(6 * xin0 as int - 22 * xin1 as int)
  }

  function FirstXh(xin1: int16, xin0: int16): int16 {
    Component(6 * xin0 as int + 22 * xin1 as int)
  }

  /** The codes of the first pair do not depend on what a reset left over. */
  lemma FirstCodes(st: State, xin1: int16, xin0: int16)
    requires Initial(st)
    ensures CodesOf(st, xin1, xin0) == Codes(LowCode(FirstXl(xin1, xin0), 32), Quanth(FirstXh(xin1, xin0), 8))
  {
    hide LowOutput, HighOutput, Component, LowCode, Quanth, Line;
    SilentLine();
    FirstOutputs([xin0, xin1] + st.line);
    assert SaturateSubtractShort(FirstXl(xin1, xin0), 0) == FirstXl(xin1, xin0);
    assert SaturateSubtractShort(FirstXh(xin1, xin0), 0) == FirstXh(xin1, xin0);
  }

  /** Whether the first differences of a pair are negative, in the low and in the high band. */
  predicate LowFalls(xin1: int16, xin0: int16) {
    Invqal(LowCode(FirstXl(xin1, xin0), 32), 32) < 0
  }

  predicate HighFalls(xin1: int16, xin0: int16) {
    Invqah(Quanth(FirstXh(xin1, xin0), 8), 8) < 0
  }

  /** The first step after a reset updates both bands' second coefficients alike. */
  predicate SameFirstPoles(st: State, st': State, xin1: int16, xin0: int16)
    requires st.Shaped() && st'.Shaped()
  {
    SameFirstPole(st.low, st'.low, LowFalls(xin1, xin0)) && SameFirstPole(st.high, st'.high, HighFalls(xin1, xin0))
  }

  lemma FirstStep(st: State, st': State, xin1: int16, xin0: int16)
    requires Initial(st) && Initial(st')
    ensures Step(st, xin1, xin0) == Step(st', xin1, xin0)
            <==> SameFirstPoles(st, st', xin1, xin0)
  {
    hide Predict, Invqal, Invqah, LowCode, Quanth, FirstXl, FirstXh, FirstPole2, CodesOf, Logscl, Logsch, Scalel;
    hide Scaleh;
    hide ResetBandValue, Line;
    FirstCodes(st, xin1, xin0);
    FirstCodes(st', xin1, xin0);
    var c := CodesOf(st, xin1, xin0);
    var l, l', h, h' := st.low, st'.low, st.high, st'.high;
    StartOfReset(32, l.a[2], l.p[2], l.r[2]);
    StartOfReset(32, l'.a[2], l'.p[2], l'.r[2]);
    StartOfReset(8, h.a[2], h.p[2], h.r[2]);
    StartOfReset(8, h'.a[2], h'.p[2], h'.r[2]);
    var nl, nh := Logscl(c.il, 0), Logsch(c.ih, 0);
    PredictAfterReset(l.a[2], l.p[2], l.r[2], l'.a[2], l'.p[2], l'.r[2], 32, Invqal(c.il, 32), nl, Scalel(nl));
    PredictAfterReset(h.a[2], h.p[2], h.r[2], h'.a[2], h'.p[2], h'.r[2], 8, Invqah(c.ih, 8), nh, Scaleh(nh));
  }

  lemma StartOfReset(start: int16, a2: int16, p2: int16, r2: int16)
    ensures var band := ResetBandValue(start, a2, p2, r2); band.nb == 0 && band.det == start
  {
  }

  /** Silence gives two differences that are not negative; each band has a pair that gives a negative one. */
  lemma ProbingPairs()
    ensures !LowFalls(0, 0) && !HighFalls(0, 0)
    ensures LowFalls(32767, -32768) && HighFalls(-32768, -32768)
  {
    hide Invqal, Invqah, LowCode, Quanth;
    FirstDifferences(FirstXl(0, 0), FirstXh(0, 0));
    FirstDifferences(FirstXl(32767, -32768), FirstXh(32767, -32768));
    FirstDifferences(FirstXl(-32768, -32768), FirstXh(-32768, -32768));
  }

  /** No first pair, and then no run, tells two encoders apart. */
  ghost predicate SameSteps(st: State, st': State)
    requires st.Shaped() && st'.Shaped()
  {
    forall xin1: int16, xin0: int16 :: Step(st, xin1, xin0) == Step(st', xin1, xin0)
  }

  ghost predicate SameRuns(st: State, st': State)
    requires st.Shaped() && st'.Shaped()
  {
    forall x: seq<int16> :: |x| % 2 == 0 && |x| > 0 ==> Run(st, x) == Run(st', x)
  }

  /**
   * `ResetBand` skips the last slot of three histories in each band. Two reset encoders are in
   * the same state after every first pair exactly when what is left in these slots agrees this far.
   */
  lemma ResetForgetsExactly(st: State, st': State)
    requires Initial(st) && Initial(st')
    ensures SameSteps(st, st') <==> SameLeftovers(st.low, st'.low) && SameLeftovers(st.high, st'.high)
  {
    hide Step, SameLeftovers, SameFirstPole, LowFalls, HighFalls, ResetBandValue, Line;
    SameLeftoversSamePoles(st.low, st'.low);
    SameLeftoversSamePoles(st.high, st'.high);
    forall xin1: int16, xin0: int16
      ensures Step(st, xin1, xin0) == Step(st', xin1, xin0)
              <==> SameFirstPoles(st, st', xin1, xin0)
    {
      FirstStep(st, st', xin1, xin0);
    }
    ProbingPairs();
    if SameSteps(st, st') {
      assert Step(st, 0, 0) == Step(st', 0, 0);
      assert Step(st, 32767, -32768) == Step(st', 32767, -32768);
      assert Step(st, -32768, -32768) == Step(st', -32768, -32768);
    }
  }

  lemma RunOfPair(st: State, x: seq<int16>)
    requires st.Shaped() && |x| == 2
    ensures Run(st, x) == Step(st, x[0], x[1])
  {
    hide Step;
    assert x[..0] == [];
  }

  lemma {:induction false} SameStepsSameRun(st: State, st': State, x: seq<int16>)
    requires st.Shaped() && st'.Shaped() && SameSteps(st, st')
    requires |x| % 2 == 0 && |x| > 0
    ensures Run(st, x) == Run(st', x)
  {
    hide Step;
    if |x| == 2 {
      hide Run;
      RunOfPair(st, x);
      RunOfPair(st', x);
    } else {
      SameStepsSameRun(st, st', x[..|x| - 2]);
    }
  }

  lemma SameRunsSameStep(st: State, st': State, xin1: int16, xin0: int16)
    requires st.Shaped() && st'.Shaped() && SameRuns(st, st')
    ensures Step(st, xin1, xin0) == Step(st', xin1, xin0)
  {
    hide Step, Run;
    var x: seq<int16> := [xin1, xin0];
    RunOfPair(st, x);
    RunOfPair(st', x);
    assert Run(st, x) == Run(st', x);
  }

  /** And then, and only then, no run can tell them apart. */
  lemma ResetForgetsOverRuns(st: State, st': State)
    requires Initial(st) && Initial(st')
    ensures SameRuns(st, st') <==> SameLeftovers(st.low, st'.low) && SameLeftovers(st.high, st'.high)
  {
    hide Step, SameLeftovers, ResetBandValue, Line, Run;
    ResetForgetsExactly(st, st');
    if SameSteps(st, st') {
      forall x: seq<int16> | |x| % 2 == 0 && |x| > 0
        ensures Run(st, x) == Run(st', x)
      {
        SameStepsSameRun(st, st', x);
      }
    }
    if SameRuns(st, st') {
      forall xin1: int16, xin0: int16
        ensures Step(st, xin1, xin0) == Step(st', xin1, xin0)
      {
        SameRunsSameStep(st, st', xin1, xin0);
      }
    }
  }

  /** A fresh state with this value left over in the history of the low band. */
  function StateWith(p2: int16): (st: State)
    ensures Initial(st)
  {
    State(ResetBandValue(32, 0, p2, 0), ResetBandValue(8, 0, 0, 0), Line([])[..22])
  }

  /** Two reset encoders that some input tells apart: one was reset after a negative sample. */
  lemma ResetCanBeSeen()
    ensures !SameRuns(StateWith(0), StateWith(-1))
  {
    hide SameLeftovers, SameRuns, StateWith;
    LeftoversDiffer();
    ResetForgetsOverRuns(StateWith(0), StateWith(-1));
  }

  lemma LeftoversDiffer()
    ensures !SameLeftovers(StateWith(0).low, StateWith(-1).low)
  {
  }
}

/** What holds of the encoder over whole runs, for every input. */
module G722Theorems {
  import opened Ints
  import opened FixedPoint
  import opened G722Tables
  import opened G722Quantizers
  import opened G722Bands
  import opened G722Qmf
  import opened G722Runs
  import opened G722Reference
  import opened G722Accuracy

  predicate Tame(st: State) {
    st.Shaped() && LowTame(st.low) && HighTame(st.high)
  }

  /** A fresh encoder whose leftover slots happen to be zero. */
  function FreshState(): (st: State)
    ensures Tame(st)
  {
    State(ResetBandValue(32, 0, 0, 0), ResetBandValue(8, 0, 0, 0), Line([])[..22])
  }

  /** The states from which the fixed-point encoder is exact. */
  type TameState = st: State | Tame(st) witness FreshState()

  predicate StablePoles(st: State) {
    PolesStable(st.low) && PolesStable(st.high)
  }

  lemma InitialIsTame(st: State)
    requires Initial(st)
    ensures Tame(st)
  {
  }

  // ----- the exact encoder -----

  function Size(e: int): nat {
    if e >= 0 then e else -1 - e
  }

  /** The cell of the low-band quantiser is the number of decision levels that the difference reaches. */
  function ExactLowCode(xl: int16, s: int16, det: int16): (il: int16)
    requires 0 <= det
    ensures 4 <= il <= 63
  {
    var el: int16 := Clamp(xl - s, MIN_16, MAX_16);
    CellCountsLevels(el, det);
    CellCode(el < 0, LevelsReached(Size(el), det, 30))
  }

  function ExactHighCode(xh: int16, s: int16, det: int16): (ih: int16)
    ensures 0 <= ih <= 3
  {
    var eh := Clamp(xh - s, MIN_16, MAX_16);
    (if eh >= 0 then 2 else 0) + if Size(eh) < Mul15(4512, det) then 1 else 0
  }

  lemma LowInputIsExact(band: Band, xl: int16)
    requires LowTame(band)
    ensures LowInput(band, xl) == ExactLowCode(xl, band.s, band.det)
  {
    hide Search, LevelsReached, CellCode, Level, Cell, Scalel;
    CellCountsLevels(SaturateSubtractShort(xl, band.s), band.det);
  }

  lemma HighInputIsExact(band: Band, xh: int16)
    ensures HighInput(band, xh) == ExactHighCode(xh, band.s, band.det)
  {
    hide Quanth;
  }

  function ExactCodes(st: TameState, xin1: int16, xin0: int16): (c: Codes)
    ensures c.InRange()
  {
    var line := [xin0, xin1] + st.line;
    Codes(ExactLowCode(LowOutput(line), st.low.s, st.low.det), ExactHighCode(HighOutput(line), st.high.s, st.high.det))
  }

  lemma ExactNextsAreTame(st: TameState, c: Codes)
    requires c.InRange()
    ensures LowTame(ExactLowNext(st.low, c.il)) && HighTame(ExactHighNext(st.high, c.ih))
  {
    hide LowTame, HighTame, ExactLowNext, ExactHighNext;
    LowNextIsExact(st.low, c.il);
    HighNextIsExact(st.high, c.ih);
  }

  function ExactStep(st: TameState, xin1: int16, xin0: int16): (next: TameState)
  {
    var c := ExactCodes(st, xin1, xin0);
    ExactNextsAreTame(st, c);
    State(ExactLowNext(st.low, c.il), ExactHighNext(st.high, c.ih), [xin0, xin1] + st.line[..20])
  }

  lemma CodesAreExact(st: TameState, xin1: int16, xin0: int16)
    ensures CodesOf(st, xin1, xin0) == ExactCodes(st, xin1, xin0)
  {
    hide LowOutput, HighOutput, LowInput, HighInput, ExactLowCode, ExactHighCode, Scalel;
    var line := [xin0, xin1] + st.line;
    LowInputIsExact(st.low, LowOutput(line));
    HighInputIsExact(st.high, HighOutput(line));
  }

  /** One sample pair of the fixed-point encoder is one of the exact encoder, and its poles are stable. */
  lemma StepIsExact(st: TameState, xin1: int16, xin0: int16)
    ensures Step(st, xin1, xin0) == ExactStep(st, xin1, xin0)
    ensures StablePoles(ExactStep(st, xin1, xin0))
  {
    hide LowNext, HighNext, ExactLowNext, ExactHighNext, CodesOf, ExactCodes, LowTame, HighTame, PolesStable;
    CodesAreExact(st, xin1, xin0);
    var c := CodesOf(st, xin1, xin0);
    LowNextIsExact(st.low, c.il);
    HighNextIsExact(st.high, c.ih);
  }

  function ExactRun(st: TameState, x: seq<int16>): (last: TameState)
    requires |x| % 2 == 0
  {
    if |x| == 0 then st else ExactStep(ExactRun(st, x[..|x| - 2]), x[|x| - 2], x[|x| - 1])
  }

  // ----- the main results over runs -----

  /**
   * Over every run the fixed-point encoder goes through the states of the exact one:
   * no product wraps and nothing saturates but at the clamps of the exact encoder.
   * From the first pair on, the poles of both predictors are stable.
   */
  lemma {:induction false} RunIsExact(st: TameState, x: seq<int16>)
    requires |x| % 2 == 0
    ensures Run(st, x) == ExactRun(st, x) && Tame(Run(st, x))
    ensures |x| > 0 ==> StablePoles(Run(st, x))
  {
    hide Step, LowTame, HighTame, StablePoles, ExactStep;
    if |x| > 0 {
      var n := |x| - 2;
      RunIsExact(st, x[..n]);
      StepIsExact(Run(st, x[..n]), x[n], x[n + 1]);
    }
  }

  /** Every product of the last sample, and those that the scale factors enter next, are exact. */
  ghost predicate ProductsAreExact(band: Band)
    requires band.Shaped()
  {
    && (forall q: int16 :: ScaledMult(band.det, q) == Mul15(band.det, q))
    && (forall q: int16 :: ScaledMult(q, band.det) == Mul15(q, band.det))
    && (forall q: int16 :: ScaledMult(band.nb, q) == Mul15(band.nb, q))
    && (forall i :: 1 <= i < 3 ==> ExactProduct(band.a[i], Twice(band.r[i])))
    && (forall i :: 1 <= i < 7 ==> ExactProduct(Twice(band.d[i]), band.b[i]))
  }

  function Twice(x: int16): int16 {
    SaturateAddShort(x, x)
  }

  predicate ExactProduct(x: int16, y: int16) {
    ScaledMult(x, y) == Mul15(x, y)
  }

  lemma RangesMakeExact(band: Band, limit: int)
    requires band.Shaped() && Stable(band.a[1], band.a[2]) && DifferencesInRange(band.d, limit) && limit <= 16383
    requires band.nb >= 0 && band.det >= 0
    ensures ProductsAreExact(band)
  {
    hide ScaledMult, Mul15;
    forall i | 1 <= i < 3
      ensures ExactProduct(band.a[i], Twice(band.r[i]))
    {
      assert band.a[i] != MIN_16;
    }
    forall i | 1 <= i < 7
      ensures ExactProduct(Twice(band.d[i]), band.b[i])
    {
      assert Twice(band.d[i]) != MIN_16;
    }
  }

  /** No product wraps: over every run, and whatever a quantiser table contributes. */
  lemma NoProductWraps(st: TameState, x: seq<int16>)
    requires |x| % 2 == 0 && |x| > 0
    ensures ProductsAreExact(Run(st, x).low) && ProductsAreExact(Run(st, x).high)
  {
    hide Run, ExactRun, ProductsAreExact;
    RunIsExact(st, x);
    RangesMakeExact(Run(st, x).low, LOW_LIMIT);
    RangesMakeExact(Run(st, x).high, HIGH_LIMIT);
  }

  /** Stability over every run of a fresh or reset encoder, whatever the slots that `ResetBand` leaves alone. */
  lemma EncoderIsStable(st: State, x: seq<int16>)
    requires Initial(st) && |x| % 2 == 0 && |x| > 0
    ensures var a := Run(st, x).low.a; Stable(a[1], a[2])
    ensures var a := Run(st, x).high.a; Stable(a[1], a[2])
  {
    hide Run, ExactRun, LowTame, HighTame;
    InitialIsTame(st);
    RunIsExact(st, x);
  }

  lemma ScaleAtReset()
    ensures Scalel(0) == 32 && Scaleh(0) == 8
  {
    assert IlaIndex(0) == 0;
  }

  /** The linear scale factors are the antilogarithms of the log ones. */
  predicate ScalesAgree(st: State) {
    && 0 <= st.low.nb <= NBL_MAX && st.low.det == Scalel(st.low.nb)
    && 0 <= st.high.nb <= NBH_MAX && st.high.det == Scaleh(st.high.nb)
  }

  lemma ScalesAgreeOverRuns(st: State, x: seq<int16>)
    requires Initial(st) && |x| % 2 == 0
    ensures ScalesAgree(Run(st, x))
  {
    hide Logscl, Logsch, Invqal, Invqah, Scalel, Scaleh, CodesOf;
    if |x| == 0 {
      ScaleAtReset();
    }
  }

  /** The ranges of all adaptive quantities of the low band over every run. */
  lemma LowRangesOverRuns(st: State, x: seq<int16>)
    requires Initial(st) && |x| % 2 == 0
    ensures var low := Run(st, x).low;
      && 0 <= low.nb <= 18432 && low.det == Scalel(low.nb) && 32 <= low.det <= 16384
      && 64 <= IlaIndex(low.nb) + 64 <= 352
      && (forall i :: 1 <= i < 7 ==> -32768 <= low.b[i] <= 32513)
      && (forall i :: 0 <= i < 7 ==> -10228 <= low.d[i] <= 10228)
  {
    hide Run, ExactRun, HighTame, Ila, Antilog, Scalel, Scaleh;
    InitialIsTame(st);
    RunIsExact(st, x);
    ScalesAgreeOverRuns(st, x);
  }

  lemma HighRangesOverRuns(st: State, x: seq<int16>)
    requires Initial(st) && |x| % 2 == 0
    ensures var high := Run(st, x).high;
      && 0 <= high.nb <= 22528 && high.det == Scaleh(high.nb) && 8 <= high.det <= 16384
      && 0 <= IlaIndex(high.nb) <= 352
      && (forall i :: 1 <= i < 7 ==> -32768 <= high.b[i] <= 32513)
      && (forall i :: 0 <= i < 7 ==> -3704 <= high.d[i] <= 3704)
  {
    hide Run, ExactRun, LowTame, Ila, Antilog, Scalel, Scaleh;
    InitialIsTame(st);
    RunIsExact(st, x);
    ScalesAgreeOverRuns(st, x);
  }

  /** In every reachable state the rebuilt low-band difference is within one core cell of the true one. */
  lemma ErrorOverRuns(st: State, x: seq<int16>, el: int16)
    requires Initial(st) && |x| % 2 == 0
    ensures var det := Run(st, x).low.det;
      && Brackets(Magnitude(el), det, Cell(el, det))
      && (Cell(el, det) < 30 || Magnitude(el) < Level(30, det) ==>
            var width := CoreWidth(CoreOf(Cell(el, det)), det);
            -width <= Invqal(LowCode(el, det), det) - el <= width)
  {
    hide Run, Cell, Brackets, CoreWidth, Invqal, LowCode, Level, Scalel, Ila, Antilog;
    LowRangesOverRuns(st, x);
    var det := Run(st, x).low.det;
    CellBrackets(el, det);
    if Cell(el, det) < 30 || Magnitude(el) < Level(30, det) {
      LowQuantizerError(el, det);
    }
  }

  /** In every reachable state the high band's codes are fixed points of rebuilding and quantising. */
  lemma HighCodesOverRuns(st: State, x: seq<int16>, ih: int16, eh: int16)
    requires Initial(st) && |x| % 2 == 0 && 0 <= ih <= 3
    ensures var det := Run(st, x).high.det;
      && Quanth(Invqah(ih, det), det) == ih
      && (Magnitude(eh) < Mul15(4512, det) ==>
            -Mul15(4512, det) <= Invqah(Quanth(eh, det), det) - eh <= Mul15(4512, det))
  {
    hide Run, Quanth, Invqah, Mul15, Scaleh, Ila, Antilog;
    HighRangesOverRuns(st, x);
    var det := Run(st, x).high.det;
    HighRequantizes(ih, det);
    if Magnitude(eh) < Mul15(4512, det) {
      HighQuantizerError(eh, det);
    }
  }

  // ----- the filter over runs -----

  /** Between pairs the delay line holds the last twenty-two samples of the whole input. */
  lemma {:induction false} LineOverRuns(st: State, x: seq<int16>)
    requires Initial(st) && |x| % 2 == 0
    ensures Run(st, x).line == Line(x)[..22]
  {
    hide LowNext, HighNext, CodesOf, Line;
    if |x| > 0 {
      var n := |x| - 2;
      LineOverRuns(st, x[..n]);
      LineAfterPair(x[..n], x[n], x[n + 1]);
      assert x == x[..n] + [x[n], x[n + 1]];
    }
  }

  /**
   * Both coders are fed the two outputs of the exact convolution of the whole input:
   * the codes of the last pair of `x` quantise them against the predictions so far.
   */
  lemma CodesQuantizeConvolution(st: State, x: seq<int16>, xin1: int16, xin0: int16)
    requires Initial(st) && |x| % 2 == 0
    ensures var before := Run(st, x);
      var line := Line(x + [xin1, xin0]);
      CodesOf(before, xin1, xin0)
      == Codes(LowInput(before.low, LowOutput(line)), HighInput(before.high, HighOutput(line)))
  {
    hide Run, Line, LowInput, HighInput, LowOutput, HighOutput;
    LineOverRuns(st, x);
    LineAfterPair(x, xin1, xin0);
  }

  // ----- packets -----

  /** A run over two packets is a run over the first, continued over the second. */
  lemma {:induction false} RunAcrossPackets(st: State, x: seq<int16>, y: seq<int16>)
    requires st.Shaped() && |x| % 2 == 0 && |y| % 2 == 0
    ensures Run(st, x + y) == Run(Run(st, x), y)
    ensures Emitted(st, x + y) == Emitted(st, x) + Emitted(Run(st, x), y)
  {
    hide Step, CodesOf, Run, Emitted;
    if |y| == 0 {
      assert x + y == x;
      EmptyRun(Run(st, x));
      assert Emitted(st, x) + [] == Emitted(st, x);
    } else {
      var n := |y| - 2;
      var front, a, b := y[..n], y[n], y[n + 1];
      assert y == front + [a, b];
      assert x + y == (x + front) + [a, b];
      RunAcrossPackets(st, x, front);
      LastPair(st, x + front, a, b);
      LastPair(Run(st, x), front, a, b);
    }
  }
}

/** The encoder as a function of its state and its input, sample pair by sample pair. */
module G722Runs {
  import opened Ints
  import opened FixedPoint
  import opened G722Quantizers
  import opened G722Bands
  import opened G722Qmf

  /** `line` is the part of the delay line that survives a sample pair. */
  datatype State = State(low: Band, high: Band, line: seq<int16>) {
    predicate Shaped() {
      low.Shaped() && high.Shaped() && |line| == 22
    }
  }

  /** The two codes of one sample pair. */
  datatype Codes = Codes(il: int16, ih: int16) {
    predicate InRange() {
      4 <= il <= 63 && 0 <= ih <= 3
    }
  }

  function LowInput(band: Band, xl: int16): (il: int16)
    ensures 4 <= il <= 63
  {
    LowCode(SaturateSubtractShort(xl, band.s), band.det)
  }

  function HighInput(band: Band, xh: int16): (ih: int16)
    ensures 0 <= ih <= 3
  {
    Quanth(SaturateSubtractShort(xh, band.s), band.det)
  }

  function CodesOf(st: State, xin1: int16, xin0: int16): (c: Codes)
    requires st.Shaped()
    ensures c.InRange()
  {
    var line := [xin0, xin1] + st.line;
    Codes(LowInput(st.low, LowOutput(line)), HighInput(st.high, HighOutput(line)))
  }

  function Step(st: State, xin1: int16, xin0: int16): (next: State)
    requires st.Shaped()
    ensures next.Shaped()
  {
    var c := CodesOf(st, xin1, xin0);
    State(LowNext(st.low, c.il), HighNext(st.high, c.ih), [xin0, xin1] + st.line[..20])
  }

  /** The octet of a code pair: bits 0 to 5 from the low band, bits 6 and 7 from the high band. */
  function Octet(c: Codes): (o: byte)
  {
    SaturateAddShort(ShiftLeftShort(c.ih, 6), c.il) % 0x100
  }

  /** The state after the samples `x`, two at a time. */
  function Run(st: State, x: seq<int16>): (last: State)
    requires st.Shaped() && |x| % 2 == 0
    ensures last.Shaped()
  {
    if |x| == 0 then st
    else
      var n := |x| - 2;
      Step(Run(st, x[..n]), x[n], x[n + 1])
  }

  /** The code pairs emitted for the samples `x`. */
  function Emitted(st: State, x: seq<int16>): (cs: seq<Codes>)
    requires st.Shaped() && |x| % 2 == 0
    ensures |cs| == |x| / 2
  {
    if |x| == 0 then []
    else
      var n := |x| - 2;
      Emitted(st, x[..n]) + [CodesOf(Run(st, x[..n]), x[n], x[n + 1])]
  }

  lemma EmptyRun(st: State)
    requires st.Shaped()
    ensures Run(st, []) == st && Emitted(st, []) == []
  {
  }

  /** A run ends with the step on its last pair. */
  lemma LastPair(st: State, x: seq<int16>, xin1: int16, xin0: int16)
    requires st.Shaped() && |x| % 2 == 0
    ensures Run(st, x + [xin1, xin0]) == Step(Run(st, x), xin1, xin0)
    ensures Emitted(st, x + [xin1, xin0]) == Emitted(st, x) + [CodesOf(Run(st, x), xin1, xin0)]
  {
    hide Step, CodesOf;
    assert (x + [xin1, xin0])[..|x|] == x;
  }

  function Octets(cs: seq<Codes>): (os: seq<byte>)
    ensures |os| == |cs|
  {
    seq(|cs|, k requires 0 <= k < |cs| => Octet(cs[k]))
  }

  /** A band right after `ResetBand`, which leaves the last slots of three histories alone. */
  function ResetBandValue(det: int16, a2: int16, p2: int16, r2: int16): (band: Band)
    ensures band.Shaped()
  {
    Band(0, det, 0, 0, 0, [0, 0, a2], [0, 0, p2], [0, 0, r2], [0, 0, 0, 0, 0, 0, 0], [0, 0, 0, 0, 0, 0, 0])
  }

  /** The states in which a fresh or reset encoder can be. */
  predicate Initial(st: State) {
    && st.Shaped()
    && st.low == ResetBandValue(32, st.low.a[2], st.low.p[2], st.low.r[2])
    && st.high == ResetBandValue(8, st.high.a[2], st.high.p[2], st.high.r[2])
    && st.line == Line([])[..22]
  }
}

/** A receiver that adapts from the emitted octets alone stays in step with the encoder. */
module G722Decoder {
  import opened Ints
  import opened FixedPoint
  import opened G722Bands
  import opened G722Runs

  function Unpack(o: byte): Codes {
    Codes(o % 64, o / 64)
  }

  /** The output octet never saturates, and its two fields can be read back. */
  lemma OctetUnpacks(c: Codes)
    requires c.InRange()
    ensures Octet(c) == 64 * c.ih + c.il
    ensures Unpack(Octet(c)) == c
  {
    hide SaturateAddShort, ShiftLeftShort;
    Pow2Values();
    FieldsSeparate(c.il, c.ih);
  }

  lemma FieldsSeparate(il: int, ih: int)
    requires 0 <= il <= 63 && 0 <= ih <= 3
    ensures (64 * ih + il) % 0x100 == 64 * ih + il
    ensures (64 * ih + il) % 64 == il && (64 * ih + il) / 64 == ih
  {
  }

  datatype Bands = Bands(low: Band, high: Band) {
    predicate Shaped() {
      low.Shaped() && high.Shaped()
    }
  }

  /** The receiver's bands after the octets `os`; it never sees the input samples. */
  function Track(bands: Bands, os: seq<byte>): (last: Bands)
    requires bands.Shaped()
    ensures last.Shaped()
  {
    if |os| == 0 then bands
    else
      var before := Track(bands, os[..|os| - 1]);
      var c := Unpack(os[|os| - 1]);
      Bands(LowNext(before.low, c.il), HighNext(before.high, c.ih))
  }

  /** Over every run the receiver's bands are those of the encoder. */
  lemma {:induction false} TrackerFollows(st: State, x: seq<int16>)
    requires st.Shaped() && |x| % 2 == 0
    ensures Track(Bands(st.low, st.high), Octets(Emitted(st, x))) == Bands(Run(st, x).low, Run(st, x).high)
  {
    hide LowNext, HighNext, CodesOf, Octet;
    if |x| > 0 {
      var n := |x| - 2;
      TrackerFollows(st, x[..n]);
      var c := CodesOf(Run(st, x[..n]), x[n], x[n + 1]);
      OctetUnpacks(c);
      assert Octets(Emitted(st, x)) == Octets(Emitted(st, x[..n])) + [Octet(c)];
    }
  }

  /** The inputs act on the bands through the emitted octets only. */
  lemma SameOctetsSameBands(st: State, x: seq<int16>, st': State, x': seq<int16>)
    requires st.Shaped() && |x| % 2 == 0 && st'.Shaped() && |x'| % 2 == 0
    requires st.low == st'.low && st.high == st'.high
    requires Octets(Emitted(st, x)) == Octets(Emitted(st', x'))
    ensures Run(st, x).low == Run(st', x').low && Run(st, x).high == Run(st', x').high
  {
    hide Run, Emitted, Octets, Track;
    TrackerFollows(st, x);
    TrackerFollows(st', x');
  }
}

/** The G.722 encoder object: every field is updated in place, sample by sample. */
module G722Encoder {
  import opened Ints
  import opened FixedPoint
  import opened G722Quantizers
  import opened G722Bands
  import opened G722Qmf
  import opened G722Runs

  /** The fields of one sub-band; the source keeps those of both bands in one structure. */
  class SubBand {
    var nb: int16
    var det: int16
    var s: int16
    var sp: int16
    var sz: int16
    const a: array<int16>
    const p: array<int16>
    const r: array<int16>
    const b: array<int16>
    const d: array<int16>

    ghost const Repr: set<object> := {this, a, p, r, b, d}

    ghost predicate Valid()
    {
      && a.Length == p.Length == r.Length == 3
      && b.Length == d.Length == 7
      && a != p && a != r && p != r && b != d
    }

    ghost function Value(): (band: Band)
      requires Valid()
      reads this, a, p, r, b, d
      ensures band.Shaped()
    {
      Band(nb, det, s, sp, sz, a[..], p[..], r[..], b[..], d[..])
    }

    constructor ()
      ensures Valid() && fresh(Repr)
    {
      nb, det, s, sp, sz := 0, 0, 0, 0, 0;
      a := new int16[3];
      p := new int16[3];
      r := new int16[3];
      b := new int16[7];
      d := new int16[7];
    }

    method Reset(startDet: int16)
      requires Valid()
      modifies Repr
      ensures Value() == ResetBandValue(startDet, old(a[2]), old(p[2]), old(r[2]))
    {
      det := startDet;
      s, sp, sz, nb := 0, 0, 0, 0;
      Clear(a, 2);
      Clear(p, 2);
      Clear(r, 2);
      Clear(b, 7);
      Clear(d, 7);
    }

    /** The common tail of both band coders, once the difference is quantised. */
    method Adapt(d0: int16, nbp: int16, detp: int16)
      requires Valid()
      modifies Repr
      ensures Value() == Predict(old(Value()), d0, nbp, detp)
    {
      hide ZeroCoefficients, ZeroSection, PoleSection, Pole1, Pole2;
      ghost var band := Value();
      d[0] := d0;
      nb := nbp;
      det := detp;
      p[0] := SaturateAddShort(d[0], sz);
      r[0] := SaturateAddShort(s, d[0]);
      ghost var d1, p1, r1 := d[..], p[..], r[..];
      assert d1 == band.d[0 := d0];
      assert p1 == band.p[0 := SaturateAddShort(d0, band.sz)];
      assert r1 == band.r[0 := SaturateAddShort(band.s, d0)];
      Upzero(d, b);
      Uppol2(a, p);
      Uppol1(a, p);
      assert a[..] == Poles(band.a, p1);
      sz := Filtez(d, b);
      sp := Filtep(r, a);
      s := SaturateAddShort(sp, sz);
    }
  }

  const G722_PACKET_SIZE := 320

  class Encoder {
    const low: SubBand
    const high: SubBand
    const delayx: array<int16>

    ghost const Repr: set<object> := {this, delayx} + low.Repr + high.Repr

    ghost predicate Valid()
    {
      && low.Valid() && high.Valid()
      && delayx.Length == 24
      && low.Repr !! high.Repr
      && delayx !in low.Repr && delayx !in high.Repr
      && this !in low.Repr && this !in high.Repr
    }

    ghost function Value(): (st: State)
      requires Valid()
      reads Repr
      ensures st.Shaped()
    {
      State(low.Value(), high.Value(), delayx[2..])
    }

    constructor ()
      ensures Valid() && fresh(Repr) && Initial(Value())
    {
      low := new SubBand();
      high := new SubBand();
      delayx := new int16[24];
      new;
      ResetBand();
    }

    method ResetBand()
      requires Valid()
      modifies Repr
      ensures Initial(Value())
      ensures Value().low == ResetBandValue(32, old(low.a[2]), old(low.p[2]), old(low.r[2]))
      ensures Value().high == ResetBandValue(8, old(high.a[2]), old(high.p[2]), old(high.r[2]))
    {
      low.Reset(32);
      high.Reset(8);
      Clear(delayx, 24);
      assert delayx[2..] == Line([])[..22];
    }

    method LsbCod(xl: int16) returns (il: int16)
      requires Valid()
      modifies low.Repr
      ensures il == LowInput(old(low.Value()), xl)
      ensures low.Value() == LowNext(old(low.Value()), il)
    {
      il := Quantl(SaturateSubtractShort(xl, low.s), low.det);
      var nbpl := Logscl(il, low.nb);
      low.Adapt(Invqal(il, low.det), nbpl, Scalel(nbpl));
    }

    method HsbCod(xh: int16) returns (ih: int16)
      requires Valid()
      modifies high.Repr
      ensures ih == HighInput(old(high.Value()), xh)
      ensures high.Value() == HighNext(old(high.Value()), ih)
    {
      ih := Quanth(SaturateSubtractShort(xh, high.s), high.det);
      var nbph := Logsch(ih, high.nb);
      high.Adapt(Invqah(ih, high.det), nbph, Scaleh(nbph));
    }

    /** One sample pair: the body of the packet loop up to the output octet. */
    method EncodePair(xin1: int16, xin0: int16) returns (o: byte)
      requires Valid()
      modifies Repr
      ensures Value() == Step(old(Value()), xin1, xin0)
      ensures o == Octet(CodesOf(old(Value()), xin1, xin0))
    {
      hide LowNext, HighNext, LowInput, HighInput, LowOutput, HighOutput;
      var xl, xh := QmfTx(delayx, xin0, xin1);
      var il := LsbCod(xl);
      var ih := HsbCod(xh);
      o := SaturateAddShort(ShiftLeftShort(ih, 6), il) % 0x100;
    }

    /** Encodes one packet; 320 samples give 160 octets. */
    method Encode(pcm: array<int16>, encoded: array<byte>) returns (ok: bool)
      requires Valid()
      requires pcm.Length >= G722_PACKET_SIZE && encoded.Length >= G722_PACKET_SIZE / 2
      requires pcm !in Repr && encoded !in Repr
      modifies Repr, encoded
      ensures ok
      ensures Value() == Run(old(Value()), pcm[..320])
      ensures encoded[..160] == Octets(Emitted(old(Value()), pcm[..320])) && encoded[160..] == old(encoded[160..])
    {
      hide Step, CodesOf, Octet, Run, Emitted, Octets, Encoder.Valid, Encoder.Value;
      ghost var start, x := Value(), pcm[..];
      EmptyRun(start);
      assert Octets([]) == [];
      var index := 0;
      while index < G722_PACKET_SIZE
        invariant 0 <= index <= G722_PACKET_SIZE && index % 2 == 0
        invariant pcm[..] == x
        invariant Value() == Run(start, x[..index])
        invariant encoded[..index / 2] == Octets(Emitted(start, x[..index]))
        invariant encoded[G722_PACKET_SIZE / 2..] == old(encoded[G722_PACKET_SIZE / 2..])
      {
        ghost var k := index / 2;
        encoded[k] := EncodePair(pcm[index], pcm[index + 1]);
        RunExtends(start, x, index);
        index := index + 2;
        assert encoded[..k + 1] == encoded[..k] + [encoded[k]];
      }
      return true;
    }
  }

  /** What one more pair adds to a run over a prefix of `x`. */
  lemma RunExtends(st: State, x: seq<int16>, n: nat)
    requires st.Shaped() && n % 2 == 0 && n + 2 <= |x|
    ensures Run(st, x[..n + 2]) == Step(Run(st, x[..n]), x[n], x[n + 1])
    ensures Octets(Emitted(st, x[..n + 2])) == Octets(Emitted(st, x[..n]))
            + [Octet(CodesOf(Run(st, x[..n]), x[n], x[n + 1]))]
  {
    hide Step, CodesOf, Octet, Run, Emitted;
    assert x[..n + 2] == x[..n] + [x[n], x[n + 1]];
    LastPair(st, x[..n], x[n], x[n + 1]);
  }

  /** Clears the first `n` elements, in place. */
  method Clear(a: array<int16>, n: nat)
    requires n <= a.Length
    modifies a
    ensures a[..] == Zeros(n) + old(a[n..])
  {
    for i := 0 to n
      invariant forall k :: 0 <= k < i ==> a[k] == 0
      invariant a[i..] == old(a[i..])
    {
      a[i] := 0;
    }
  }
}

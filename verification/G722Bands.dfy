/**
 * One sub-band of the encoder as a value, and the functions that advance it by
 * one sample. Both sub-bands share the predictor; they differ in the quantisers.
 */
module G722Bands {
  import opened Ints
  import opened FixedPoint
  import opened G722Quantizers

  /**
   * `nb` and `det` are the log and linear scale factors; `s`, `sp`, `sz` the
   * predictions of the whole predictor, its pole section and its zero section;
   * `a`, `b` the pole and zero coefficients; `p`, `r`, `d` the histories of partly
   * reconstructed samples, reconstructed samples and quantised differences.
   */
  datatype Band = Band(nb: int16, det: int16, s: int16, sp: int16, sz: int16,
                       a: seq<int16>, p: seq<int16>, r: seq<int16>, b: seq<int16>, d: seq<int16>)
  {
    predicate Shaped() {
      |a| == |p| == |r| == 3 && |b| == |d| == 7
    }
  }

  function Sign(x: int16): (s: int16)
    ensures s == if x < 0 then -1 else 0
  {
    ShiftRightShort(x, 15)
  }

  /** The history moved by one place; the newest value stays in slot 0. */
  function Delay(x: seq<int16>): (y: seq<int16>)
    requires |x| >= 1
    ensures |y| == |x|
  {
    [x[0]] + x[..|x| - 1]
  }

  // ----- the zero section -----

  function ZeroCoefficient(d0: int16, di: int16, bi: int16): (r: int16)
    ensures var gradient := if d0 == 0 then 0 else if (d0 < 0) == (di < 0) then 128 else -128;
      r == Clamp(gradient + Mul15(bi, 32640), MIN_16, MAX_16)
  {
    var wd1: int16 := if d0 == 0 then 0 else 128;
    var wd2 := if Sign(d0) == Sign(di) then SaturateAddShort(0, wd1) else SaturateSubtractShort(0, wd1);
    SaturateAddShort(wd2, ScaledMult(bi, 32640))
  }

  function ZeroCoefficients(d: seq<int16>, b: seq<int16>): (r: seq<int16>)
    requires |d| == |b| == 7
    ensures |r| == 7 && r[0] == b[0]
    ensures forall i :: 1 <= i < 7 ==> r[i] == ZeroCoefficient(d[0], d[i], b[i])
  {
    seq(7, i requires 0 <= i < 7 => if i == 0 then b[0] else ZeroCoefficient(d[0], d[i], b[i]))
  }

  method Upzero(dlt: array<int16>, bl: array<int16>)
    requires dlt.Length == bl.Length == 7 && dlt != bl
    modifies dlt, bl
    ensures bl[..] == ZeroCoefficients(old(dlt[..]), old(bl[..]))
    ensures dlt[..] == Delay(old(dlt[..]))
  {
    hide ScaledMult, Saturate, SaturateAddShort, SaturateSubtractShort, ShiftLeftShort, ShiftRightShort;
    hide ZeroCoefficient;
    ghost var d, b := dlt[..], bl[..];
    ghost var shifted, updated := Delay(d), ZeroCoefficients(d, b);
    var wd1: int16 := 128;
    if dlt[0] == 0 {
      wd1 := 0;
    }
    var sg0 := ShiftRightShort(dlt[0], 15);
    var i := 6;
    while i > 0
      invariant 0 <= i <= 6
      invariant forall k :: 0 <= k <= i ==> dlt[k] == d[k] && bl[k] == b[k]
      invariant forall k :: i < k < 7 ==> dlt[k] == shifted[k] && bl[k] == updated[k]
    {
      var wd2 := SaturateSubtractShort(0, wd1);
      if sg0 == ShiftRightShort(dlt[i], 15) {
        wd2 := SaturateAddShort(0, wd1);
      }
      UpdatedCoefficient(d[0], d[i], b[i], wd1, wd2);
      bl[i] := SaturateAddShort(wd2, ScaledMult(bl[i], 32640));
      dlt[i] := dlt[i - 1];
      i := i - 1;
    }
  }

  lemma UpdatedCoefficient(d0: int16, di: int16, bi: int16, wd1: int16, wd2: int16)
    requires wd1 == if d0 == 0 then 0 else 128
    requires wd2 == if ShiftRightShort(d0, 15) == ShiftRightShort(di, 15)
                    then SaturateAddShort(0, wd1)
                    else SaturateSubtractShort(0, wd1)
    ensures SaturateAddShort(wd2, ScaledMult(bi, 32640)) == ZeroCoefficient(d0, di, bi)
  {
    hide ScaledMult, Saturate, SaturateAddShort, SaturateSubtractShort, ShiftLeftShort, ShiftRightShort;
  }

  /** The saturated sum of the `n` oldest products of the zero section, oldest first. */
  function ZeroSum(d: seq<int16>, b: seq<int16>, n: nat): int16
    requires |d| == |b| == 7 && n <= 6
  {
    if n == 0 then 0
    else SaturateAddShort(ZeroSum(d, b, n - 1), ScaledMult(SaturateAddShort(d[7 - n], d[7 - n]), b[7 - n]))
  }

  function ZeroSection(d: seq<int16>, b: seq<int16>): int16
    requires |d| == |b| == 7
  {
    ZeroSum(d, b, |d| - 1)
  }

  method Filtez(dlt: array<int16>, bl: array<int16>) returns (szl: int16)
    requires dlt.Length == bl.Length == 7
    ensures szl == ZeroSection(dlt[..], bl[..])
  {
    hide ScaledMult, Saturate, SaturateAddShort, SaturateSubtractShort, ShiftLeftShort, ShiftRightShort;
    ghost var d, b := dlt[..], bl[..];
    szl := 0;
    var i := 6;
    while i > 0
      invariant 0 <= i <= 6
      invariant szl == ZeroSum(d, b, 6 - i)
    {
      assert dlt[i] == d[i] && bl[i] == b[i];
      var wd := SaturateAddShort(dlt[i], dlt[i]);
      wd := ScaledMult(wd, bl[i]);
      szl := SaturateAddShort(szl, wd);
      i := i - 1;
    }
  }

  // ----- the pole section -----

  /** The stability triangle of section 3.6 of ITU-T G.722 for the two pole coefficients. */
  predicate Stable(a1: int, a2: int) {
    -12288 <= a2 <= 12288 && a2 - 15360 <= a1 <= 15360 - a2
  }

  function Pole2(a: seq<int16>, p: seq<int16>): (apl2: int16)
    requires |a| == |p| == 3
    ensures -12288 <= apl2 <= 12288
  {
    var wd1 := ShiftLeftShort(a[1], 2);
    var wd2 := if SaturateSubtractShort(Sign(p[0]), Sign(p[1])) == 0
               then SaturateSubtractShort(0, wd1)
               else SaturateAddShort(0, wd1);
    var wd3 := if SaturateSubtractShort(Sign(p[0]), Sign(p[2])) == 0 then 128 else -128;
    var wd4 := SaturateAddShort(ShiftRightShort(wd2, 7), wd3);
    var apl2 := SaturateAddShort(wd4, ScaledMult(a[2], 32512));
    var high := if SaturateSubtractShort(apl2, 12288) > 0 then 12288 else apl2;
    if SaturateSubtractShort(high, -12288) < 0 then -12288 else high
  }

  method Uppol2(al: array<int16>, plt: array<int16>)
    requires al.Length == plt.Length == 3 && al != plt
    modifies al
    ensures al[..] == old(al[..])[2 := Pole2(old(al[..]), plt[..])]
  {
    hide ScaledMult, Saturate, SaturateAddShort, SaturateSubtractShort, ShiftLeftShort, ShiftRightShort;
    var sg0 := ShiftRightShort(plt[0], 15);
    var sg1 := ShiftRightShort(plt[1], 15);
    var sg2 := ShiftRightShort(plt[2], 15);
    var wd1 := ShiftLeftShort(al[1], 2);
    var wd2 := SaturateAddShort(0, wd1);
    if SaturateSubtractShort(sg0, sg1) == 0 {
      wd2 := SaturateSubtractShort(0, wd1);
    }
    wd2 := ShiftRightShort(wd2, 7);
    var wd3: int16 := -128;
    if SaturateSubtractShort(sg0, sg2) == 0 {
      wd3 := 128;
    }
    var wd4 := SaturateAddShort(wd2, wd3);
    var wd5 := ScaledMult(al[2], 32512);
    var apl2 := SaturateAddShort(wd4, wd5);
    if SaturateSubtractShort(apl2, 12288) > 0 {
      apl2 := 12288;
    }
    if SaturateSubtractShort(apl2, -12288) < 0 {
      apl2 := -12288;
    }
    al[2] := apl2;
  }

  /** `a[2]` bounds `a[1]`; the caller has updated `a[2]` first. */
  function Pole1(a: seq<int16>, p: seq<int16>): (apl1: int16)
    requires |a| == |p| == 3
    ensures -12288 <= a[2] <= 12288 ==> Stable(apl1, a[2])
  {
    var wd1 := if SaturateSubtractShort(Sign(p[0]), Sign(p[1])) == 0 then 192 else -192;
    CutToTriangle(SaturateAddShort(wd1, ScaledMult(a[1], 32640)), a[2])
  }

  function CutToTriangle(apl1: int16, a2: int16): (r: int16)
    ensures -12288 <= a2 <= 12288 ==> Stable(r, a2) && r == Clamp(apl1, a2 - 15360, 15360 - a2)
  {
    var wd3 := SaturateSubtractShort(15360, a2);
    if SaturateSubtractShort(apl1, wd3) > 0 then wd3
    else if SaturateAddShort(apl1, wd3) < 0 then -wd3
    else apl1
  }

  method Uppol1(al: array<int16>, plt: array<int16>)
    requires al.Length == plt.Length == 3 && al != plt
    modifies al, plt
    ensures al[..] == old(al[..])[1 := Pole1(old(al[..]), old(plt[..]))]
    ensures plt[..] == Delay(old(plt[..]))
  {
    hide ScaledMult, Saturate, SaturateAddShort, SaturateSubtractShort, ShiftLeftShort, ShiftRightShort;
    var sg0 := ShiftRightShort(plt[0], 15);
    var sg1 := ShiftRightShort(plt[1], 15);
    var wd1: int16 := -192;
    if SaturateSubtractShort(sg0, sg1) == 0 {
      wd1 := 192;
    }
    var wd2 := ScaledMult(al[1], 32640);
    var apl1 := SaturateAddShort(wd1, wd2);
    var wd3 := SaturateSubtractShort(15360, al[2]);
    if SaturateSubtractShort(apl1, wd3) > 0 {
      apl1 := wd3;
    } else if SaturateAddShort(apl1, wd3) < 0 {
      apl1 := -wd3;
    }
    plt[2] := plt[1];
    plt[1] := plt[0];
    al[1] := apl1;
  }

  function PoleSection(r: seq<int16>, a: seq<int16>): int16
    requires |r| == |a| == 3
  {
    SaturateAddShort(ScaledMult(a[1], SaturateAddShort(r[1], r[1])),
                     ScaledMult(a[2], SaturateAddShort(r[2], r[2])))
  }

  method Filtep(rlt: array<int16>, al: array<int16>) returns (spl: int16)
    requires rlt.Length == al.Length == 3 && rlt != al
    modifies rlt
    ensures rlt[..] == Delay(old(rlt[..]))
    ensures spl == PoleSection(rlt[..], al[..])
  {
    hide ScaledMult, Saturate, SaturateAddShort, SaturateSubtractShort, ShiftLeftShort, ShiftRightShort;
    rlt[2] := rlt[1];
    rlt[1] := rlt[0];
    var wd1 := SaturateAddShort(rlt[1], rlt[1]);
    wd1 := ScaledMult(al[1], wd1);
    var wd2 := SaturateAddShort(rlt[2], rlt[2]);
    wd2 := ScaledMult(al[2], wd2);
    spl := SaturateAddShort(wd1, wd2);
  }

  // ----- one sample -----

  function Poles(a: seq<int16>, p: seq<int16>): (a': seq<int16>)
    requires |a| == |p| == 3
    ensures |a'| == 3 && a'[0] == a[0]
  {
    var a2 := a[2 := Pole2(a, p)];
    a2[1 := Pole1(a2, p)]
  }

  /** The predictor update, given the quantised difference and the new scale factors. */
  function Predict(band: Band, d0: int16, nb: int16, det: int16): (next: Band)
    requires band.Shaped()
    ensures next.Shaped()
  {
    var d := band.d[0 := d0];
    var p := band.p[0 := SaturateAddShort(d0, band.sz)];
    var r := band.r[0 := SaturateAddShort(band.s, d0)];
    var b := ZeroCoefficients(d, band.b);
    var a := Poles(band.a, p);
    var sz := ZeroSection(Delay(d), b);
    var sp := PoleSection(Delay(r), a);
    Band(nb, det, SaturateAddShort(sp, sz), sp, sz, a, Delay(p), Delay(r), b, Delay(d))
  }

  /** The low band after the code `il`, whatever the input that produced it. */
  function LowNext(band: Band, il: int16): (next: Band)
    requires band.Shaped() && 0 <= il <= 63
    ensures next.Shaped()
  {
    var nb := Logscl(il, band.nb);
    Predict(band, Invqal(il, band.det), nb, Scalel(nb))
  }

  /** The high band after the code `ih`. */
  function HighNext(band: Band, ih: int16): (next: Band)
    requires band.Shaped() && 0 <= ih <= 3
    ensures next.Shaped()
  {
    var nb := Logsch(ih, band.nb);
    Predict(band, Invqah(ih, band.det), nb, Scaleh(nb))
  }
}

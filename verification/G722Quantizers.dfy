/** The adaptive quantisers of both sub-bands and their scale-factor adaptation. */
module G722Quantizers {
  import opened Ints
  import opened FixedPoint
  import opened G722Tables

  /** Eight times a table entry: `ShiftLeftShort(entry, 3)` never saturates on the tables. */
  lemma ShiftedEntry(entry: int16)
    requires -4095 <= entry <= 4095
    ensures ShiftLeftShort(entry, 3) == 8 * entry
  {
    Pow2Values();
  }

  // ----- the search for the cell of the low-band quantiser -----

  /** The magnitude that both quantisers compare with their decision levels. */
  function Magnitude(e: int16): (wd: int16)
    ensures wd == if e >= 0 then e else -1 - e
  {
    if ShiftRightShort(e, 15) == 0 then e else SaturateSubtractShort(MAX_16, e % 0x8000)
  }

  /** Eight times an entry of `q6`: a decision level before it is scaled. */
  function Threshold(mil: nat): (q: int16)
    requires mil <= 30
    ensures 0 <= q <= 25600 && (mil == 0 ==> q == 0)
  {
    8 * Q6[mil]
  }

  /** The decision level above cell `mil`, scaled by `detl`. */
  function Level(mil: nat, detl: int16): (val: int16)
    requires mil <= 30
    ensures val == Mul15(Threshold(mil), detl)
  {
    ShiftedEntry(Q6[mil]);
    ScaledMult(ShiftLeftShort(Q6[mil], 3), detl)
  }

  /** The saturated difference decides whether a level is reached. */
  predicate Reached(val: int16, wd: int16)
    ensures Reached(val, wd) <==> val <= wd
  {
    SaturateSubtractShort(val, wd) <= 0
  }

  /** The scaled decision levels. */
  function Levels(detl: int16): (levels: seq<int16>)
    ensures |levels| == 31
    ensures forall mil :: 0 <= mil <= 30 ==> levels[mil] == Level(mil, detl)
  {
    seq(31, mil requires 0 <= mil < 31 => Level(mil, detl))
  }

  /** The first cell from `mil` on whose level exceeds `wd`, or cell 30. */
  function Search(levels: seq<int16>, wd: int16, mil: nat): (cell: nat)
    requires |levels| == 31 && mil <= 30
    ensures mil <= cell <= 30
    ensures cell < 30 ==> wd < levels[cell]
    ensures cell > mil ==> levels[cell - 1] <= wd
    ensures mil < 30 && levels[mil] <= wd ==> mil < cell
    decreases 30 - mil
  {
    if Reached(levels[mil], wd) && mil != 30 then
      Search(levels, wd, mil + 1)
    else
      mil
  }

  /** The cell of the low-band quantiser; cell 0, whose level is 0, is never chosen. */
  function Cell(el: int16, detl: int16): (cell: nat)
    ensures 1 <= cell <= 30
  {
    assert Level(0, detl) == 0;
    Search(Levels(detl), Magnitude(el), 0)
  }

  /** The code of a cell: negative differences use the first row of `misil`. */
  function CellCode(negative: bool, cell: nat): (il: int16)
    requires 1 <= cell <= 30
    ensures 4 <= il <= 63
  {
    MISIL[if negative then 0 else 1][cell]
  }

  /** The six-bit code of the low band. */
  function LowCode(el: int16, detl: int16): (il: int16)
    ensures 4 <= il <= 63
  {
    CellCode(el < 0, Cell(el, detl))
  }

  method Quantl(el: int16, detl: int16) returns (il: int16)
    ensures il == LowCode(el, detl)
  {
    var sil := ShiftRightShort(el, 15);
    var wd := SaturateSubtractShort(MAX_16, el % 0x8000);
    var mil: int16 := 0;
    if sil == 0 {
      wd := el;
    }
    assert wd == Magnitude(el);
    ghost var levels := Levels(detl);

    ShiftedEntry(Q6[mil]);
    var val := ScaledMult(ShiftLeftShort(Q6[mil], 3), detl);
    while SaturateSubtractShort(val, wd) <= 0
      invariant 0 <= mil <= 30
      invariant val == Level(mil, detl)
      invariant Search(levels, wd, mil) == Search(levels, wd, 0)
      decreases 30 - mil
    {
      if SaturateSubtractShort(mil, 30) == 0 {
        break;
      } else {
        mil := SaturateAddShort(mil, 1);
        val := ScaledMult(ShiftLeftShort(Q6[mil], 3), detl);
      }
    }

    sil := SaturateAddShort(sil, 1);
    return MISIL[sil][mil];
  }

  // ----- the two-cell quantiser of the high band -----

  function Quanth(eh: int16, deth: int16): (ih: int16)
    ensures 0 <= ih <= 3
    ensures ih >= 2 <==> eh >= 0
    ensures ih % 2 == 1 <==> Magnitude(eh) < Mul15(4512, deth)
  {
    ShiftedEntry(564);
    var sih := ShiftRightShort(eh, 15);
    var wd := Magnitude(eh);
    var mih := if SaturateSubtractShort(wd, ScaledMult(ShiftLeftShort(564, 3), deth)) >= 0 then 2 else 1;
    MISIH[SaturateAddShort(sih, 1)][mih]
  }

  // ----- the inverse quantisers -----

  /** The index `ril` of the four-bit core of a low-band code. */
  function Core(il: int16): (ril: int16)
    requires 0 <= il <= 63
    ensures ril == il / 4
  {
    Pow2Values();
    ShiftRightShort(il, 2)
  }

  function Invqal(il: int16, detl: int16): (d: int16)
    requires 0 <= il <= 63
    ensures d == Mul15(detl, (if RISIL[il / 4] == 0 then 8 else -8) * OQ4[RIL4[il / 4]])
  {
    var ril := Core(il);
    ShiftedEntry(OQ4[RIL4[ril]]);
    var wd1 := ShiftLeftShort(OQ4[RIL4[ril]], 3);
    var wd2 := if RISIL[ril] == 0 then wd1 else -wd1;
    ScaledMult(detl, wd2)
  }

  function Invqah(ih: int16, deth: int16): (d: int16)
    requires 0 <= ih <= 3
    ensures d == Mul15((if SIH[ih] == 0 then 8 else -8) * OQ2[IH2[ih]], deth)
  {
    ShiftedEntry(OQ2[IH2[ih]]);
    var wd1 := ShiftLeftShort(OQ2[IH2[ih]], 3);
    var wd2 := if SIH[ih] == 0 then wd1 else -wd1;
    ScaledMult(wd2, deth)
  }

  // ----- the log scale factors and their antilogarithm -----

  const NBL_MAX: int16 := 18432
  const NBH_MAX: int16 := 22528

  function Logscl(il: int16, nbl: int16): (nbpl: int16)
    requires 0 <= il <= 63
    ensures 0 <= nbpl <= NBL_MAX
    ensures nbpl == Clamp(Mul15(nbl, 32512) + WL[RIL4[il / 4]], 0, NBL_MAX)
  {
    var ril := Core(il);
    var wd := ScaledMult(nbl, 32512);
    var nbpl := SaturateAddShort(wd, WL[RIL4[ril]]);
    var floored := if nbpl < 0 then 0 else nbpl;
    if SaturateSubtractShort(floored, NBL_MAX) > 0 then NBL_MAX else floored
  }

  function Logsch(ih: int16, nbh: int16): (nbph: int16)
    requires 0 <= ih <= 3
    ensures 0 <= nbph <= NBH_MAX
    ensures nbph == Clamp(Mul15(nbh, 32512) + WH[IH2[ih]], 0, NBH_MAX)
  {
    var wd := ScaledMult(nbh, 32512);
    var nbph := SaturateAddShort(wd, WH[IH2[ih]]);
    var floored := if nbph < 0 then 0 else nbph;
    if SaturateSubtractShort(floored, NBH_MAX) > 0 then NBH_MAX else floored
  }

  /** The index into `ila` that a log scale factor selects, before the band's offset. */
  function IlaIndex(nb: int16): (i: int16)
    ensures 0 <= i <= 511
    ensures nb >= 0 ==> i == nb / 64
  {
    Pow2Values();
    ShiftRightShort(nb, 6) % 512
  }

  function Antilog(i: nat): (det: int16)
    requires i < 353
    ensures 8 <= det <= 16384
    ensures i >= 64 ==> 32 <= det
    ensures det == 4 * (Ila(i) + 1)
  {
    Pow2Values();
    ShiftLeftShort(SaturateAddShort(Ila(i), 1), 2)
  }

  function Scalel(nbpl: int16): (detl: int16)
    requires 0 <= nbpl <= NBL_MAX
    ensures 32 <= detl <= 16384
  {
    Antilog(SaturateAddShort(IlaIndex(nbpl), 64))
  }

  function Scaleh(nbph: int16): (deth: int16)
    requires 0 <= nbph <= NBH_MAX
    ensures 8 <= deth <= 16384
  {
    Antilog(IlaIndex(nbph))
  }
}

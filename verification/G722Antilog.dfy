/**
 * The table `ila` is an antilogarithm: its entries are those of an upper octave, rounded to integers,
 * and of the octaves below it, halved.
 */
module G722Antilog {
  import opened Ints
  import opened FixedPoint
  import opened G722Tables
  import opened G722Quantizers
  import opened G722Tight

  // ----- the upper octave: 2^11 to 2^12 in thirty-two steps of equal ratio -----

  const TWO_384 := 0x1000000000000000000000000000000000000000000000000000000000000000000000000000000000000000000000000

  function Pow32(x: int): int {
    var s := x * x;
    var t := s * s;
    var u := t * t;
    var v := u * u;
    v * v
  }

  /** `v` is the 32nd root of `power` times 2^352, rounded: everything is doubled, to compare at the halves. */
  predicate IsRoot(v: int, power: int) {
    Pow32(2 * v - 1) < TWO_384 * power < Pow32(2 * v + 1)
  }

  const POWERS: seq<int> := [
    0x1, 0x2, 0x4, 0x8, 0x10, 0x20, 0x40, 0x80,
    0x100, 0x200, 0x400, 0x800, 0x1000, 0x2000, 0x4000, 0x8000,
    0x10000, 0x20000, 0x40000, 0x80000, 0x100000, 0x200000, 0x400000, 0x800000,
    0x1000000, 0x2000000, 0x4000000, 0x8000000, 0x10000000, 0x20000000, 0x40000000, 0x80000000
  ]

  const MANTISSAS: seq<int> := [
    2048, 2093, 2139, 2186, 2233, 2282, 2332, 2383, 2435, 2489, 2543, 2599, 2656, 2714, 2774, 2834,
    2896, 2960, 3025, 3091, 3158, 3228, 3298, 3371, 3444, 3520, 3597, 3676, 3756, 3838, 3922, 4008
  ]

  lemma Roots0()
    ensures IsRoot(2048, 0x1) && IsRoot(2093, 0x2)
    ensures IsRoot(2139, 0x4) && IsRoot(2186, 0x8)
    ensures IsRoot(2233, 0x10) && IsRoot(2282, 0x20)
    ensures IsRoot(2332, 0x40) && IsRoot(2383, 0x80)
  {
  }

  lemma Roots8()
    ensures IsRoot(2435, 0x100) && IsRoot(2489, 0x200)
    ensures IsRoot(2543, 0x400) && IsRoot(2599, 0x800)
    ensures IsRoot(2656, 0x1000) && IsRoot(2714, 0x2000)
    ensures IsRoot(2774, 0x4000) && IsRoot(2834, 0x8000)
  {
  }

  lemma Roots16()
    ensures IsRoot(2896, 0x10000) && IsRoot(2960, 0x20000)
    ensures IsRoot(3025, 0x40000) && IsRoot(3091, 0x80000)
    ensures IsRoot(3158, 0x100000) && IsRoot(3228, 0x200000)
    ensures IsRoot(3298, 0x400000) && IsRoot(3371, 0x800000)
  {
  }

  lemma Roots24()
    ensures IsRoot(3444, 0x1000000) && IsRoot(3520, 0x2000000)
    ensures IsRoot(3597, 0x4000000) && IsRoot(3676, 0x8000000)
    ensures IsRoot(3756, 0x10000000) && IsRoot(3838, 0x20000000)
    ensures IsRoot(3922, 0x40000000) && IsRoot(4008, 0x80000000)
  {
  }

  lemma RootsListed(j: nat)
    requires j < 32
    ensures IsRoot(MANTISSAS[j], POWERS[j])
  {
    hide IsRoot;
    if j < 8 {
      Roots0();
    } else if j < 16 {
      Roots8();
    } else if j < 24 {
      Roots16();
    } else {
      Roots24();
    }
  }

  lemma PowersListed(j: nat)
    requires j < 31
    ensures POWERS[j + 1] == 2 * POWERS[j] && POWERS[0] == 1
  {
  }

  lemma {:induction false} PowersArePowers(j: nat)
    requires j < 32
    ensures POWERS[j] == Pow2(j)
  {
    if j == 0 {
      PowersListed(0);
    } else {
      PowersArePowers(j - 1);
      PowersListed(j - 1);
    }
  }

  lemma LowMantissas(k: nat)
    requires 8 <= k < 24
    ensures Ila13(k) + 1 == MANTISSAS[k - 8]
  {
  }

  lemma HighMantissas(k: nat)
    requires k < 16
    ensures Ila14(k) + 1 == MANTISSAS[k + 16]
  {
  }

  lemma MantissaAt(j: nat)
    requires j < 32
    ensures Ila(320 + j) + 1 == MANTISSAS[j]
  {
    hide Ila13, Ila14, IlaFrom;
    if j < 16 {
      IlaByRow(0, 13, j + 8);
      IlaOfRows(j + 8);
      LowMantissas(j + 8);
    } else {
      IlaByRow(0, 14, j - 16);
      IlaOfRows(j - 16);
      HighMantissas(j - 16);
    }
  }

  lemma IlaOfRows(k: nat)
    requires k < 24
    ensures IlaFrom(13, k) == Ila13(k)
    ensures k < 17 ==> IlaFrom(14, k) == Ila14(k)
  {
    hide Ila13, Ila14;
  }

  /** Each entry of the upper octave is 2^(11 + j / 32), rounded, and less one. */
  lemma UpperOctave(j: nat)
    requires j < 32
    ensures IsRoot(Ila(320 + j) + 1, Pow2(j))
  {
    hide IsRoot, Ila;
    MantissaAt(j);
    RootsListed(j);
    PowersArePowers(j);
  }

  // ----- the octaves below -----

  lemma Halves0(k: nat)
    requires k < 24
    ensures Ila0(k) + 1 == ((if k < 16 then Ila1(k + 8) else Ila2(k - 16)) + 1) / 2
  {
  }

  lemma Halves1(k: nat)
    requires k < 24
    ensures Ila1(k) + 1 == ((if k < 16 then Ila2(k + 8) else Ila3(k - 16)) + 1) / 2
  {
  }

  lemma Halves2(k: nat)
    requires k < 24
    ensures Ila2(k) + 1 == ((if k < 16 then Ila3(k + 8) else Ila4(k - 16)) + 1) / 2
  {
  }

  lemma Halves3(k: nat)
    requires k < 24
    ensures Ila3(k) + 1 == ((if k < 16 then Ila4(k + 8) else Ila5(k - 16)) + 1) / 2
  {
  }

  lemma Halves4(k: nat)
    requires k < 24
    ensures Ila4(k) + 1 == ((if k < 16 then Ila5(k + 8) else Ila6(k - 16)) + 1) / 2
  {
  }

  lemma Halves5(k: nat)
    requires k < 24
    ensures Ila5(k) + 1 == ((if k < 16 then Ila6(k + 8) else Ila7(k - 16)) + 1) / 2
  {
  }

  lemma Halves6(k: nat)
    requires k < 24
    ensures Ila6(k) + 1 == ((if k < 16 then Ila7(k + 8) else Ila8(k - 16)) + 1) / 2
  {
  }

  lemma Halves7(k: nat)
    requires k < 24
    ensures Ila7(k) + 1 == ((if k < 16 then Ila8(k + 8) else Ila9(k - 16)) + 1) / 2
  {
  }

  lemma Halves8(k: nat)
    requires k < 24
    ensures Ila8(k) + 1 == ((if k < 16 then Ila9(k + 8) else Ila10(k - 16)) + 1) / 2
  {
  }

  lemma Halves9(k: nat)
    requires k < 24
    ensures Ila9(k) + 1 == ((if k < 16 then Ila10(k + 8) else Ila11(k - 16)) + 1) / 2
  {
  }

  lemma Halves10(k: nat)
    requires k < 24
    ensures Ila10(k) + 1 == ((if k < 16 then Ila11(k + 8) else Ila12(k - 16)) + 1) / 2
  {
  }

  lemma Halves11(k: nat)
    requires k < 24
    ensures Ila11(k) + 1 == ((if k < 16 then Ila12(k + 8) else Ila13(k - 16)) + 1) / 2
  {
  }

  lemma Halves12(k: nat)
    requires k < 24
    ensures Ila12(k) + 1 == ((if k < 16 then Ila13(k + 8) else Ila14(k - 16)) + 1) / 2
  {
  }

  lemma Halves13(k: nat)
    requires k < 9
    ensures Ila13(k) + 1 == (Ila14(k + 8) + 1) / 2
  {
  }

  lemma RowHalves(row: nat, k: nat)
    requires row <= 13 && k < 24 && 24 * row + k <= 320
    ensures IlaFrom(row, k) + 1 == (IlaFrom(row, k + 32) + 1) / 2
  {
    hide Ila0, Ila1, Ila2, Ila3, Ila4, Ila5, Ila6, Ila7, Ila8, Ila9, Ila10, Ila11, Ila12, Ila13, Ila14;
    if row < 7 {
      LowRowHalves(row, k);
    } else {
      HighRowHalves(row, k);
    }
  }

  /** Where the entry an octave up stands. */
  lemma NextRows(row: nat, k: nat)
    requires k < 24 && row <= 13 && 24 * row + k <= 320
    ensures IlaFrom(row, k + 32) == if k < 16 then IlaFrom(row + 1, k + 8) else IlaFrom(row + 2, k - 16)
  {
    hide IlaFrom;
    IlaNextRow(row, k + 32);
    if k >= 16 {
      IlaNextRow(row + 1, k + 8);
    }
  }

  lemma LowRowHalves(row: nat, k: nat)
    requires row < 7 && k < 24
    ensures IlaFrom(row, k) + 1 == (IlaFrom(row, k + 32) + 1) / 2
  {
    hide Ila0, Ila1, Ila2, Ila3, Ila4, Ila5, Ila6, Ila7, Ila8;
    NextRows(row, k);
    match row {
      case 0 => Halves0(k);
      case 1 => Halves1(k);
      case 2 => Halves2(k);
      case 3 => Halves3(k);
      case 4 => Halves4(k);
      case 5 => Halves5(k);
      case _ => Halves6(k);
    }
  }

  lemma HighRowHalves(row: nat, k: nat)
    requires 7 <= row <= 13 && k < 24 && 24 * row + k <= 320
    ensures IlaFrom(row, k) + 1 == (IlaFrom(row, k + 32) + 1) / 2
  {
    hide Ila7, Ila8, Ila9, Ila10, Ila11, Ila12, Ila13, Ila14;
    NextRows(row, k);
    match row {
      case 7 => Halves7(k);
      case 8 => Halves8(k);
      case 9 => Halves9(k);
      case 10 => Halves10(k);
      case 11 => Halves11(k);
      case 12 => Halves12(k);
      case _ => Halves13(k);
    }
  }

  /** An octave down, entries are half as large. */
  lemma OctaveHalves(i: nat)
    requires i <= 320
    ensures Ila(i) + 1 == (Ila(i + 32) + 1) / 2
  {
    hide IlaFrom;
    var row, k := i / 24, i % 24;
    RowHalves(row, k);
    IlaByRow(0, row, k);
    IlaByRow(0, row, k + 32);
  }

  /** Every entry, by its octave and its place in it: the rounded power of two, cut to the octave. */
  lemma {:induction false} IlaIsAntilogarithm(octave: nat, j: nat)
    requires octave <= 10 && j < 32
    ensures IsRoot(Ila(320 + j) + 1, Pow2(j))
    ensures Ila(32 * octave + j) + 1 == (Ila(320 + j) + 1) / Pow2(10 - octave)
    decreases 10 - octave
  {
    hide Ila, IsRoot;
    UpperOctave(j);
    if octave < 10 {
      IlaIsAntilogarithm(octave + 1, j);
      OctaveHalves(32 * octave + j);
      HalvedAgain(Ila(320 + j) + 1, Pow2(9 - octave));
    }
  }

  lemma HalvedAgain(x: nat, p: nat)
    requires p >= 1
    ensures x / p / 2 == x / (2 * p)
  {
    var q := x / p;
    assert q * p + x % p == x && 0 <= x % p < p;
    assert q == 2 * (q / 2) + q % 2;
    assert x == q / 2 * (2 * p) + (q % 2 * p + x % p) by {
      assert q * p == q / 2 * (2 * p) + q % 2 * p;
    }
    assert q % 2 * p + x % p < 2 * p by {
      if q % 2 == 1 {
        assert q % 2 * p == p;
      }
    }
    DivisionIsUnique(x, 2 * p, q / 2, q % 2 * p + x % p);
  }

  /** The last entry begins the next octave. */
  lemma LastEntry()
    ensures Ila(352) + 1 == 2 * (Ila(320) + 1)
  {
    hide IlaFrom;
    IlaByRow(0, 14, 16);
    IlaOfRows(16);
    OctaveHalves(320);
    LastMantissa();
  }

  lemma LastMantissa()
    ensures Ila14(16) == 4095
  {
  }

  lemma MantissasAscend(j: nat)
    requires j < 31
    ensures MANTISSAS[j] <= MANTISSAS[j + 1]
    ensures MANTISSAS[31] <= 4096
  {
  }

  /** The table ascends. */
  lemma {:induction false} IlaAscends(i: nat)
    requires i < 352
    ensures Ila(i) <= Ila(i + 1)
    decreases 352 - i
  {
    hide Ila;
    if i < 320 {
      IlaAscends(i + 32);
      OctaveHalves(i);
      OctaveHalves(i + 1);
    } else {
      MantissaAt(i - 320);
      MantissasAscend(if i < 351 then i - 320 else 0);
      if i < 351 {
        MantissaAt(i - 319);
      } else {
        LastEntry();
        MantissaAt(0);
        FirstMantissa();
      }
    }
  }

  lemma FirstMantissa()
    ensures MANTISSAS[0] == 2048
  {
  }

  lemma {:induction false} IlaMonotonic(i: nat, j: nat)
    requires i <= j <= 352
    ensures Ila(i) <= Ila(j)
    decreases j - i
  {
    hide Ila;
    if i < j {
      IlaAscends(i);
      IlaMonotonic(i + 1, j);
    }
  }

  // ----- the scale factors -----

  lemma ScaleAt(nb: int16)
    ensures 0 <= nb <= 22528 ==> Scaleh(nb) == 4 * (Ila(nb / 64) + 1)
    ensures 0 <= nb <= 18432 ==> Scalel(nb) == 4 * (Ila(nb / 64 + 64) + 1)
  {
    hide Ila, IlaIndex;
  }

  /** Both bands' scale factors double with every 2048 steps of their logarithms, but for rounding. */
  lemma ScalesDouble(nb: int16)
    requires 0 <= nb <= 20480
    ensures Scaleh(nb) == 4 * (Scaleh(nb + 2048) / 8)
    ensures nb <= 16384 ==> Scalel(nb) == 4 * (Scalel(nb + 2048) / 8)
  {
    hide Ila, Scaleh, Scalel;
    ScaleAt(nb);
    ScaleAt(nb + 2048);
    NextOctave(nb);
    OctaveHalves(nb / 64);
    FourTimes(Ila(nb / 64 + 32) + 1);
    if nb <= 16384 {
      OctaveHalves(nb / 64 + 64);
      FourTimes(Ila(nb / 64 + 96) + 1);
    }
  }

  lemma NextOctave(nb: int)
    ensures (nb + 2048) / 64 == nb / 64 + 32
  {
  }

  lemma FourTimes(x: int)
    ensures 4 * x / 8 == x / 2
  {
  }

  lemma ScalesMonotonic(nb: int16, nb': int16)
    requires 0 <= nb <= nb'
    ensures nb' <= 22528 ==> Scaleh(nb) <= Scaleh(nb')
    ensures nb' <= 18432 ==> Scalel(nb) <= Scalel(nb')
  {
    hide Ila, Scaleh, Scalel;
    ScaleAt(nb);
    ScaleAt(nb');
    if nb' <= 22528 {
      IlaMonotonic(nb / 64, nb' / 64);
    }
    if nb' <= 18432 {
      IlaMonotonic(nb / 64 + 64, nb' / 64 + 64);
    }
  }
}

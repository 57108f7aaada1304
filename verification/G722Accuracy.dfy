/** What the low-band quantiser promises: the cell it picks, and the error of the rebuilt value. */
module G722Accuracy {
  import opened Ints
  import opened FixedPoint
  import opened G722Tables
  import opened G722Quantizers

  lemma ThresholdsAscend(m: nat)
    requires m < 30
    ensures Threshold(m) < Threshold(m + 1)
  {
  }

  lemma {:induction false} LevelsMonotonic(m: nat, n: nat, detl: int16)
    requires m <= n <= 30 && 0 <= detl
    ensures Level(m, detl) <= Level(n, detl)
  {
    hide Level, Mul15, Threshold;
    if m < n {
      LevelsMonotonic(m, n - 1, detl);
      ThresholdsAscend(n - 1);
      Mul15Monotonic(Threshold(n - 1), Threshold(n), detl);
    }
  }

  // ----- the search finds the cell -----

  /** How many of the first `n` decision levels the magnitude `wd` has reached. */
  function LevelsReached(wd: int, detl: int, n: nat): nat
    requires n <= 31
  {
    if n == 0 then 0
    else LevelsReached(wd, detl, n - 1) + if Mul15(Threshold(n - 1), detl) <= wd then 1 else 0
  }

  /** `c` is the cell of `wd`: its lower level is reached, and its upper level is not (the last cell has none). */
  ghost predicate Brackets(wd: int16, detl: int16, c: nat) {
    && 1 <= c <= 30
    && Level(c - 1, detl) <= wd
    && (c < 30 ==> wd < Level(c, detl))
  }

  lemma CellBrackets(el: int16, detl: int16)
    ensures Brackets(Magnitude(el), detl, Cell(el, detl))
  {
    hide Level;
  }

  lemma {:induction false} BracketsCount(wd: int16, detl: int16, c: nat, n: nat)
    requires 0 <= detl && Brackets(wd, detl, c) && n <= 30
    ensures LevelsReached(wd, detl, n) == if n <= c then n else c
  {
    hide Level, Mul15, Threshold;
    if n > 0 {
      BracketsCount(wd, detl, c, n - 1);
      if n <= c {
        LevelsMonotonic(n - 1, c - 1, detl);
      } else {
        LevelsMonotonic(c, n - 1, detl);
      }
    }
  }

  /** The loop of `Quantl` stops at the number of levels reached; no other cell brackets the difference. */
  lemma CellCountsLevels(el: int16, detl: int16)
    requires 0 <= detl
    ensures Cell(el, detl) == LevelsReached(Magnitude(el), detl, 30)
    ensures forall c :: Brackets(Magnitude(el), detl, c) ==> c == Cell(el, detl)
  {
    hide Level, Cell, Search, Brackets;
    CellBrackets(el, detl);
    forall c | Brackets(Magnitude(el), detl, c)
      ensures c == LevelsReached(Magnitude(el), detl, 30)
    {
      BracketsRange(Magnitude(el), detl, c);
      BracketsCount(Magnitude(el), detl, c, 30);
    }
  }

  lemma BracketsRange(wd: int16, detl: int16, c: nat)
    requires Brackets(wd, detl, c)
    ensures 1 <= c <= 30
  {
  }

  // ----- the error of the four-bit core -----

  /** The core that a cell belongs to, and the decision levels that delimit the core's cell. */
  function CoreOf(c: nat): (k: nat)
    requires 1 <= c <= 30
    ensures k <= 7
  {
    (c + 1) / 4
  }

  function CoreBottom(k: nat): nat {
    if k == 0 then 0 else 4 * k - 2
  }

  function CoreTop(k: nat): nat {
    4 * k + 2
  }

  /** The width of the cell of core `k` at the scale factor `detl`. */
  function CoreWidth(k: nat, detl: int16): int
    requires k <= 7
  {
    Level(CoreTop(k), detl) as int - Level(CoreBottom(k), detl) as int
  }

  lemma CodeCore(negative: bool, c: nat)
    requires 1 <= c <= 30
    ensures RIL4[CellCode(negative, c) / 4] as int == CoreOf(c)
    ensures CoreOf(c) > 0 ==> (RISIL[CellCode(negative, c) / 4] == 0 <==> !negative)
  {
    hide CellCode;
    if negative {
      NegativeCode(c);
    } else {
      PositiveCode(c);
    }
  }

  /** The codes of either sign descend, but for the first two or three cells. */
  lemma NegativeCode(c: nat)
    requires 1 <= c <= 30
    ensures CellCode(true, c) == if c <= 2 then 64 - c else 34 - c
  {
    if c <= 8 {
    } else if c <= 16 {
    } else if c <= 24 {
    }
  }

  lemma PositiveCode(c: nat)
    requires 1 <= c <= 30
    ensures CellCode(false, c) == 62 - c
  {
    if c <= 8 {
    } else if c <= 16 {
    } else if c <= 24 {
    }
  }

  /** Eight times an entry of `oq4`: the magnitude that a core stands for, before it is scaled. */
  function CoreValue(k: nat): int16
    requires k <= 7
  {
    8 * OQ4[k]
  }

  lemma CoreValueInCell(k: nat)
    requires k <= 7
    ensures Threshold(CoreBottom(k)) <= CoreValue(k) <= Threshold(CoreTop(k))
  {
  }

  /** The magnitude that the core stands for lies between the levels that delimit it. */
  lemma RebuiltMagnitude(k: nat, detl: int16)
    requires k <= 7 && 0 <= detl
    ensures Level(CoreBottom(k), detl) as int <= Mul15(detl, CoreValue(k)) <= Level(CoreTop(k), detl) as int
  {
    hide Level, Threshold, CoreValue;
    CoreValueInCell(k);
    Mul15Monotonic(Threshold(CoreBottom(k)), CoreValue(k), detl);
    Mul15Monotonic(CoreValue(k), Threshold(CoreTop(k)), detl);
    assert Mul15(CoreValue(k), detl) == Mul15(detl, CoreValue(k));
  }

  lemma NegatedProduct(x: int, y: int)
    ensures Mul15(x, -y) == -Mul15(x, y) || Mul15(x, -y) == -Mul15(x, y) - 1
  {
    assert x * -y == -(x * y);
  }

  /** The difference lies in the cell of its core. */
  lemma MagnitudeInCore(el: int16, detl: int16)
    requires 0 <= detl
    requires Cell(el, detl) < 30 || Magnitude(el) < Level(30, detl)
    ensures var k := CoreOf(Cell(el, detl));
      Level(CoreBottom(k), detl) <= Magnitude(el) < Level(CoreTop(k), detl)
  {
    hide Level, Cell, Search;
    var c := Cell(el, detl);
    CellBrackets(el, detl);
    LevelsMonotonic(CoreBottom(CoreOf(c)), c - 1, detl);
    LevelsMonotonic(c, CoreTop(CoreOf(c)), detl);
  }

  /**
   * The value that the decoder rebuilds from the four-bit core is off by at most
   * the width of the core's cell, unless the difference lies beyond the last level.
   */
  lemma LowQuantizerError(el: int16, detl: int16)
    requires 0 <= detl <= 16384
    requires Cell(el, detl) < 30 || Magnitude(el) < Level(30, detl)
    ensures var width := CoreWidth(CoreOf(Cell(el, detl)), detl);
      -width <= Invqal(LowCode(el, detl), detl) - el <= width
  {
    hide Level, Cell, Search, CellCode, Magnitude, Invqal;
    var c := Cell(el, detl);
    var k := CoreOf(c);
    CodeCore(el < 0, c);
    MagnitudeInCore(el, detl);
    RebuiltMagnitude(k, detl);
    NegatedProduct(detl, CoreValue(k));
  }

  // ----- the high band -----

  lemma HighLevels(deth: int)
    requires 8 <= deth <= 16384
    ensures 0 <= Mul15(1616, deth) < Mul15(4512, deth) <= Mul15(7408, deth)
    ensures Mul15(-1616, deth) < 0 && Mul15(-7408, deth) < 0
    ensures -1 - Mul15(-1616, deth) < Mul15(4512, deth) <= -1 - Mul15(-7408, deth)
  {
    if deth >= 12 {
      assert 4512 * deth - 1616 * deth >= 0x8000;
    } else {
      assert Mul15(1616, deth) == 0;
    }
  }

  /** The value rebuilt from a high-band code lies in the code's own cell: quantising it again gives the code. */
  lemma HighRequantizes(ih: int16, deth: int16)
    requires 0 <= ih <= 3 && 8 <= deth <= 16384
    ensures Quanth(Invqah(ih, deth), deth) == ih
  {
    hide Quanth, Invqah, Mul15;
    HighLevels(deth);
  }

  /** In the inner cells the rebuilt value is off by at most the width of the cell. */
  lemma HighQuantizerError(eh: int16, deth: int16)
    requires 8 <= deth <= 16384 && Magnitude(eh) < Mul15(4512, deth)
    ensures var width := Mul15(4512, deth); -width <= Invqah(Quanth(eh, deth), deth) - eh <= width
  {
    hide Quanth, Invqah, Mul15;
    HighLevels(deth);
    assert Mul15(-1616, deth) >= -Mul15(4512, deth);
  }
}

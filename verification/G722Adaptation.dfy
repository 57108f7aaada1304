/** The tables of the adaptation against the header's second listing, and what the quantisers' codes do to it. */
module G722Adaptation {
  import opened Ints
  import opened FixedPoint
  import opened G722Tables
  import opened G722Quantizers
  import opened G722Accuracy
  import opened G722Antilog

  // ----- the second listing -----

  /** The stretches of `full_g722_consts` before that of `ila`, one by one. */
  const LISTED: seq<seq<int16>> := [
    [3 * 2, -11 * 2, -11 * 2, 53 * 2, 12 * 2, -156 * 2, 32 * 2, 362 * 2, -210 * 2, -805 * 2, 951 * 2, 3876 * 2,
     3876 * 2, 951 * 2, -805 * 2, -210 * 2, 362 * 2, 32 * 2, -156 * 2, 12 * 2, 53 * 2, -11 * 2, -11 * 2, 3 * 2],
    [0x0000, 0x003F, 0x003E, 0x001F, 0x001E, 0x001D, 0x001C, 0x001B, 0x001A, 0x0019, 0x0018, 0x0017, 0x0016, 0x0015,
     0x0014, 0x0013, 0x0012, 0x0011, 0x0010, 0x000F, 0x000E, 0x000D, 0x000C, 0x000B, 0x000A, 0x0009, 0x0008, 0x0007,
     0x0006, 0x0005, 0x0004, 0x0000],
    [0x0000, 0x003D, 0x003C, 0x003B, 0x003A, 0x0039, 0x0038, 0x0037, 0x0036, 0x0035, 0x0034, 0x0033, 0x0032, 0x0031,
     0x0030, 0x002F, 0x002E, 0x002D, 0x002C, 0x002B, 0x002A, 0x0029, 0x0028, 0x0027, 0x0026, 0x0025, 0x0024, 0x0023,
     0x0022, 0x0021, 0x0020, 0x0000],
    [0, 35, 72, 110, 150, 190, 233, 276, 323, 370, 422, 473, 530, 587, 650, 714,
     786, 858, 940, 1023, 1121, 1219, 1339, 1458, 1612, 1765, 1980, 2195, 2557, 2919, 3200],
    [0, 7, 6, 5, 4, 3, 2, 1, 7, 6, 5, 4, 3, 2, 1, 0],
    [0, -1, -1, -1, -1, -1, -1, -1, 0, 0, 0, 0, 0, 0, 0, 0],
    [0, 150, 323, 530, 786, 1121, 1612, 2557],
    [-60, -30, 58, 172, 334, 538, 1198, 3042]
  ]

  /** The stretches after that of `ila`. */
  const LISTED_LAST: seq<seq<int16>> := [
    [0, 1, 0], [0, 3, 2],
    [2, 1, 2, 1],
    [-1, -1, 0, 0],
    [0, 202, 926],
    [0, -214, 798]
  ]

  /** The two listings of the header agree. */
  lemma ListingsAgree()
    ensures LISTED[0] == COEF_QMF && LISTED[1] == MISIL[0] && LISTED[2] == MISIL[1]
    ensures LISTED[3] == Q6 && LISTED[4] == RIL4 && LISTED[5] == RISIL && LISTED[6] == OQ4 && LISTED[7] == WL
  {
  }

  lemma LastListingsAgree()
    ensures LISTED_LAST[0] == MISIH[0] && LISTED_LAST[1] == MISIH[1] && LISTED_LAST[2] == IH2
    ensures LISTED_LAST[3] == SIH && LISTED_LAST[4] == OQ2 && LISTED_LAST[5] == WH
  {
  }

  // ----- how the tables belong together -----

  /** The value rebuilt for a core of the low band is every fourth decision level. */
  lemma CoreIsLevel(k: nat)
    requires k <= 7
    ensures OQ4[k] == Q6[4 * k]
  {
  }

  /** The one decision level of the high band is the mean of the two values rebuilt. */
  lemma HighLevelIsMean()
    ensures OQ2[1] + OQ2[2] == 2 * 564
  {
  }

  /** The filter is symmetric: both phases have the same taps, in opposite order. */
  lemma TapsMirrored(i: nat)
    requires i < 24
    ensures COEF_QMF[i] == COEF_QMF[23 - i]
  {
  }

  // ----- larger differences, larger scale factors -----

  lemma StepsAscend(k: nat, k': nat)
    requires k <= k' <= 7
    ensures WL[k] <= WL[k']
  {
  }

  lemma {:induction false} LevelsReachedMonotonic(wd: int, wd': int, detl: int16, n: nat)
    requires wd <= wd' && n <= 31
    ensures LevelsReached(wd, detl, n) <= LevelsReached(wd', detl, n)
  {
    if n > 0 {
      LevelsReachedMonotonic(wd, wd', detl, n - 1);
    }
  }

  /** A difference of larger magnitude never lets the low band's scale factors grow less. */
  lemma LowAdaptsMonotonically(el: int16, el': int16, detl: int16, nbl: int16, nbl': int16)
    requires Magnitude(el) <= Magnitude(el') && 0 <= detl && nbl <= nbl'
    ensures Logscl(LowCode(el, detl), nbl) <= Logscl(LowCode(el', detl), nbl')
    ensures Scalel(Logscl(LowCode(el, detl), nbl)) <= Scalel(Logscl(LowCode(el', detl), nbl'))
  {
    hide Cell, CellCode, Magnitude, Scalel, LevelsReached, Mul15;
    var c, c' := Cell(el, detl), Cell(el', detl);
    CellCountsLevels(el, detl);
    CellCountsLevels(el', detl);
    LevelsReachedMonotonic(Magnitude(el), Magnitude(el'), detl, 30);
    CodeCore(el < 0, c);
    CodeCore(el' < 0, c');
    StepsAscend(CoreOf(c), CoreOf(c'));
    Mul15Monotonic(nbl, nbl', 32512);
    ScalesMonotonic(Logscl(LowCode(el, detl), nbl), Logscl(LowCode(el', detl), nbl'));
  }

  lemma HighAdaptsMonotonically(eh: int16, eh': int16, deth: int16, nbh: int16, nbh': int16)
    requires Magnitude(eh) <= Magnitude(eh') && nbh <= nbh'
    ensures Logsch(Quanth(eh, deth), nbh) <= Logsch(Quanth(eh', deth), nbh')
    ensures Scaleh(Logsch(Quanth(eh, deth), nbh)) <= Scaleh(Logsch(Quanth(eh', deth), nbh'))
  {
    hide Magnitude, Quanth, Scaleh, Mul15;
    Mul15Monotonic(nbh, nbh', 32512);
    ScalesMonotonic(Logsch(Quanth(eh, deth), nbh), Logsch(Quanth(eh', deth), nbh'));
  }
}

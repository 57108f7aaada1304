/** The constant tables of the G.722 encoder. */
module G722Tables {
  import opened Ints

  const COEF_QMF: seq<int16> := [
    6, -22, -22, 106, 24, -312, 64, 724, -420, -1610, 1902, 7752,
    7752, 1902, -1610, -420, 724, 64, -312, 24, 106, -22, -22, 6
  ]

  const MISIL: seq<seq<int16>> := [
    [0x00, 0x3F, 0x3E, 0x1F, 0x1E, 0x1D, 0x1C, 0x1B, 0x1A, 0x19, 0x18, 0x17, 0x16, 0x15, 0x14, 0x13,
     0x12, 0x11, 0x10, 0x0F, 0x0E, 0x0D, 0x0C, 0x0B, 0x0A, 0x09, 0x08, 0x07, 0x06, 0x05, 0x04, 0x00],
    [0x00, 0x3D, 0x3C, 0x3B, 0x3A, 0x39, 0x38, 0x37, 0x36, 0x35, 0x34, 0x33, 0x32, 0x31, 0x30, 0x2F,
     0x2E, 0x2D, 0x2C, 0x2B, 0x2A, 0x29, 0x28, 0x27, 0x26, 0x25, 0x24, 0x23, 0x22, 0x21, 0x20, 0x00]
  ]

  const Q6: seq<int16> := [
    0, 35, 72, 110, 150, 190, 233, 276, 323, 370, 422, 473, 530, 587, 650, 714,
    786, 858, 940, 1023, 1121, 1219, 1339, 1458, 1612, 1765, 1980, 2195, 2557, 2919, 3200
  ]

  const RIL4: seq<int16> := [0, 7, 6, 5, 4, 3, 2, 1, 7, 6, 5, 4, 3, 2, 1, 0]
  const RISIL: seq<int16> := [0, -1, -1, -1, -1, -1, -1, -1, 0, 0, 0, 0, 0, 0, 0, 0]
  const OQ4: seq<int16> := [0, 150, 323, 530, 786, 1121, 1612, 2557]
  const WL: seq<int16> := [-60, -30, 58, 172, 334, 538, 1198, 3042]

  const MISIH: seq<seq<int16>> := [[0, 1, 0], [0, 3, 2]]
  const IH2: seq<int16> := [2, 1, 2, 1]
  const SIH: seq<int16> := [-1, -1, 0, 0]
  const OQ2: seq<int16> := [0, 202, 926]
  const WH: seq<int16> := [0, -214, 798]

  // The table `ila`, row by row in the layout of the source.

  function Ila0(k: nat): (r: int16)
    requires k < 24
    ensures 1 <= r <= 2
  {
    [1, 1, 1, 1, 1, 1, 1, 1, 1, 1, 1, 1, 1, 1, 1, 1, 1, 1, 1, 2, 2, 2, 2, 2][k]
  }

  function Ila1(k: nat): (r: int16)
    requires k < 24
    ensures 2 <= r <= 4
  {
    [2, 2, 2, 2, 2, 2, 2, 2, 3, 3, 3, 3, 3, 3, 3, 3, 3, 3, 3, 4, 4, 4, 4, 4][k]
  }

  function Ila2(k: nat): (r: int16)
    requires k < 24
    ensures 4 <= r <= 8
    ensures k >= 16 ==> 7 <= r
  {
    [4, 4, 4, 5, 5, 5, 5, 5, 5, 5, 6, 6, 6, 6, 6, 6, 7, 7, 7, 7, 7, 7, 8, 8][k]
  }

  function Ila3(k: nat): (r: int16)
    requires k < 24
    ensures 8 <= r <= 14
  {
    [8, 8, 8, 9, 9, 9, 9, 10, 10, 10, 10, 11, 11, 11, 11, 12, 12, 12, 13, 13, 13, 13, 14, 14][k]
  }

  function Ila4(k: nat): (r: int16)
    requires k < 24
    ensures 15 <= r <= 25
  {
    [15, 15, 15, 16, 16, 16, 17, 17, 18, 18, 18, 19, 19, 20, 20, 21, 21, 22, 22, 23, 23, 24, 24, 25][k]
  }

  function Ila5(k: nat): (r: int16)
    requires k < 24
    ensures 25 <= r <= 43
  {
    [25, 26, 27, 27, 28, 28, 29, 30, 31, 31, 32, 33, 33, 34, 35, 36, 37, 37, 38, 39, 40, 41, 42, 43][k]
  }

  function Ila6(k: nat): (r: int16)
    requires k < 24
    ensures 44 <= r <= 73
  {
    [44, 45, 46, 47, 48, 49, 50, 51, 52, 54, 55, 56, 57, 58, 60, 61, 63, 64, 65, 67, 68, 70, 71, 73][k]
  }

  function Ila7(k: nat): (r: int16)
    requires k < 24
    ensures 75 <= r <= 124
  {
    [75, 76, 78, 80, 82, 83, 85, 87, 89, 91, 93, 95, 97, 99, 102, 104, 106, 109, 111, 113, 116, 118, 121, 124][k]
  }

  function Ila8(k: nat): (r: int16)
    requires k < 24
    ensures 127 <= r <= 209
  {
    [127, 129, 132, 135, 138, 141, 144, 147, 151, 154, 157, 161, 165, 168, 172, 176, 180, 184, 188, 192, 196, 200,
     205, 209][k]
  }

  function Ila9(k: nat): (r: int16)
    requires k < 24
    ensures 214 <= r <= 353
  {
    [214, 219, 223, 228, 233, 238, 244, 249, 255, 260, 266, 272, 278, 284, 290, 296, 303, 310, 316, 323, 331, 338,
     345, 353][k]
  }

  function Ila10(k: nat): (r: int16)
    requires k < 24
    ensures 361 <= r <= 594
  {
    [361, 369, 377, 385, 393, 402, 411, 420, 429, 439, 448, 458, 468, 478, 489, 500, 511, 522, 533, 545, 557, 569,
     582, 594][k]
  }

  function Ila11(k: nat): (r: int16)
    requires k < 24
    ensures 607 <= r <= 1001
  {
    [607, 621, 634, 648, 663, 677, 692, 707, 723, 739, 755, 771, 788, 806, 823, 841, 860, 879, 898, 918, 938, 958,
     979, 1001][k]
  }

  function Ila12(k: nat): (r: int16)
    requires k < 24
    ensures 1023 <= r <= 1684
  {
    [1023, 1045, 1068, 1092, 1115, 1140, 1165, 1190, 1216, 1243, 1270, 1298, 1327, 1356, 1386, 1416, 1447, 1479, 1511,
     1544, 1578, 1613, 1648, 1684][k]
  }

  function Ila13(k: nat): (r: int16)
    requires k < 24
    ensures 1721 <= r <= 2833
  {
    [1721, 1759, 1797, 1837, 1877, 1918, 1960, 2003, 2047, 2092, 2138, 2185, 2232, 2281, 2331, 2382, 2434, 2488, 2542,
     2598, 2655, 2713, 2773, 2833][k]
  }

  function Ila14(k: nat): (r: int16)
    requires k < 17
    ensures 2895 <= r <= 4095
  {
    [2895, 2959, 3024, 3090, 3157, 3227, 3297, 3370, 3443, 3519, 3596, 3675, 3755, 3837, 3921, 4007, 4095][k]
  }

  /** Entry `i` of the table that starts with row `row`. */
  function IlaFrom(row: nat, i: nat): (r: int16)
    requires row <= 14 && 24 * row + i < 353
    ensures 1 <= r <= 4095
    ensures 24 * row + i >= 64 ==> 7 <= r
    decreases i
  {
    if i >= 24 then IlaFrom(row + 1, i - 24)
    else match row
      case 0 => Ila0(i)
      case 1 => Ila1(i)
      case 2 => Ila2(i)
      case 3 => Ila3(i)
      case 4 => Ila4(i)
      case 5 => Ila5(i)
      case 6 => Ila6(i)
      case 7 => Ila7(i)
      case 8 => Ila8(i)
      case 9 => Ila9(i)
      case 10 => Ila10(i)
      case 11 => Ila11(i)
      case 12 => Ila12(i)
      case 13 => Ila13(i)
      case _ => Ila14(i)
  }

  /** Entry `i` of `ila`. */
  function Ila(i: nat): (r: int16)
    requires i < 353
    ensures 1 <= r <= 4095
    ensures i >= 64 ==> 7 <= r
  {
    IlaFrom(0, i)
  }
}

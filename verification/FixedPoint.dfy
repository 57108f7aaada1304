/** The 16- and 32-bit saturating primitives of the G.722 encoder. */
module FixedPoint {
  import opened Ints

  lemma Pow2Values()
    ensures Pow2(2) == 4 && Pow2(3) == 8 && Pow2(6) == 64 && Pow2(7) == 128
    ensures Pow2(15) == 0x8000 && Pow2(16) == 0x1_0000 && Pow2(31) == 0x8000_0000
  {
    assert Pow2(4) == 16 && Pow2(8) == 256 && Pow2(12) == 0x1000;
    assert Pow2(20) == 0x10_0000 && Pow2(24) == 0x100_0000 && Pow2(28) == 0x1000_0000;
  }

  function SaturateAdd(op1: int32, op2: int32): (r: int32)
    ensures r == Clamp(op1 + op2, MIN_32, MAX_32)
  {
    var out := ToInt32(op1 + op2);
    if (op1 < 0) == (op2 < 0) && (out < 0) != (op1 < 0) then
      if op1 < 0 then MIN_32 else MAX_32
    else
      out
  }

  function SaturateSubtract(op1: int32, op2: int32): (r: int32)
    ensures r == Clamp(op1 - op2, MIN_32, MAX_32)
  {
    var out := ToInt32(op1 - op2);
    if (op1 < 0) != (op2 < 0) && (out < 0) != (op1 < 0) then
      if op1 < 0 then MIN_32 else MAX_32
    else
      out
  }

  function MultiplyAdd(addOp: int32, mulOp1: int16, mulOp2: int16): (r: int32)
    ensures r == Clamp(addOp + mulOp1 * mulOp2, MIN_32, MAX_32)
  {
    ProductRange(mulOp1, mulOp2);
    SaturateAdd(addOp, mulOp1 * mulOp2)
  }

  function ShiftRight(op1: int32, op2: int16): (r: int32)
    requires 0 <= op2
    ensures r == op1 / Pow2(op2)
  {
    if op2 >= 31 then
      Pow2Values();
      Pow2Monotonic(31, op2);
      SmallQuotient(op1, Pow2(op2));
      if op1 < 0 then -1 else 0
    else
      Quotient32(op1, Pow2(op2));
      op1 / Pow2(op2)
  }

  function ShiftLeftShort(op1: int16, op2: int16): (r: int16)
    requires 0 <= op2
    ensures r == Clamp(op1 * Pow2(op2), MIN_16, MAX_16)
  {
    ProductSign(op1, Pow2(op2));
    var result := op1 * Pow2(op2);
    if op2 > 15 && op1 != 0 then
      LargeShift(op1, op2);
      if op1 > 0 then MAX_16 else MIN_16
    else if result != ToInt16(result) then
      if op1 > 0 then MAX_16 else MIN_16
    else
      result
  }

  /** A shift of a non-zero value by more than fifteen places leaves the 16-bit range. */
  lemma LargeShift(op1: int16, op2: nat)
    requires op1 != 0 && op2 > 15
    ensures op1 > 0 ==> op1 * Pow2(op2) > MAX_16
    ensures op1 < 0 ==> op1 * Pow2(op2) < MIN_16
  {
    hide Pow2;
    Pow2Values();
    Pow2Monotonic(16, op2);
    LargeProduct(op1, Pow2(op2));
  }

  lemma LargeProduct(x: int, p: int)
    requires p >= 0x1_0000
    ensures x > 0 ==> x * p > 0x7fff
    ensures x < 0 ==> x * p < -0x8000
  {
    if x > 0 {
      MulMono(1, x, p);
    } else if x < 0 {
      MulMono(1, -x, p);
    }
  }

  /** Bitwise complement of a two's complement value. */
  function Complement(x: int): int {
    -x - 1
  }

  function ShiftRightShort(op1: int16, op2: int16): (r: int16)
    requires 0 <= op2
    ensures r == op1 / Pow2(op2)
    ensures op2 == 15 ==> r == if op1 < 0 then -1 else 0
  {
    if op2 >= 15 then
      Pow2Values();
      Pow2Monotonic(15, op2);
      SmallQuotient(op1, Pow2(op2));
      if op1 < 0 then -1 else 0
    else if op1 < 0 then
      ComplementedQuotient(op1, Pow2(op2));
      Complement(Complement(op1) / Pow2(op2))
    else
      Quotient32(op1, Pow2(op2));
      op1 / Pow2(op2)
  }

  function Clamp15ToBits(op: int32): (r: int16)
    ensures r == Clamp(op, -16384, 16383)
  {
    if op > 16383 then 16383 else if op < -16384 then -16384 else op
  }

  function Saturate(op: int32): (r: int16)
    ensures r == Clamp(op, MIN_16, MAX_16)
  {
    if op > MAX_16 then MAX_16 else if op < MIN_16 then MIN_16 else op
  }

  function SaturateSubtractShort(op1: int16, op2: int16): (r: int16)
    ensures r == Clamp(op1 - op2, MIN_16, MAX_16)
  {
    Saturate(op1 - op2)
  }

  function SaturateAddShort(op1: int16, op2: int16): (r: int16)
    ensures r == Clamp(op1 + op2, MIN_16, MAX_16)
  {
    Saturate(op1 + op2)
  }

  /** The product as an unbounded integer. */
  function Times(x: int, y: int): int {
    x * y
  }

  /** The exact scaled product: floor(x * y / 2^15). */
  function Mul15(x: int, y: int): int {
    x * y / 0x8000
  }

  /**
   * The product of two Q15 numbers: the low fifteen bits are masked off, the
   * rest is shifted down, bit 16 is extended by hand, and the low half is kept.
   */
  function ScaledMult(op1: int16, op2: int16): (r: int16)
    ensures !(op1 == MIN_16 && op2 == MIN_16) ==> r == Mul15(op1, op2)
    ensures op1 == MIN_16 && op2 == MIN_16 ==> r == MIN_16
  {
    ProductRange(op1, op2);
    DescaledProduct(op1, op2);
    Descaled(op1 * op2)
  }

  lemma DescaledProduct(op1: int16, op2: int16)
    ensures -0x3fff_8000 <= op1 * op2 <= 0x4000_0000
    ensures !(op1 == MIN_16 && op2 == MIN_16) ==> Descaled(op1 * op2) == Mul15(op1, op2)
    ensures op1 == MIN_16 && op2 == MIN_16 ==> Descaled(op1 * op2) == MIN_16
  {
    hide Descaled;
    ProductRange(op1, op2);
  }

  /** A product of two 16-bit numbers without its fraction. */
  function Descaled(p: int): (r: int16)
    requires -0x3fff_8000 <= p <= 0x4000_0000
    ensures p < 0x4000_0000 ==> r == p / 0x8000
    ensures p == 0x4000_0000 ==> r == MIN_16
  {
    SignBits(p / 0x8000);
    var product := (p - p % 0x8000) / 0x8000;
    var extended := if product / 0x1_0000 % 2 == 1 then product % 0x1_0000 - 0x1_0000 else product;
    ToInt16(extended)
  }

  lemma SignBits(product: int)
    requires -0x8000 <= product <= 0x8000
    ensures product / 0x1_0000 % 2 == if product < 0 then 1 else 0
    ensures product < 0 ==> product % 0x1_0000 - 0x1_0000 == product
  {
  }

  // ----- arithmetic -----

  lemma ProductRange(x: int16, y: int16)
    ensures -0x3fff_8000 <= x * y <= 0x4000_0000
    ensures !(x == MIN_16 && y == MIN_16) ==> x * y < 0x4000_0000
  {
    if x == MIN_16 || y == MIN_16 {
    } else {
      MulBound(x, 0x7fff, y, 0x7fff);
    }
  }

  lemma MulMono(x: int, x': int, y: int)
    requires x <= x' && 0 <= y
    ensures x * y <= x' * y
  {}

  lemma MulBound(x: int, m: int, y: int, n: int)
    requires -m <= x <= m && -n <= y <= n
    ensures -(m * n) <= x * y <= m * n
  {
    var ax := if x < 0 then -x else x;
    var ay := if y < 0 then -y else y;
    MulMono(ax, m, ay);
    MulMono(ay, n, m);
  }

  lemma Quotient32(x: int, p: int)
    requires p >= 1
    ensures x >= 0 ==> 0 <= x / p <= x
    ensures x < 0 ==> x <= x / p < 0
  {
    QuotientBound(x, p, x / p, x % p);
  }

  lemma QuotientBound(x: int, p: int, q: int, r: int)
    requires x == q * p + r && 0 <= r < p
    ensures x >= 0 ==> 0 <= q <= x
    ensures x < 0 ==> x <= q < 0
  {
    if q >= 0 {
      MulMono(1, p, q);
    } else {
      MulMono(1, p, -q - 1);
      assert q * p == -((-q - 1) * p) - p;
    }
  }

  lemma SmallQuotient(x: int, p: int)
    requires p >= 1 && -p <= x < p
    ensures x / p == if x < 0 then -1 else 0
  {
    DivisionIsUnique(x, p, if x < 0 then -1 else 0, if x < 0 then x + p else x);
  }

  lemma ComplementedQuotient(x: int, p: int)
    requires x < 0 && p >= 1
    ensures Complement(Complement(x) / p) == x / p
    ensures x <= x / p < 0
  {
    var c := Complement(x);
    var q := c / p;
    assert q * p + c % p == c && 0 <= c % p < p;
    assert x == (-1 - q) * p + (p - 1 - c % p);
    DivisionIsUnique(x, p, -1 - q, p - 1 - c % p);
    Quotient32(x, p);
  }

  lemma DivisionIsUnique(x: int, p: int, q: int, r: int)
    requires p >= 1 && 0 <= r < p && x == q * p + r
    ensures x / p == q && x % p == r
  {
    assert x / p * p + x % p == x;
    if x / p > q { MulMono(q + 1, x / p, p); }
    if x / p < q { MulMono(x / p + 1, q, p); }
  }

  lemma ProductSign(x: int, p: nat)
    requires p >= 1
    ensures x > 0 ==> x * p >= x
    ensures x <= 0 ==> x * p <= x
  {
    if x > 0 { MulMono(1, p, x); } else { MulMono(1, p, -x); }
  }

  lemma Mul15Bound(x: int, m: int, y: int, n: int)
    requires -m <= x <= m && -n <= y <= n
    ensures -(m * n) / 0x8000 <= Mul15(x, y) <= m * n / 0x8000
  {
    MulBound(x, m, y, n);
  }

  lemma Mul15Monotonic(x: int, x': int, y: int)
    requires x <= x' && 0 <= y
    ensures Mul15(x, y) <= Mul15(x', y)
  {
    MulMono(x, x', y);
  }
}

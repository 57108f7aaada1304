/** Iterating a block function over the 64-byte blocks of a message, and the 64-bit bit counter. */
module Blocks {
  import opened Ints

  /** The chaining value after the first `n` blocks of `msg`. */
  function Chain<S>(f: (S, seq<byte>) -> S, h: S, msg: seq<byte>, n: nat): S
    requires 64 * n <= |msg|
  {
    if n == 0 then h else f(Chain(f, h, msg, n - 1), msg[64 * (n - 1)..64 * n])
  }

  /** The chaining value after the whole blocks among the first `k` bytes of `msg`. */
  function ChainTo<S>(f: (S, seq<byte>) -> S, h: S, msg: seq<byte>, k: nat): S
    requires k <= |msg|
  {
    Chain(f, h, msg, k / 64)
  }

  /** The chaining value after all whole blocks of `msg`. */
  function ChainAll<S>(f: (S, seq<byte>) -> S, h: S, msg: seq<byte>): S {
    ChainTo(f, h, msg, |msg|)
  }

  /** The bytes after the last whole block. */
  function Tail(msg: seq<byte>): (t: seq<byte>)
    ensures |t| == |msg| % 64
  {
    msg[|msg| - |msg| % 64..]
  }

  /** Later bytes do not change the chaining value. */
  lemma {:induction false} ChainOfPrefix<S>(f: (S, seq<byte>) -> S, h: S, msg: seq<byte>, more: seq<byte>, n: nat)
    requires 64 * n <= |msg|
    ensures Chain(f, h, msg + more, n) == Chain(f, h, msg, n)
  {
    if n > 0 {
      ChainOfPrefix(f, h, msg, more, n - 1);
      assert (msg + more)[64 * (n - 1)..64 * n] == msg[64 * (n - 1)..64 * n];
    }
  }

  // ----- how new data joins a message -----

  lemma NextBlock<S>(f: (S, seq<byte>) -> S, h: S, msg: seq<byte>, k: nat)
    requires k % 64 == 0 && k + 64 <= |msg|
    ensures ChainTo(f, h, msg, k + 64) == f(ChainTo(f, h, msg, k), msg[k..k + 64])
  {
    assert (k + 64) / 64 == k / 64 + 1;
  }

  /** With new data behind it, `msg` still gives the chaining value of its own blocks. */
  lemma Continue<S>(f: (S, seq<byte>) -> S, h: S, msg: seq<byte>, data: seq<byte>)
    ensures ChainTo(f, h, msg + data, |msg| - |msg| % 64) == ChainAll(f, h, msg)
  {
    ChainOfPrefix(f, h, msg, data, |msg| / 64);
    assert (|msg| - |msg| % 64) / 64 == |msg| / 64;
  }

  /** The first block: what the buffer held, and the start of the new data. */
  lemma FirstBlock<S>(f: (S, seq<byte>) -> S, h: S, msg: seq<byte>, data: seq<byte>)
    requires |msg| % 64 + |data| >= 64
    ensures var i := 64 - |msg| % 64;
      ChainTo(f, h, msg + data, |msg| + i) == f(ChainAll(f, h, msg), Tail(msg) + data[..i])
  {
    hide ChainTo, ChainAll;
    var j := |msg| % 64;
    var k := |msg| - j;
    Continue(f, h, msg, data);
    NextBlock(f, h, msg + data, k);
    assert (msg + data)[k..k + 64] == Tail(msg) + data[..64 - j];
  }

  /** A whole block of the new data. */
  lemma DataBlock<S>(f: (S, seq<byte>) -> S, h: S, msg: seq<byte>, data: seq<byte>, p: nat)
    requires (|msg| + p) % 64 == 0 && p + 64 <= |data|
    ensures ChainTo(f, h, msg + data, |msg| + p + 64) == f(ChainTo(f, h, msg + data, |msg| + p), data[p..p + 64])
  {
    hide ChainTo, ChainAll;
    NextBlock(f, h, msg + data, |msg| + p);
    assert (msg + data)[|msg| + p..|msg| + p + 64] == data[p..p + 64];
  }

  /** Fewer than 64 octets of new data are left over. */
  lemma LastPart<S>(f: (S, seq<byte>) -> S, h: S, msg: seq<byte>, data: seq<byte>, p: nat)
    requires (|msg| + p) % 64 == 0 && p <= |data| < p + 64
    ensures ChainTo(f, h, msg + data, |msg| + p) == ChainAll(f, h, msg + data)
    ensures |data| - p == |msg + data| % 64 && Tail(msg + data) == data[p..]
  {
    hide Chain;
    var n := |msg + data|;
    assert n == (|msg| + p) + (|data| - p);
    assert n / 64 == (|msg| + p) / 64;
    assert (msg + data)[|msg| + p..] == data[p..];
  }

  /** The new data do not complete a block. */
  lemma NoBlock<S>(f: (S, seq<byte>) -> S, h: S, msg: seq<byte>, data: seq<byte>)
    requires |msg| % 64 + |data| < 64
    ensures ChainAll(f, h, msg + data) == ChainAll(f, h, msg)
    ensures |msg| % 64 + |data| == |msg + data| % 64 && Tail(msg + data) == Tail(msg) + data
  {
    hide Chain;
    ChainOfPrefix(f, h, msg, data, |msg| / 64);
    var k := |msg| - |msg| % 64;
    assert |msg + data| / 64 == |msg| / 64;
    assert |msg + data| - |msg + data| % 64 == k;
    assert (msg + data)[k..] == msg[k..] + data;
  }

  lemma BlockEnds(n: nat)
    ensures (n + (64 - n % 64)) % 64 == 0
  {
  }

  lemma NextBlockStart(n: nat)
    ensures (n + 64) % 64 == n % 64
  {
  }

  // ----- the bit counter in two words -----

  const TWO_32 := 0x1_0000_0000

  function Low32(x: nat): uint32 {
    x % TWO_32
  }

  function High32(x: nat): uint32 {
    x / TWO_32 % TWO_32
  }

  /**
   * The counter update: the low word grows by the low word of the new bit count, and the
   * high word by what was lost from it and by the carry, seen as a sum below an addend.
   */
  lemma CounterAdds(n: nat, len: nat)
    ensures var s := (Low32(8 * n) + Low32(8 * len)) % TWO_32;
      && s == Low32(8 * (n + len))
      && (s < Low32(8 * n) <==> s < Low32(8 * len))
      && (High32(8 * n) + len / 0x2000_0000 + if s < Low32(8 * n) then 1 else 0) % TWO_32 == High32(8 * (n + len))
  {
    var a, b := 8 * n, 8 * len;
    Split(a);
    Split(b);
    Split(a + b);
    assert len / 0x2000_0000 == b / TWO_32;
    var carry := if Low32(a) + Low32(b) >= TWO_32 then 1 else 0;
    QuotientOfSum(a, b, carry);
    ModOfSum(a / TWO_32, b / TWO_32 + carry);
  }

  lemma Split(x: nat)
    ensures x == x / TWO_32 * TWO_32 + Low32(x)
  {
  }

  lemma QuotientOfSum(a: nat, b: nat, carry: nat)
    requires carry == if Low32(a) + Low32(b) >= TWO_32 then 1 else 0
    ensures (a + b) / TWO_32 == a / TWO_32 + b / TWO_32 + carry
    ensures Low32(a + b) == Low32(a) + Low32(b) - carry * TWO_32
  {
  }

  lemma ModOfSum(x: nat, y: nat)
    ensures (x % TWO_32 + y) % TWO_32 == (x + y) % TWO_32
  {
  }

  lemma CarryThenAdd(x: nat, y: nat)
    ensures ((x + 1) % TWO_32 + y) % TWO_32 == (x + y + 1) % TWO_32
  {
    ModOfSum(x + 1, y);
  }

  lemma CarryAfterAdd(x: nat)
    ensures (x % TWO_32 + 1) % TWO_32 == (x + 1) % TWO_32
  {
    ModOfSum(x, 1);
  }

  /** The bits 3..8 of the low counter word give the fill of the block buffer. */
  lemma CounterOffset(n: nat)
    ensures Low32(8 * n) / 8 % 64 == n % 64
  {
    hide Low32;
    var q, r := n / 0x2000_0000, n % 0x2000_0000;
    LowBits(q, r);
    Rest64(0x80_0000 * q, r);
    assert 8 * n == TWO_32 * q + 8 * r && n == 64 * (0x80_0000 * q) + r;
  }

  lemma LowBits(q: nat, r: nat)
    requires r < 0x2000_0000
    ensures Low32(TWO_32 * q + 8 * r) == 8 * r
  {
  }

  lemma Rest64(q: int, r: int)
    ensures (64 * q + r) % 64 == r % 64
  {
  }

  // ----- words as bytes -----

  /** Byte `k` of a word, counted from the least significant one. */
  function ByteOf(w: uint32, k: nat): byte
    requires k < 4
  {
    match k
    case 0 => w % 0x100
    case 1 => w / 0x100 % 0x100
    case 2 => w / 0x1_0000 % 0x100
    case _ => w / 0x100_0000 % 0x100
  }

  function BigEndian(w: uint32): (b: seq<byte>)
    ensures |b| == 4
  {
    [ByteOf(w, 3), ByteOf(w, 2), ByteOf(w, 1), ByteOf(w, 0)]
  }

  function LittleEndian(w: uint32): (b: seq<byte>)
    ensures |b| == 4
  {
    [ByteOf(w, 0), ByteOf(w, 1), ByteOf(w, 2), ByteOf(w, 3)]
  }

  /** The number that octets stand for, the most significant one first. */
  function FromBigEndian(b: seq<byte>): nat {
    if |b| == 0 then 0 else 0x100 * FromBigEndian(b[..|b| - 1]) + b[|b| - 1]
  }

  /** The number that octets stand for, the least significant one first. */
  function FromLittleEndian(b: seq<byte>): nat {
    if |b| == 0 then 0 else b[0] + 0x100 * FromLittleEndian(b[1..])
  }

  /** The octets of a word stand for it, in either order. */
  lemma WordOfOctets(w: uint32)
    ensures FromBigEndian(BigEndian(w)) == w && FromLittleEndian(LittleEndian(w)) == w
  {
    hide ByteOf, FromBigEndian, FromLittleEndian;
    FourOctets(ByteOf(w, 3), ByteOf(w, 2), ByteOf(w, 1), ByteOf(w, 0));
    OctetsAdd(w);
    assert BigEndian(w) == [ByteOf(w, 3), ByteOf(w, 2), ByteOf(w, 1), ByteOf(w, 0)];
    assert LittleEndian(w) == [ByteOf(w, 0), ByteOf(w, 1), ByteOf(w, 2), ByteOf(w, 3)];
  }

  lemma FourOctets(b3: byte, b2: byte, b1: byte, b0: byte)
    ensures FromBigEndian([b3, b2, b1, b0]) == 0x100_0000 * b3 + 0x1_0000 * b2 + 0x100 * b1 + b0
    ensures FromLittleEndian([b0, b1, b2, b3]) == 0x100_0000 * b3 + 0x1_0000 * b2 + 0x100 * b1 + b0
  {
    assert [b3, b2, b1, b0][..3] == [b3, b2, b1] && [b3, b2, b1][..2] == [b3, b2] && [b3, b2][..1] == [b3];
    assert [b0, b1, b2, b3][1..] == [b1, b2, b3] && [b1, b2, b3][1..] == [b2, b3] && [b2, b3][1..] == [b3];
    assert FromBigEndian([b3]) == b3 && FromLittleEndian([b3]) == b3;
    assert FromBigEndian([b3, b2]) == 0x100 * b3 + b2 && FromLittleEndian([b2, b3]) == 0x100 * b3 + b2;
    LastOctet([b3, b2, b1]);
    LastOctet([b3, b2, b1, b0]);
    FirstOctet([b1, b2, b3]);
    FirstOctet([b0, b1, b2, b3]);
  }

  lemma OctetsAdd(w: uint32)
    ensures 0x100_0000 * ByteOf(w, 3) + 0x1_0000 * ByteOf(w, 2) + 0x100 * ByteOf(w, 1) + ByteOf(w, 0) == w
  {
    var high, low := w / 0x1_0000, w % 0x1_0000;
    assert w == 0x1_0000 * high + low;
    assert w / 0x100_0000 == high / 0x100 && w / 0x100 == 0x100 * high + low / 0x100;
    LowByte(high, low / 0x100);
  }

  lemma LowByte(q: nat, r: nat)
    requires r < 0x100
    ensures (0x100 * q + r) % 0x100 == r
  {
  }

  lemma {:induction false} BigEndianConcat(s: seq<byte>, t: seq<byte>)
    requires |t| == 4
    ensures FromBigEndian(s + t) == TWO_32 * FromBigEndian(s) + FromBigEndian(t)
  {
    hide FromBigEndian;
    var u0, u1, u2, u3 := s, s + t[..1], s + t[..2], s + t[..3];
    assert (s + t)[..|s| + 3] == u3 && u3[..|s| + 2] == u2 && u2[..|s| + 1] == u1 && u1[..|s|] == u0;
    LastOctet(s + t);
    LastOctet(u3);
    LastOctet(u2);
    LastOctet(u1);
    FourOctets(t[0], t[1], t[2], t[3]);
    assert t == [t[0], t[1], t[2], t[3]];
  }

  lemma LastOctet(b: seq<byte>)
    requires |b| > 0
    ensures FromBigEndian(b) == 0x100 * FromBigEndian(b[..|b| - 1]) + b[|b| - 1]
  {
  }

  lemma LittleEndianConcat(s: seq<byte>, t: seq<byte>)
    requires |s| == 4
    ensures FromLittleEndian(s + t) == FromLittleEndian(s) + TWO_32 * FromLittleEndian(t)
  {
    hide FromLittleEndian;
    assert (s + t)[1..] == s[1..] + t && (s[1..] + t)[1..] == s[2..] + t && (s[2..] + t)[1..] == s[3..] + t;
    assert (s[3..] + t)[1..] == t;
    FirstOctet(s + t);
    FirstOctet(s[1..] + t);
    FirstOctet(s[2..] + t);
    FirstOctet(s[3..] + t);
    FourOctets(s[3], s[2], s[1], s[0]);
    assert s == [s[0], s[1], s[2], s[3]];
  }

  lemma FirstOctet(b: seq<byte>)
    requires |b| > 0
    ensures FromLittleEndian(b) == b[0] + 0x100 * FromLittleEndian(b[1..])
  {
  }

  /** The two counter words are a number modulo 2^64, in the order of either hash. */
  lemma CounterOctets(x: nat)
    ensures FromBigEndian(BigEndian(High32(x)) + BigEndian(Low32(x))) == x % 0x1_0000_0000_0000_0000
    ensures FromLittleEndian(LittleEndian(Low32(x)) + LittleEndian(High32(x))) == x % 0x1_0000_0000_0000_0000
  {
    hide Low32, High32, BigEndian, LittleEndian, FromBigEndian, FromLittleEndian;
    WordOfOctets(High32(x));
    WordOfOctets(Low32(x));
    BigEndianConcat(BigEndian(High32(x)), BigEndian(Low32(x)));
    LittleEndianConcat(LittleEndian(Low32(x)), LittleEndian(High32(x)));
    TwoWords(x);
  }

  lemma TwoWords(x: nat)
    ensures TWO_32 * High32(x) + Low32(x) == x % 0x1_0000_0000_0000_0000
  {
    var q, l := x / TWO_32, x % TWO_32;
    assert x == TWO_32 * q + l;
    assert x == 0x1_0000_0000_0000_0000 * (q / TWO_32) + (TWO_32 * (q % TWO_32) + l);
  }

  // ----- messages -----

  /** The concatenation of the pieces of a message. */
  function Joined(pieces: seq<seq<byte>>): seq<byte> {
    if |pieces| == 0 then [] else Joined(pieces[..|pieces| - 1]) + pieces[|pieces| - 1]
  }

  /** Copies `data[i..i + n]` to `dest[j..]`, as `memcpy` does. */
  method Copy(dest: array<byte>, j: nat, data: seq<byte>, i: nat, n: nat)
    requires j + n <= dest.Length && i + n <= |data|
    modifies dest
    ensures dest[..] == old(dest[..j]) + data[i..i + n] + old(dest[j + n..])
  {
    for k := 0 to n
      invariant dest[..j + k] == old(dest[..j]) + data[i..i + k]
      invariant dest[j + k..] == old(dest[j + k..])
    {
      dest[j + k] := data[i + k];
    }
  }
}

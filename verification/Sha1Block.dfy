/** The SHA-1 block function: the 80-word recurrence, and its in-place form on sixteen words. */
module Sha1Block {
  import opened Ints

  datatype Registers = Registers(a: bv32, b: bv32, c: bv32, d: bv32, e: bv32)

  /** The circular left shift, in the source and in section 3 of RFC 3174 alike. */
  function Rol(value: bv32, bits: bv6): bv32
    requires bits <= 32
  {
    (value << bits) | (value >> (32 - bits))
  }

  // ----- section 6.1 of RFC 3174 -----

  function F(t: nat, b: bv32, c: bv32, d: bv32): bv32 {
    if t < 20 then (b & c) | (!b & d)
    else if t < 40 then b ^ c ^ d
    else if t < 60 then (b & c) | (b & d) | (c & d)
    else b ^ c ^ d
  }

  function K(t: nat): bv32 {
    if t < 20 then 0x5A827999
    else if t < 40 then 0x6ED9EBA1
    else if t < 60 then 0x8F1BBCDC
    else 0xCA62C1D6
  }

  function Octet(b: byte): bv32 {
    (b as bv8) as bv32
  }

  /** Four octets as a word, the first one most significant. */
  function JoinedOctets(b0: byte, b1: byte, b2: byte, b3: byte): bv32 {
    (Octet(b0) << 24) | (Octet(b1) << 16) | (Octet(b2) << 8) | Octet(b3)
  }

  /** Word `i` of a block, most significant byte first. */
  function BigEndianWord(block: seq<byte>, i: nat): bv32
    requires |block| == 64 && i < 16
  {
    JoinedOctets(block[4 * i], block[4 * i + 1], block[4 * i + 2], block[4 * i + 3])
  }

  function Expand(w3: bv32, w8: bv32, w14: bv32, w16: bv32): bv32 {
    Rol(w3 ^ w8 ^ w14 ^ w16, 1)
  }

  /** The eighty-word schedule. */
  function W(block: seq<byte>, t: nat): bv32
    requires |block| == 64
  {
    if t < 16 then BigEndianWord(block, t)
    else Expand(W(block, t - 3), W(block, t - 8), W(block, t - 14), W(block, t - 16))
  }

  function Temp(v: bv32, f: bv32, e: bv32, w: bv32, k: bv32): bv32 {
    v + f + e + w + k
  }

  function Round(r: Registers, t: nat, w: bv32): Registers {
    Registers(Temp(Rol(r.a, 5), F(t, r.b, r.c, r.d), r.e, w, K(t)), r.a, Rol(r.b, 30), r.c, r.d)
  }

  function Rounds(h: Registers, block: seq<byte>, t: nat): Registers
    requires |block| == 64
  {
    if t == 0 then h else Round(Rounds(h, block, t - 1), t - 1, W(block, t - 1))
  }

  /** Addition modulo 2^32. */
  function Add(x: bv32, y: bv32): bv32 {
    x + y
  }

  function AddRegisters(h: Registers, r: Registers): Registers {
    Registers(Add(h.a, r.a), Add(h.b, r.b), Add(h.c, r.c), Add(h.d, r.d), Add(h.e, r.e))
  }

  /** The chaining value after one block; blocks of another length do not occur. */
  function Compress(h: Registers, block: seq<byte>): Registers {
    if |block| == 64 then AddRegisters(h, Rounds(h, block, 80)) else h
  }

  // ----- what the words and constants are -----

  /** Twice a word, its top bit brought round. */
  function Doubled(x: bv32): bv32 {
    x + x + if x & 0x8000_0000 != 0 then 1 else 0
  }

  /** A word of the schedule is twice the sum without carries of the words 3, 8, 14 and 16 rounds back. */
  lemma LaterWord(block: seq<byte>, t: nat)
    requires |block| == 64 && t >= 16
    ensures W(block, t) == Doubled(W(block, t - 3) ^ W(block, t - 8) ^ W(block, t - 14) ^ W(block, t - 16))
  {
    hide W, Expand, Doubled;
    NextWord(block, t);
    ExpandDoubles(W(block, t - 3), W(block, t - 8), W(block, t - 14), W(block, t - 16));
  }

  lemma ExpandDoubles(w3: bv32, w8: bv32, w14: bv32, w16: bv32)
    ensures Expand(w3, w8, w14, w16) == Doubled(w3 ^ w8 ^ w14 ^ w16)
  {
    hide Rol, Doubled;
    RotationByOne(w3 ^ w8 ^ w14 ^ w16);
  }

  lemma RotationByOne(x: bv32)
    ensures Rol(x, 1) == Doubled(x)
  {
    ShiftedByOne(x);
  }

  lemma ShiftedByOne(x: bv32)
    ensures (x << 1) | (x >> 31) == x + x + if x & 0x8000_0000 != 0 then 1 else 0
  {
  }

  /** The rotations of a round: the top bits come in at the low end, and the others move up. */
  lemma RotationByFive(x: bv32)
    ensures Rol(x, 5) >> 5 == x & 0x07ff_ffff && Rol(x, 5) & 0x1f == x >> 27
  {
    hide Rol;
    FiveAndThirty(x);
    ShiftedByFive(x);
  }

  lemma RotationByThirty(x: bv32)
    ensures Rol(x, 30) >> 30 == x & 0x3 && Rol(x, 30) & 0x3fff_ffff == x >> 2
  {
    hide Rol;
    FiveAndThirty(x);
    ShiftedByThirty(x);
  }

  lemma FiveAndThirty(x: bv32)
    ensures Rol(x, 5) == (x << 5) | (x >> 27) && Rol(x, 30) == (x << 30) | (x >> 2)
  {
  }

  lemma ShiftedByFive(x: bv32)
    ensures ((x << 5) | (x >> 27)) >> 5 == x & 0x07ff_ffff && ((x << 5) | (x >> 27)) & 0x1f == x >> 27
  {
  }

  lemma ShiftedByThirty(x: bv32)
    ensures ((x << 30) | (x >> 2)) >> 30 == x & 0x3 && ((x << 30) | (x >> 2)) & 0x3fff_ffff == x >> 2
  {
  }

  /** The round constants are the floors of 2^30 times the square roots of 2, 3, 5 and 10. */
  lemma RoundConstants(t: nat)
    ensures var n := if t < 20 then 2 else if t < 40 then 3 else if t < 60 then 5 else 10;
      var k := K(t) as int; k * k <= n * 0x1000_0000_0000_0000 < (k + 1) * (k + 1)
  {
  }

  /** In the first twenty rounds, the bits of `c` where `b` has ones, and those of `d` elsewhere. */
  lemma ChoiceBits(t: nat, b: bv32, c: bv32, d: bv32)
    requires t < 20
    ensures F(t, b, c, d) & b == c & b && F(t, b, c, d) & !b == d & !b
  {
    MaskedChoice(b, c, d);
  }

  lemma MaskedChoice(b: bv32, c: bv32, d: bv32)
    ensures ((b & c) | (!b & d)) & b == c & b && ((b & c) | (!b & d)) & !b == d & !b
  {
  }

  /** In the third twenty rounds, the common bits of `b` and `c`, and those of `d` where these differ. */
  lemma MajorityBits(t: nat, b: bv32, c: bv32, d: bv32)
    requires 40 <= t < 60
    ensures F(t, b, c, d) & !(b ^ c) == b & !(b ^ c) && F(t, b, c, d) & (b ^ c) == d & (b ^ c)
  {
    MaskedMajority(b, c, d);
  }

  lemma MaskedMajority(b: bv32, c: bv32, d: bv32)
    ensures ((b & c) | (b & d) | (c & d)) & !(b ^ c) == b & !(b ^ c)
    ensures ((b & c) | (b & d) | (c & d)) & (b ^ c) == d & (b ^ c)
  {
  }

  // ----- the source's form -----

  /** What a load of a 32-bit word from memory gives on a host of either byte order. */
  function NativeWord(bigEndian: bool, block: seq<byte>, i: nat): bv32
    requires |block| == 64 && i < 16
  {
    if bigEndian then BigEndianWord(block, i)
    else JoinedOctets(block[4 * i + 3], block[4 * i + 2], block[4 * i + 1], block[4 * i])
  }

  function Swap(w: bv32): bv32 {
    (Rol(w, 24) & 0xFF00FF00) | (Rol(w, 8) & 0x00FF00FF)
  }

  /** `blk0` leaves the big-endian word whatever the host. */
  lemma SwapRestoresWord(bigEndian: bool, block: seq<byte>, i: nat)
    requires |block| == 64 && i < 16
    ensures (if bigEndian then NativeWord(bigEndian, block, i) else Swap(NativeWord(bigEndian, block, i)))
            == BigEndianWord(block, i)
  {
    SwapBytes(block[4 * i] as bv8, block[4 * i + 1] as bv8, block[4 * i + 2] as bv8, block[4 * i + 3] as bv8);
  }

  lemma SwapBytes(b0: bv8, b1: bv8, b2: bv8, b3: bv8)
    ensures Swap((b3 as bv32 << 24) | (b2 as bv32 << 16) | (b1 as bv32 << 8) | b0 as bv32)
         == (b0 as bv32 << 24) | (b1 as bv32 << 16) | (b2 as bv32 << 8) | b3 as bv32
  {
  }

  /** The mixing functions as the macros R0 to R4 write them. */
  function Mix(t: nat, w: bv32, x: bv32, y: bv32): bv32 {
    if t < 20 then (w & (x ^ y)) ^ y
    else if t < 40 then w ^ x ^ y
    else if t < 60 then ((w | x) & y) | (w & x)
    else w ^ x ^ y
  }

  lemma MixIsF(t: nat, w: bv32, x: bv32, y: bv32)
    ensures Mix(t, w, x, y) == F(t, w, x, y)
  {
    Choice(w, x, y);
    Majority(w, x, y);
  }

  lemma Choice(w: bv32, x: bv32, y: bv32)
    ensures (w & (x ^ y)) ^ y == (w & x) | (!w & y)
  {
  }

  lemma Majority(w: bv32, x: bv32, y: bv32)
    ensures ((w | x) & y) | (w & x) == (w & x) | (w & y) | (x & y)
  {
  }

  /** The sum in the order of the macros. */
  function MacroSum(z: bv32, f: bv32, m: bv32, k: bv32, v: bv32): bv32 {
    z + (f + m + k + v)
  }

  lemma SumReordered(z: bv32, f: bv32, m: bv32, k: bv32, v: bv32)
    ensures MacroSum(z, f, m, k, v) == Temp(v, f, z, m, k)
  {
  }

  /** The circular schedule: the words of the sixteen rounds before `t`, and loads not yet swapped. */
  ghost predicate Schedule(words: seq<bv32>, bigEndian: bool, block: seq<byte>, t: nat)
    requires |block| == 64
  {
    && |words| == 16
    && (forall s :: 0 <= s < t <= s + 16 ==> words[s % 16] == W(block, s))
    && (forall s :: t <= s < 16 ==> words[s] == NativeWord(bigEndian, block, s))
  }

  method Blk(block: array<bv32>, t: nat, bigEndian: bool, ghost bytes: seq<byte>) returns (w: bv32)
    requires block.Length == 16 && |bytes| == 64
    requires Schedule(block[..], bigEndian, bytes, t)
    modifies block
    ensures w == W(bytes, t)
    ensures Schedule(block[..], bigEndian, bytes, t + 1)
  {
    hide NativeWord, BigEndianWord, Swap, Expand;
    if t < 16 {
      SwapRestoresWord(bigEndian, bytes, t);
      if !bigEndian {
        block[t] := Swap(block[t]);
      }
      w := block[t];
    } else {
      ghost var words := block[..];
      w := Expand(block[(t + 13) % 16], block[(t + 8) % 16], block[(t + 2) % 16], block[t % 16]);
      block[t % 16] := w;
      assert block[..] == words[t % 16 := w];
      WordReplaced(words, bigEndian, bytes, t);
    }
  }

  /** The word of round t takes the place of the one sixteen rounds before. */
  lemma WordReplaced(words: seq<bv32>, bigEndian: bool, bytes: seq<byte>, t: nat)
    requires |bytes| == 64 && t >= 16 && Schedule(words, bigEndian, bytes, t)
    ensures Expand(words[(t + 13) % 16], words[(t + 8) % 16], words[(t + 2) % 16], words[t % 16]) == W(bytes, t)
    ensures Schedule(words[t % 16 := W(bytes, t)], bigEndian, bytes, t + 1)
  {
    hide NativeWord, Expand, W, Schedule;
    CircularIndices(t);
    WordKept(words, bigEndian, bytes, t, t - 3);
    WordKept(words, bigEndian, bytes, t, t - 8);
    WordKept(words, bigEndian, bytes, t, t - 14);
    WordKept(words, bigEndian, bytes, t, t - 16);
    NextWord(bytes, t);
    ScheduleMoves(words, bigEndian, bytes, t);
  }

  lemma WordKept(words: seq<bv32>, bigEndian: bool, bytes: seq<byte>, t: nat, s: nat)
    requires |bytes| == 64 && Schedule(words, bigEndian, bytes, t) && s < t <= s + 16
    ensures |words| == 16 && words[s % 16] == W(bytes, s)
  {
    hide NativeWord, W;
  }

  lemma NextWord(bytes: seq<byte>, t: nat)
    requires |bytes| == 64 && t >= 16
    ensures W(bytes, t) == Expand(W(bytes, t - 3), W(bytes, t - 8), W(bytes, t - 14), W(bytes, t - 16))
  {
    hide Expand;
  }

  lemma ScheduleMoves(words: seq<bv32>, bigEndian: bool, bytes: seq<byte>, t: nat)
    requires |bytes| == 64 && t >= 16 && Schedule(words, bigEndian, bytes, t)
    ensures Schedule(words[t % 16 := W(bytes, t)], bigEndian, bytes, t + 1)
  {
    hide NativeWord, W;
    forall s: nat | s < t < s + 16
      ensures s % 16 != t % 16
    {
      PartialTurn(s, t);
    }
  }

  /** The masked indices reach 3, 8, 14 and 16 rounds back; only the last one is overwritten. */
  lemma CircularIndices(t: nat)
    requires t >= 16
    ensures (t + 13) % 16 == (t - 3) % 16 && (t + 8) % 16 == (t - 8) % 16
    ensures (t + 2) % 16 == (t - 14) % 16 && t % 16 == (t - 16) % 16
    ensures forall s :: t - 16 < s < t ==> s % 16 != t % 16
  {
    FullTurn(t - 3);
    FullTurn(t - 8);
    FullTurn(t - 14);
    FullTurn(t - 16);
    forall s | t - 16 < s < t
      ensures s % 16 != t % 16
    {
      PartialTurn(s, t);
    }
  }

  lemma FullTurn(x: nat)
    ensures (x + 16) % 16 == x % 16
  {
  }

  lemma PartialTurn(s: int, t: int)
    requires t - 16 < s < t
    ensures s % 16 != t % 16
  {
    var p, q := s / 16, t / 16;
    assert s == 16 * p + s % 16 && t == 16 * q + t % 16;
  }

  /** Where the register that plays role `k` (of v, w, x, y, z) in round `t` is kept. */
  function Place(t: nat, k: nat): (p: nat)
    requires k < 5
    ensures p < 5
  {
    var q := 5 - t % 5 + k;
    if q >= 5 then q - 5 else q
  }

  lemma PlacesRotate(t: nat)
    ensures Place(t, 1) == Place(t + 1, 2) && Place(t, 2) == Place(t + 1, 3) && Place(t, 3) == Place(t + 1, 4)
    ensures Place(t, 0) == Place(t + 1, 1) && Place(t, 4) == Place(t + 1, 0)
    ensures Place(t, 0) != Place(t, 1) && Place(t, 0) != Place(t, 4) && Place(t, 1) != Place(t, 4)
    ensures Place(t, 2) != Place(t, 1) && Place(t, 2) != Place(t, 4) && Place(t, 3) != Place(t, 1)
            && Place(t, 3) != Place(t, 4)
  {
    var r := t % 5;
    assert (t + 1) % 5 == if r == 4 then 0 else r + 1;
  }

  /** The five registers, read in the order that round `t` gives them. */
  ghost function Rotated(v: seq<bv32>, t: nat): Registers
    requires |v| == 5
  {
    Registers(v[Place(t, 0)], v[Place(t, 1)], v[Place(t, 2)], v[Place(t, 3)], v[Place(t, 4)])
  }

  /** One macro call, with the roles v, w, x, y, z given by the round. */
  method Macro(v: array<bv32>, t: nat, m: bv32)
    requires v.Length == 5
    modifies v
    ensures Rotated(v[..], t + 1) == Round(old(Rotated(v[..], t)), t, m)
  {
    hide Rol, Mix, F, K, Place, Rotated, Round, MacroSum;
    var p, w, x, y, z := Place(t, 0), Place(t, 1), Place(t, 2), Place(t, 3), Place(t, 4);
    PlacesRotate(t);
    ghost var before := v[..];
    var sum := MacroSum(v[z], Mix(t, v[w], v[x], v[y]), m, K(t), Rol(v[p], 5));
    var turned := Rol(v[w], 30);
    v[z] := sum;
    v[w] := turned;
    assert v[..] == before[z := sum][w := turned];
    MacroIsRound(before, t, m);
  }

  lemma MacroIsRound(v: seq<bv32>, t: nat, m: bv32)
    requires |v| == 5
    ensures var p, w, x, y, z := Place(t, 0), Place(t, 1), Place(t, 2), Place(t, 3), Place(t, 4);
      Rotated(v[z := MacroSum(v[z], Mix(t, v[w], v[x], v[y]), m, K(t), Rol(v[p], 5))][w := Rol(v[w], 30)], t + 1)
      == Round(Rotated(v, t), t, m)
  {
    hide Rol, Mix, F, K, Place, MacroSum, Temp;
    PlacesRotate(t);
    var p, w, x, y, z := Place(t, 0), Place(t, 1), Place(t, 2), Place(t, 3), Place(t, 4);
    MixIsF(t, v[w], v[x], v[y]);
    SumReordered(v[z], Mix(t, v[w], v[x], v[y]), m, K(t), Rol(v[p], 5));
  }

  lemma NextRound(h: Registers, block: seq<byte>, t: nat)
    requires |block| == 64
    ensures Rounds(h, block, 0) == h
    ensures Rounds(h, block, t + 1) == Round(Rounds(h, block, t), t, W(block, t))
  {
    hide Round, W;
  }

  /** The eighty macro calls, on a local copy of the block that is overwritten as they proceed. */
  method Eighty(v: array<bv32>, buffer: seq<byte>, bigEndian: bool)
    requires v.Length == 5 && |buffer| == 64
    modifies v
    ensures Rotated(v[..], 80) == Rounds(old(Rotated(v[..], 0)), buffer, 80)
  {
    hide NativeWord, Round, W, Rounds, Rotated;
    ghost var h := Rotated(v[..], 0);
    var block := new bv32[16](i requires 0 <= i < 16 => NativeWord(bigEndian, buffer, i));
    var t := 0;
    NextRound(h, buffer, 0);
    while t < 80
      invariant 0 <= t <= 80
      invariant Schedule(block[..], bigEndian, buffer, t)
      invariant Rotated(v[..], t) == Rounds(h, buffer, t)
    {
      NextRound(h, buffer, t);
      var m := Blk(block, t, bigEndian, buffer);
      Macro(v, t, m);
      t := t + 1;
    }
  }

  function Loaded(v: seq<bv32>): Registers
    requires |v| == 5
  {
    Registers(v[0], v[1], v[2], v[3], v[4])
  }

  /** After a whole number of turns the registers are back in their own places. */
  lemma HomePlaces(v: seq<bv32>, t: nat)
    requires |v| == 5 && t % 5 == 0
    ensures Rotated(v, t) == Loaded(v)
  {
  }

  method SHA1Transform(state: array<bv32>, buffer: seq<byte>, bigEndian: bool)
    requires state.Length == 5 && |buffer| == 64
    modifies state
    ensures Loaded(state[..]) == Compress(old(Loaded(state[..])), buffer)
  {
    hide Rounds, Rotated, Add;
    var v := new bv32[5](i requires 0 <= i < 5 reads state => state[i]);
    assert v[..] == state[..];
    HomePlaces(v[..], 0);
    Eighty(v, buffer, bigEndian);
    HomePlaces(v[..], 80);
    state[0] := Add(state[0], v[0]);
    state[1] := Add(state[1], v[1]);
    state[2] := Add(state[2], v[2]);
    state[3] := Add(state[3], v[3]);
    state[4] := Add(state[4], v[4]);
  }
}

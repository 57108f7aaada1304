/** The streaming MD5 of the web server, for any block function. */
module Md5 {
  import opened Ints
  import opened Blocks

  datatype Abcd = Abcd(a: uint32, b: uint32, c: uint32, d: uint32)

  type Process = (Abcd, seq<byte>) -> Abcd

  const INITIAL: Abcd := Abcd(0x67452301, 0xefcdab89, 0x98badcfe, 0x10325476)

  // ----- the digest of a whole message: sections 3.1 to 3.3 and 3.5 of RFC 1321 -----

  /** Between 1 and 64 octets of padding bring a message to 56 octets modulo 64. */
  function PadLength(n: nat): (k: nat)
    ensures 1 <= k <= 64 && (n + k) % 64 == 56
  {
    (55 - n % 64) % 64 + 1
  }

  function Padding(k: nat): (p: seq<byte>)
    requires 1 <= k <= 64
    ensures |p| == k
  {
    [0x80] + Zeros(k - 1)
  }

  function LengthOctets(n: nat): (b: seq<byte>)
    ensures |b| == 8
  {
    LittleEndian(Low32(8 * n)) + LittleEndian(High32(8 * n))
  }

  function Padded(msg: seq<byte>): (p: seq<byte>)
    ensures |p| % 64 == 0
  {
    var n, k := |msg|, PadLength(|msg|);
    assert (n + k + 8) % 64 == 0;
    msg + Padding(k) + LengthOctets(n)
  }

  function OctetsOf(h: Abcd): (d: seq<byte>)
    ensures |d| == 16
  {
    var words := [h.a, h.b, h.c, h.d];
    seq(16, i requires 0 <= i < 16 => ByteOf(words[i / 4], i % 4))
  }

  function Digest(process: Process, msg: seq<byte>): (d: seq<byte>)
    ensures |d| == 16
  {
    OctetsOf(ChainAll(process, INITIAL, Padded(msg)))
  }

  /**
   * The padded message is the shortest one of whole blocks that holds the message, an octet with
   * only its top bit set, zeros, and the number of bits in eight octets, least significant first.
   */
  lemma PaddedMessage(msg: seq<byte>)
    ensures var p := Padded(msg);
      && msg <= p && |msg| + 9 <= |p| < |msg| + 9 + 64 && |p| % 64 == 0
      && p[|msg|] == 0x80 && (forall k :: |msg| < k < |p| - 8 ==> p[k] == 0)
      && FromLittleEndian(p[|p| - 8..]) == 8 * |msg| % 0x1_0000_0000_0000_0000
  {
    hide LengthOctets;
    var p := Padded(msg);
    LengthRead(|msg|);
    assert p[|p| - 8..] == LengthOctets(|msg|);
  }

  lemma LengthRead(n: nat)
    ensures FromLittleEndian(LengthOctets(n)) == 8 * n % 0x1_0000_0000_0000_0000
  {
    hide LittleEndian, FromLittleEndian, Low32, High32;
    CounterOctets(8 * n);
  }

  /** The digest, read word by word with the least significant octet first, is the four registers. */
  lemma DigestWords(h: Abcd)
    ensures var d := OctetsOf(h);
      && FromLittleEndian(d[0..4]) == h.a && FromLittleEndian(d[4..8]) == h.b
      && FromLittleEndian(d[8..12]) == h.c && FromLittleEndian(d[12..16]) == h.d
  {
    hide OctetsOf, LittleEndian, FromLittleEndian;
    WordOfOctets(h.a);
    WordOfOctets(h.b);
    WordOfOctets(h.c);
    WordOfOctets(h.d);
    OctetsOfWords(h);
  }

  lemma OctetsOfWords(h: Abcd)
    ensures var d := OctetsOf(h);
      && d[0..4] == LittleEndian(h.a) && d[4..8] == LittleEndian(h.b)
      && d[8..12] == LittleEndian(h.c) && d[12..16] == LittleEndian(h.d)
  {
    hide ByteOf;
  }

  /** The start values, as section 3.3 of RFC 1321 lists their octets: counting up, and down again. */
  lemma InitialOctets()
    ensures LittleEndian(INITIAL.a) == [0x01, 0x23, 0x45, 0x67] && LittleEndian(INITIAL.b) == [0x89, 0xab, 0xcd, 0xef]
    ensures LittleEndian(INITIAL.c) == [0xfe, 0xdc, 0xba, 0x98] && LittleEndian(INITIAL.d) == [0x76, 0x54, 0x32, 0x10]
  {
    assert LittleEndian(INITIAL.a) == [0x01, 0x23, 0x45, 0x67];
    assert LittleEndian(INITIAL.b) == [0x89, 0xab, 0xcd, 0xef];
    assert LittleEndian(INITIAL.c) == [0xfe, 0xdc, 0xba, 0x98];
    assert LittleEndian(INITIAL.d) == [0x76, 0x54, 0x32, 0x10];
  }

  // ----- the state object -----

  class State {
    const process: Process
    var count0: uint32
    var count1: uint32
    var abcd: Abcd
    const buf: array<byte>
    ghost var msg: seq<byte>

    ghost const Repr: set<object> := {this, buf}

    ghost predicate Valid() {
      buf.Length == 64
    }

    /** The state has taken in exactly the octets `msg`. */
    ghost predicate Absorbed()
      requires Valid()
      reads this, buf
    {
      && abcd == ChainAll(process, INITIAL, msg)
      && buf[..|msg| % 64] == Tail(msg)
      && count0 == Low32(8 * |msg|) && count1 == High32(8 * |msg|)
    }

    constructor (blockFunction: Process)
      ensures Valid() && fresh(Repr) && process == blockFunction
    {
      process := blockFunction;
      count0, count1 := 0, 0;
      abcd := Abcd(0, 0, 0, 0);
      buf := new byte[64];
      msg := [];
    }

    method Init()
      requires Valid()
      modifies Repr
      ensures Absorbed() && msg == []
    {
      count0, count1 := 0, 0;
      abcd := Abcd(0x67452301, 0xffff_ffff - 0x10325476, 0xffff_ffff - 0x67452301, 0x10325476);
      msg := [];
    }

    method AddToCount(nbytes: nat, ghost n: nat)
      requires count0 == Low32(8 * n) && count1 == High32(8 * n)
      modifies this`count0, this`count1
      ensures count0 == Low32(8 * (n + nbytes)) && count1 == High32(8 * (n + nbytes))
    {
      hide Low32, High32;
      CounterAdds(n, nbytes);
      var nbits := Low32(8 * nbytes);
      var carried := nbytes / 0x2000_0000;
      ModOfSum(carried, count1);
      count1 := (count1 + carried % TWO_32) % TWO_32;
      count0 := (count0 + nbits) % TWO_32;
      CarryAfterAdd(old(count1) + carried);
      if count0 < nbits {
        count1 := (count1 + 1) % TWO_32;
      }
    }

    /** The whole blocks of `data` from `left` octets before its end on. */
    method ProcessBlocks(data: seq<byte>, start: nat) returns (left: nat)
      requires Valid() && start <= |data| && (|msg| + start) % 64 == 0
      requires abcd == ChainTo(process, INITIAL, msg + data, |msg| + start)
      modifies this`abcd
      ensures left <= |data| - start && left < 64 && (|msg| + |data| - left) % 64 == 0
      ensures abcd == ChainAll(process, INITIAL, msg + data)
    {
      hide ChainTo, ChainAll;
      var p := start;
      left := |data| - start;
      while left >= 64
        invariant p + left == |data| && start <= p && (|msg| + p) % 64 == 0
        invariant abcd == ChainTo(process, INITIAL, msg + data, |msg| + p)
      {
        DataBlock(process, INITIAL, msg, data, p);
        NextBlockStart(|msg| + p);
        abcd := process(abcd, data[p..p + 64]);
        p := p + 64;
        left := left - 64;
      }
      LastPart(process, INITIAL, msg, data, p);
    }

    /** Joins data to the partial block in the buffer, and processes the block once it is full. */
    method FillBlock(data: seq<byte>, offset: nat) returns (p: nat, full: bool)
      requires Valid() && offset == |msg| % 64 && 0 < offset
      requires abcd == ChainAll(process, INITIAL, msg) && buf[..offset] == Tail(msg)
      modifies this`abcd, buf
      ensures full ==> p <= |data| && (|msg| + p) % 64 == 0
      ensures full ==> abcd == ChainTo(process, INITIAL, msg + data, |msg| + p)
      ensures !full ==> abcd == ChainAll(process, INITIAL, msg + data)
      ensures !full ==> buf[..|msg + data| % 64] == Tail(msg + data)
    {
      hide ChainTo, ChainAll, Tail;
      var copy := if offset + |data| > 64 then 64 - offset else |data|;
      Copy(buf, offset, data, 0, copy);
      assert buf[..offset + copy] == Tail(msg) + data[..copy];
      if offset + copy < 64 {
        NoBlock(process, INITIAL, msg, data);
        assert data[..copy] == data;
        return copy, false;
      }
      assert buf[..] == buf[..offset + copy];
      FirstBlock(process, INITIAL, msg, data);
      abcd := process(abcd, buf[..]);
      BlockEnds(|msg|);
      return copy, true;
    }

    method Append(data: seq<byte>)
      requires Valid() && Absorbed()
      requires |data| < 0x1_0000_0000_0000_0000 - 64
      modifies Repr
      ensures Absorbed() && msg == old(msg) + data
    {
      hide ChainTo, ChainAll, Tail, Low32, High32;
      var offset := count0 / 8 % 64;
      CounterOffset(|msg|);
      if |data| <= 0 {
        assert msg + data == msg;
        return;
      }
      AddToCount(|data|, |msg|);
      var p: nat := 0;
      if offset != 0 {
        var full;
        p, full := FillBlock(data, offset);
        if !full {
          msg := msg + data;
          return;
        }
      } else {
        Continue(process, INITIAL, msg, data);
      }
      var left := ProcessBlocks(data, p);
      if left != 0 {
        Copy(buf, 0, data, |data| - left, left);
      }
      LastPart(process, INITIAL, msg, data, |data| - left);
      assert buf[..left] == data[|data| - left..];
      msg := msg + data;
    }

    /** The bit counter as eight octets, taken before the padding changes it. */
    method LengthData() returns (octets: seq<byte>)
      requires Valid() && Absorbed()
      ensures octets == LengthOctets(|msg|)
    {
      hide ByteOf, ChainAll, Tail, Low32, High32;
      var data := new byte[8];
      for i := 0 to 8
        invariant forall k :: 0 <= k < i ==> data[k] == ByteOf(if k / 4 == 0 then count0 else count1, k % 4)
      {
        data[i] := ByteOf(if i / 4 == 0 then count0 else count1, i % 4);
      }
      assert data[..] == LittleEndian(count0) + LittleEndian(count1);
      octets := data[..];
    }

    method WriteDigest(digest: array<byte>)
      requires digest.Length == 16
      modifies digest
      ensures digest[..] == OctetsOf(abcd)
    {
      hide ByteOf;
      var words := [abcd.a, abcd.b, abcd.c, abcd.d];
      for i := 0 to 16
        invariant forall k :: 0 <= k < i ==> digest[k] == ByteOf(words[k / 4], k % 4)
      {
        digest[i] := ByteOf(words[i / 4], i % 4);
      }
    }

    /** Pads with one call, appends the length and writes the digest. */
    method Finish(digest: array<byte>)
      requires Valid() && Absorbed()
      requires digest.Length == 16 && digest != buf
      modifies Repr, digest
      ensures digest[..] == Digest(process, old(msg))
      ensures Absorbed() && msg == Padded(old(msg))
    {
      hide ChainAll, Tail, Low32, High32, LengthOctets, OctetsOf;
      var data := LengthData();
      CounterOffset(|msg|);
      PadArgument(count0, |msg|);
      Append(Padding((55 - count0 / 8) % 64 + 1));
      Append(data);
      WriteDigest(digest);
    }
  }

  /** The source masks the whole octet count; only its value modulo 64 matters. */
  lemma PadArgument(count0: nat, n: nat)
    requires count0 / 8 % 64 == n % 64
    ensures (55 - count0 / 8) % 64 + 1 == PadLength(n)
  {
    var c := count0 / 8;
    Rest64(-(c / 64), 55 - c % 64);
    assert 55 - c == 64 * -(c / 64) + (55 - c % 64);
  }

  /** However a message is cut into pieces, the digest is that of the whole message. */
  method DigestOfPieces(process: Process, pieces: seq<seq<byte>>) returns (d: seq<byte>)
    requires forall k :: 0 <= k < |pieces| ==> |pieces[k]| < 0x1_0000_0000_0000_0000 - 64
    ensures d == Digest(process, Joined(pieces))
  {
    hide Digest;
    var state := new State(process);
    state.Init();
    for i := 0 to |pieces|
      invariant state.Absorbed() && state.msg == Joined(pieces[..i])
    {
      assert pieces[..i + 1][..i] == pieces[..i];
      state.Append(pieces[i]);
    }
    assert pieces[..|pieces|] == pieces;
    var digest := new byte[16];
    state.Finish(digest);
    d := digest[..];
  }
}

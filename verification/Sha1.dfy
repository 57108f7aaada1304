/** The streaming SHA-1 of the web server, over any cutting of the message into pieces. */
module Sha1 {
  import opened Ints
  import opened Blocks
  import opened Sha1Block

  const INITIAL: Registers := Registers(0x67452301, 0xEFCDAB89, 0x98BADCFE, 0x10325476, 0xC3D2E1F0)

  // ----- the digest of a whole message: sections 4 and 6.1 of RFC 3174 -----

  /** The number of zero octets that bring a message and its 1-bit to 56 octets modulo 64. */
  function PadLength(n: nat): (k: nat)
    ensures k < 64 && (n + 1 + k) % 64 == 56
  {
    assert n == 64 * (n / 64) + n % 64;
    (119 - n % 64) % 64
  }

  function LengthOctets(n: nat): (b: seq<byte>)
    ensures |b| == 8
  {
    BigEndian(High32(8 * n)) + BigEndian(Low32(8 * n))
  }

  function Padded(msg: seq<byte>): (p: seq<byte>)
    ensures |p| % 64 == 0
  {
    var n, k := |msg|, PadLength(|msg|);
    assert (n + 1 + k + 8) % 64 == 0;
    msg + [0x80] + Zeros(k) + LengthOctets(n)
  }

  /** Octet `k` of a word, counted from the most significant one. */
  function OctetOfWord(w: bv32, k: nat): byte
    requires k < 4
  {
    match k
    case 0 => (w >> 24) as bv8 as byte
    case 1 => ((w >> 16) & 0xFF) as bv8 as byte
    case 2 => ((w >> 8) & 0xFF) as bv8 as byte
    case _ => (w & 0xFF) as bv8 as byte
  }

  /** The five words as twenty octets, each word most significant octet first. */
  function OctetsOfRegisters(r: Registers): (d: seq<byte>)
    ensures |d| == 20
  {
    var words := [r.a, r.b, r.c, r.d, r.e];
    seq(20, i requires 0 <= i < 20 => OctetOfWord(words[i / 4], i % 4))
  }

  function Digest(msg: seq<byte>): (d: seq<byte>)
    ensures |d| == 20
  {
    OctetsOfRegisters(ChainAll(Compress, INITIAL, Padded(msg)))
  }

  /**
   * The padded message is the shortest one of whole blocks that holds the message, an octet with
   * only its top bit set, zeros, and the number of bits in eight octets, most significant first.
   */
  lemma PaddedMessage(msg: seq<byte>)
    ensures var p := Padded(msg);
      && msg <= p && |msg| + 9 <= |p| < |msg| + 9 + 64 && |p| % 64 == 0
      && p[|msg|] == 0x80 && (forall k :: |msg| < k < |p| - 8 ==> p[k] == 0)
      && FromBigEndian(p[|p| - 8..]) == 8 * |msg| % 0x1_0000_0000_0000_0000
  {
    hide LengthOctets;
    var p := Padded(msg);
    LengthRead(|msg|);
    assert p[|p| - 8..] == LengthOctets(|msg|);
  }

  lemma LengthRead(n: nat)
    ensures FromBigEndian(LengthOctets(n)) == 8 * n % 0x1_0000_0000_0000_0000
  {
    hide BigEndian, FromBigEndian, Low32, High32;
    CounterOctets(8 * n);
  }

  /** The digest, read word by word with the most significant octet first, is the five registers. */
  lemma DigestWords(r: Registers)
    ensures var d := OctetsOfRegisters(r);
      && JoinedOctets(d[0], d[1], d[2], d[3]) == r.a && JoinedOctets(d[4], d[5], d[6], d[7]) == r.b
      && JoinedOctets(d[8], d[9], d[10], d[11]) == r.c && JoinedOctets(d[12], d[13], d[14], d[15]) == r.d
      && JoinedOctets(d[16], d[17], d[18], d[19]) == r.e
  {
    hide OctetOfWord, JoinedOctets;
    OctetsOfWord(r.a);
    OctetsOfWord(r.b);
    OctetsOfWord(r.c);
    OctetsOfWord(r.d);
    OctetsOfWord(r.e);
  }

  lemma OctetsOfWord(w: bv32)
    ensures JoinedOctets(OctetOfWord(w, 0), OctetOfWord(w, 1), OctetOfWord(w, 2), OctetOfWord(w, 3)) == w
  {
    hide Octet;
    OctetOfBits((w >> 24) as bv8, OctetOfWord(w, 0));
    OctetOfBits(((w >> 16) & 0xFF) as bv8, OctetOfWord(w, 1));
    OctetOfBits(((w >> 8) & 0xFF) as bv8, OctetOfWord(w, 2));
    OctetOfBits((w & 0xFF) as bv8, OctetOfWord(w, 3));
    FourBytes(w);
  }

  lemma OctetOfBits(x: bv8, b: byte)
    requires b == x as int
    ensures Octet(b) == x as bv32
  {
    BitsOfInt(x);
  }

  lemma BitsOfInt(x: bv8)
    ensures (x as int) as bv8 == x
  {
  }

  lemma FourBytes(w: bv32)
    ensures ((w >> 24) as bv8 as bv32 << 24) | (((w >> 16) & 0xFF) as bv8 as bv32 << 16)
         | (((w >> 8) & 0xFF) as bv8 as bv32 << 8) | (w & 0xFF) as bv8 as bv32 == w
  {
  }

  // ----- the context object -----

  class Context {
    const state: array<bv32>
    const buffer: array<byte>
    var count0: uint32
    var count1: uint32
    const bigEndian: bool
    ghost var msg: seq<byte>

    ghost const Repr: set<object> := {this, state, buffer}

    ghost predicate Valid() {
      state.Length == 5 && buffer.Length == 64
    }

    /** The context has taken in exactly the octets `msg`. */
    ghost predicate Absorbed()
      requires Valid()
      reads this, state, buffer
    {
      && Loaded(state[..]) == ChainAll(Compress, INITIAL, msg)
      && buffer[..|msg| % 64] == Tail(msg)
      && count0 == Low32(8 * |msg|) && count1 == High32(8 * |msg|)
    }

    constructor (hostIsBigEndian: bool)
      ensures Valid() && fresh(Repr)
    {
      state := new bv32[5];
      buffer := new byte[64];
      count0, count1 := 0, 0;
      bigEndian := hostIsBigEndian;
      msg := [];
    }

    method SHA1Init()
      requires Valid()
      modifies Repr
      ensures Absorbed() && msg == []
    {
      hide Compress, Padded, Chain, ChainTo, ChainAll, Tail, Low32, High32;
      NothingAbsorbed();
      state[0] := 0x67452301;
      state[1] := 0xEFCDAB89;
      state[2] := 0x98BADCFE;
      state[3] := 0x10325476;
      state[4] := 0xC3D2E1F0;
      count0, count1 := 0, 0;
      msg := [];
    }

    /** The two-word bit counter grows by eight times `len`. */
    method AddToCount(len: uint32, ghost n: nat)
      requires count0 == Low32(8 * n) && count1 == High32(8 * n)
      modifies this`count0, this`count1
      ensures count0 == Low32(8 * (n + len)) && count1 == High32(8 * (n + len))
    {
      hide Low32, High32;
      CounterAdds(n, len);
      CarryThenAdd(count1, len / 0x2000_0000);
      var j := count0;
      count0 := (count0 + Low32(8 * len)) % TWO_32;
      if count0 < j {
        count1 := (count1 + 1) % TWO_32;
      }
      count1 := (count1 + len / 0x2000_0000) % TWO_32;
    }

    /** The blocks completed by `data`, of which `i` octets are taken; the first one starts with the buffer's `j`. */
    method TransformBlocks(data: seq<byte>, j: nat) returns (i: nat)
      requires Valid() && j == |msg| % 64 && j + |data| > 63
      requires Loaded(state[..]) == ChainAll(Compress, INITIAL, msg) && buffer[..j] == Tail(msg)
      modifies state, buffer
      ensures i <= |data| < i + 64 && (|msg| + i) % 64 == 0
      ensures Loaded(state[..]) == ChainAll(Compress, INITIAL, msg + data)
    {
      hide Compress, ChainTo, ChainAll, Tail, Loaded;
      i := 64 - j;
      Copy(buffer, j, data, 0, i);
      assert buffer[..] == Tail(msg) + data[..i];
      FirstBlock(Compress, INITIAL, msg, data);
      BlockEnds(|msg|);
      SHA1Transform(state, buffer[..], bigEndian);
      while i + 63 < |data|
        invariant i <= |data| && (|msg| + i) % 64 == 0
        invariant Loaded(state[..]) == ChainTo(Compress, INITIAL, msg + data, |msg| + i)
        modifies state
      {
        DataBlock(Compress, INITIAL, msg, data, i);
        NextBlockStart(|msg| + i);
        SHA1Transform(state, data[i..i + 64], bigEndian);
        i := i + 64;
      }
      LastPart(Compress, INITIAL, msg, data, i);
    }

    method SHA1Update(data: seq<byte>)
      requires Valid() && Absorbed()
      requires |msg| % 64 + |data| < TWO_32
      modifies Repr
      ensures Absorbed() && msg == old(msg) + data
    {
      hide Compress, ChainTo, ChainAll, Tail, Low32, High32, Loaded;
      var j := count0;
      AddToCount(|data|, |msg|);
      CounterOffset(|msg|);
      j := j / 8 % 64;
      var i: nat := 0;
      if j + |data| > 63 {
        i := TransformBlocks(data, j);
        LastPart(Compress, INITIAL, msg, data, i);
        j := 0;
      } else {
        NoBlock(Compress, INITIAL, msg, data);
      }
      Copy(buffer, j, data, i, |data| - i);
      msg := msg + data;
    }

    /** The bit counter as eight octets, taken before the padding changes it. */
    method FinalCount() returns (octets: seq<byte>)
      requires Valid() && Absorbed()
      ensures octets == LengthOctets(|msg|)
    {
      hide ByteOf, Loaded, ChainAll, Tail, Low32, High32;
      var finalcount := new byte[8];
      for i := 0 to 8
        invariant forall k :: 0 <= k < i ==> finalcount[k] == ByteOf(if k >= 4 then count0 else count1, 3 - k % 4)
      {
        finalcount[i] := ByteOf(if i >= 4 then count0 else count1, 3 - i % 4);
      }
      assert finalcount[..] == BigEndian(count1) + BigEndian(count0);
      octets := finalcount[..];
    }

    /** The padding, one octet at a time, and then the length. */
    method Pad()
      requires Valid() && Absorbed()
      modifies Repr
      ensures Absorbed() && msg == Padded(old(msg))
    {
      hide Compress, ChainAll, Tail, Loaded, LengthOctets, Low32, High32;
      ghost var m := msg;
      var finalcount := FinalCount();
      SHA1Update([0x80]);
      ghost var zeros := 0;
      while count0 / 8 % 64 != 56
        invariant Absorbed() && msg == m + [0x80] + Zeros(zeros)
        invariant zeros <= PadLength(|m|)
        decreases PadLength(|m|) - zeros
      {
        CounterOffset(|msg|);
        PadNotReached(|m|, zeros);
        SHA1Update([0]);
        zeros := zeros + 1;
      }
      CounterOffset(|msg|);
      PadReached(|m|, zeros);
      SHA1Update(finalcount);
    }

    method WriteDigest(digest: array<byte>)
      requires Valid() && digest.Length == 20
      modifies digest
      ensures digest[..] == OctetsOfRegisters(Loaded(state[..]))
    {
      hide OctetOfWord, OctetsOfRegisters;
      for i := 0 to 20
        invariant forall k :: 0 <= k < i ==> digest[k] == OctetOfWord(state[k / 4], k % 4)
      {
        digest[i] := OctetOfWord(state[i / 4], i % 4);
      }
      DigestOctets(state[..], digest[..]);
    }

    /** Pads, writes the digest and erases the context. */
    method SHA1Final(digest: array<byte>)
      requires Valid() && Absorbed()
      requires digest.Length == 20 && digest != buffer
      modifies Repr, digest
      ensures digest[..] == Digest(old(msg))
      ensures count0 == count1 == 0
      ensures (forall k :: 0 <= k < 5 ==> state[k] == 0) && (forall k :: 0 <= k < 64 ==> buffer[k] == 0)
    {
      hide Compress, ChainAll, Padded, OctetsOfRegisters, Loaded;
      Pad();
      WriteDigest(digest);
      forall k | 0 <= k < 5 {
        state[k] := 0;
      }
      forall k | 0 <= k < 64 {
        buffer[k] := 0;
      }
      count0, count1 := 0, 0;
    }
  }

  lemma NothingAbsorbed()
    ensures ChainAll(Compress, INITIAL, []) == INITIAL && Tail([]) == []
    ensures Low32(0) == 0 && High32(0) == 0
  {
    hide Compress;
  }

  lemma DigestOctets(words: seq<bv32>, digest: seq<byte>)
    requires |words| == 5 && |digest| == 20
    requires forall k :: 0 <= k < 20 ==> digest[k] == OctetOfWord(words[k / 4], k % 4)
    ensures digest == OctetsOfRegisters(Loaded(words))
  {
    hide OctetOfWord;
    assert [words[0], words[1], words[2], words[3], words[4]] == words;
  }

  lemma PadNotReached(n: nat, zeros: nat)
    requires zeros <= PadLength(n) && (n + 1 + zeros) % 64 != 56
    ensures zeros < PadLength(n)
    ensures Zeros(zeros + 1) == Zeros(zeros) + [0]
  {
  }

  lemma PadReached(n: nat, zeros: nat)
    requires zeros <= PadLength(n) && (n + 1 + zeros) % 64 == 56
    ensures zeros == PadLength(n)
  {
  }

  /** However a message is cut into pieces, the digest is that of the whole message. */
  method DigestOfPieces(pieces: seq<seq<byte>>, hostIsBigEndian: bool) returns (d: seq<byte>)
    requires forall k :: 0 <= k < |pieces| ==> |pieces[k]| < TWO_32 - 63
    ensures d == Digest(Joined(pieces))
  {
    hide Digest;
    var context := new Context(hostIsBigEndian);
    context.SHA1Init();
    for i := 0 to |pieces|
      invariant context.Absorbed() && context.msg == Joined(pieces[..i])
    {
      assert pieces[..i + 1][..i] == pieces[..i];
      context.SHA1Update(pieces[i]);
    }
    assert pieces[..|pieces|] == pieces;
    var digest := new byte[20];
    context.SHA1Final(digest);
    d := digest[..];
  }
}

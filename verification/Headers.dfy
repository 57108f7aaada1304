/** The packet headers as bytes on the line, and when a checksum written by an update passes the check. */
module Headers {
  import opened Ints
  import opened Blocks
  import opened Checksum

  type nibble = x: int | 0 <= x < 0x10

  /** A sixteen-bit word in network byte order. */
  function Net16(w: uint16): (b: seq<byte>)
    ensures |b| == 2
  {
    [w / 0x100, w % 0x100]
  }

  /** A sixteen-bit word at `at` of a line. */
  function WordAt(s: seq<byte>, at: nat): uint16
    requires at + 2 <= |s|
  {
    Word(s[at], s[at + 1])
  }

  function LongAt(s: seq<byte>, at: nat): uint32
    requires at + 4 <= |s|
  {
    0x1_0000 * WordAt(s, at) + WordAt(s, at + 2)
  }

  /** The other byte order of a word. */
  function Swapped(w: uint16): uint16 {
    w % 0x100 * 0x100 + w / 0x100
  }

  lemma NetWords(w: uint16, l: uint32)
    ensures WordAt(Net16(w), 0) == w
    ensures LongAt(BigEndian(l), 0) == l
  {
    var high, low := l / 0x1_0000, l % 0x1_0000;
    LongBytes(l);
    assert l == 0x1_0000 * high + low;
    assert Word(high / 0x100, high % 0x100) == high && Word(low / 0x100, low % 0x100) == low;
  }

  lemma LongBytes(l: uint32)
    ensures ByteOf(l, 3) == l / 0x1_0000 / 0x100
    ensures ByteOf(l, 2) == l / 0x1_0000 % 0x100
    ensures ByteOf(l, 1) == l % 0x1_0000 / 0x100
    ensures ByteOf(l, 0) == l % 0x1_0000 % 0x100
  {
    var high, low := l / 0x1_0000, l % 0x1_0000;
    assert l / 0x100_0000 == high / 0x100;
    assert l == 0x1_0000 * high + low;
    assert l / 0x100 == 0x100 * high + low / 0x100;
  }

  /** What stands at `at` of a line, read from that part of it. */
  lemma ReadPart(s: seq<byte>, at: nat)
    ensures at + 2 <= |s| ==> WordAt(s, at) == WordAt(s[at..at + 2], 0)
    ensures at + 4 <= |s| ==> LongAt(s, at) == LongAt(s[at..at + 4], 0)
  {
  }

  // ----- the IPv4 header -----

  datatype Ipv4 = Ipv4(hdrLen: nibble, version: nibble, serviceType: byte, totLen: uint16, id: uint16, fragment: uint16,
                       ttl: byte, protocol: byte, checksum: uint16, srcAddr: uint32, dstAddr: uint32)

  const IPV4_SIZE := 20

  function Ipv4Front(h: Ipv4): (b: seq<byte>)
    ensures |b| == 10
  {
    [16 * h.version + h.hdrLen, h.serviceType] + Net16(h.totLen) + Net16(h.id) + Net16(h.fragment) + [h.ttl, h.protocol]
  }

  /** The twenty bytes that section 3.1 of RFC 791 lays out. */
  function Ipv4Line(h: Ipv4): (b: seq<byte>)
    ensures |b| == IPV4_SIZE
  {
    Ipv4Front(h) + Net16(h.checksum) + (BigEndian(h.srcAddr) + BigEndian(h.dstAddr))
  }

  /** What the summation gives on the header with a zero checksum, complemented. */
  function Ipv4Checksum(h: Ipv4): uint16 {
    Complement(ShortSum(Ipv4Line(h.(checksum := 0))))
  }

  class Ipv4Header {
    var hdrLen: nibble
    var version: nibble
    var serviceType: byte
    var totLen: uint16
    var id: uint16
    var fragment: uint16
    var ttl: byte
    var protocol: byte
    var checksum: uint16
    var srcAddr: uint32
    var dstAddr: uint32

    function Value(): Ipv4
      reads this
    {
      Ipv4(hdrLen, version, serviceType, totLen, id, fragment, ttl, protocol, checksum, srcAddr, dstAddr)
    }

    constructor (h: Ipv4)
      ensures Value() == h
    {
      hdrLen, version, serviceType := h.hdrLen, h.version, h.serviceType;
      totLen, id, fragment := h.totLen, h.id, h.fragment;
      ttl, protocol, checksum, srcAddr, dstAddr := h.ttl, h.protocol, h.checksum, h.srcAddr, h.dstAddr;
    }

    /** Reads every field in network order, but the fragment word in the order of the machine. */
    method ReadFromBuffer(line: seq<byte>)
      requires |line| >= IPV4_SIZE
      modifies this
      ensures Value() == Ipv4Read(line[..IPV4_SIZE])
    {
      hide WordAt, LongAt, Swapped;
      var b := line[..IPV4_SIZE];
      hdrLen, version, serviceType := b[0] % 16, b[0] / 16, b[1];
      totLen, id, fragment := WordAt(b, 2), WordAt(b, 4), Swapped(WordAt(b, 6));
      ttl, protocol, checksum := b[8], b[9], WordAt(b, 10);
      srcAddr, dstAddr := LongAt(b, 12), LongAt(b, 16);
    }

    method UpdateChecksumWriteToBuffer(buffer: array<byte>, at: nat)
      requires at + IPV4_SIZE <= buffer.Length
      modifies this`checksum, buffer
      ensures Value() == old(Value()).(checksum := Ipv4Checksum(old(Value())))
      ensures buffer[..] == old(buffer[..at]) + Ipv4Line(Value()) + old(buffer[at + IPV4_SIZE..])
    {
      hide Net16, Ipv4Line, ShortSum;
      var line := Ipv4Line(Value().(checksum := 0));
      Copy(buffer, at, line, 0, IPV4_SIZE);
      assert line[0..IPV4_SIZE] == line;
      assert buffer[at..at + IPV4_SIZE] == line;
      var sum := OnesComplementShortSummation(buffer[at..at + IPV4_SIZE], IPV4_SIZE);
      assert line[..IPV4_SIZE] == line;
      checksum := Complement(sum);
      ChecksumInLine(Value());
      var word := Net16(checksum);
      Respliced(old(buffer[..at]), line, 10, word, old(buffer[at + IPV4_SIZE..]));
      Copy(buffer, at + 10, word, 0, 2);
      assert word[0..2] == word;
    }
  }

  /** Writing a part of a line again is writing the line with that part. */
  lemma Respliced(front: seq<byte>, line: seq<byte>, i: nat, part: seq<byte>, back: seq<byte>)
    requires i + |part| <= |line|
    ensures var s, at := front + line + back, |front| + i;
      s[..at] + part + s[at + |part|..] == front + (line[..i] + part + line[i + |part|..]) + back
  {
  }

  /** Writing the checksum afterwards gives the line of the header with that checksum. */
  lemma ChecksumInLine(h: Ipv4)
    ensures var zeroed := Ipv4Line(h.(checksum := 0)); Ipv4Line(h) == zeroed[..10] + Net16(h.checksum) + zeroed[12..]
  {
    hide Net16, Ipv4Front, ByteOf;
    SameFront(h);
  }

  method CheckIpv4Checksum(line: seq<byte>) returns (ok: bool)
    requires |line| >= IPV4_SIZE
    ensures ok == (ShortSum(line[..IPV4_SIZE]) == 0xffff)
  {
    var sum := OnesComplementShortSummation(line, IPV4_SIZE);
    return sum == 0xffff;
  }

  lemma NetWordSum(w: uint16)
    ensures WordSum(Net16(w)) == w
  {
    assert Net16(w)[2..] == [];
  }

  /** The checksum field adds its value to the sum. */
  lemma Ipv4SumOfChecksum(h: Ipv4)
    ensures WordSum(Ipv4Line(h)) == WordSum(Ipv4Line(h.(checksum := 0))) + h.checksum
  {
    hide Ipv4Line, WordSum;
    Ipv4LineSum(h);
    Ipv4LineSum(h.(checksum := 0));
  }

  lemma SameFront(h: Ipv4)
    ensures Ipv4Front(h.(checksum := 0)) == Ipv4Front(h)
  {
  }

  /** A sum and the complement of its fold fold to all ones exactly when the sum does not carry again. */
  lemma ComplementFolds(sum: nat)
    requires sum < 0xffff_0000
    ensures Short(sum + Complement(Short(sum))) == 0xffff <==> !CarriesAgain(sum)
  {
    var h, l := sum / 0x1_0000, sum % 0x1_0000;
    if CarriesAgain(sum) {
      assert sum + Complement(Short(sum)) == 0x1_0000 * (h + 1) + (0xffff - h);
    } else {
      assert sum + Complement(Short(sum)) == 0x1_0000 * h + (0xffff - h);
    }
  }

  /**
   * The check accepts what the update wrote exactly when the fold of the header sum does not
   * carry a second time, and exactly then the written checksum is the complement of the one's
   * complement sum.
   */
  lemma Ipv4Accepted(h: Ipv4)
    ensures var zeroed := Ipv4Line(h.(checksum := 0)); var written := Ipv4Line(h.(checksum := Ipv4Checksum(h)));
      && (ShortSum(written) == 0xffff <==> !CarriesAgain(WordSum(zeroed)))
      && (Ipv4Checksum(h) == Complement(OnesSum(zeroed)) <==> !CarriesAgain(WordSum(zeroed)))
  {
    hide WordSum, OnesSum, Ipv4Line, CarriesAgain, Short;
    var zeroed := Ipv4Line(h.(checksum := 0));
    Ipv4SumOfChecksum(h.(checksum := Ipv4Checksum(h)));
    WordSumBound(zeroed);
    ComplementFolds(WordSum(zeroed));
    SummationIsOnesSum(zeroed);
  }

  /** The header that a mirror call between 192.168.0.1 and 192.168.0.2 sends with this identification. */
  const REJECTED := Ipv4(5, 4, 0xb8, 200, 47130, 0, 128, 17, 0, 0xc0a8_0001, 0xc0a8_0002)

  /** A header of the generator's own calls that its own check rejects. */
  lemma Ipv4UpdateCanBeRejected()
    ensures ShortSum(Ipv4Line(REJECTED.(checksum := Ipv4Checksum(REJECTED)))) != 0xffff
  {
    hide Short, ShortSum, Ipv4Checksum, WordSum, Ipv4Line;
    Ipv4Accepted(REJECTED);
    RejectedSum();
  }

  lemma RejectedSum()
    ensures WordSum(Ipv4Line(REJECTED.(checksum := 0))) == 196606
  {
    hide WordSum, Ipv4Line;
    Ipv4LineSum(REJECTED.(checksum := 0));
  }

  lemma TwoBytesSum(high: byte, low: byte)
    ensures WordSum([high, low]) == 0x100 * high + low
  {
    assert [high, low][2..] == [];
  }

  lemma LongSum(l: uint32)
    ensures WordSum(BigEndian(l)) == l / 0x1_0000 + l % 0x1_0000
  {
    hide WordSum, ByteOf;
    var b := BigEndian(l);
    LongBytes(l);
    assert b == [b[0], b[1]] + [b[2], b[3]];
    WordSumConcat([b[0], b[1]], [b[2], b[3]]);
    TwoBytesSum(b[0], b[1]);
    TwoBytesSum(b[2], b[3]);
  }

  /** The header sum, field by field. */
  lemma Ipv4LineSum(h: Ipv4)
    ensures WordSum(Ipv4Line(h))
            == 0x100 * (16 * h.version + h.hdrLen) + h.serviceType + h.totLen + h.id + h.fragment + 0x100 * h.ttl
                + h.protocol
               + h.checksum + h.srcAddr / 0x1_0000 + h.srcAddr % 0x1_0000 + h.dstAddr / 0x1_0000 + h.dstAddr % 0x1_0000
  {
    hide WordSum, Net16, BigEndian;
    var b0 := [(16 * h.version + h.hdrLen) as byte, h.serviceType];
    var b1 := b0 + Net16(h.totLen);
    var b2 := b1 + Net16(h.id);
    var b3 := b2 + Net16(h.fragment);
    TwoBytesSum(16 * h.version + h.hdrLen, h.serviceType);
    WordSumConcat(b0, Net16(h.totLen));
    WordSumConcat(b1, Net16(h.id));
    WordSumConcat(b2, Net16(h.fragment));
    WordSumConcat(b3, [h.ttl, h.protocol]);
    TwoBytesSum(h.ttl, h.protocol);
    WordSumConcat(Ipv4Front(h), Net16(h.checksum));
    WordSumConcat(Ipv4Front(h) + Net16(h.checksum), BigEndian(h.srcAddr) + BigEndian(h.dstAddr));
    WordSumConcat(BigEndian(h.srcAddr), BigEndian(h.dstAddr));
    NetWordSum(h.totLen);
    NetWordSum(h.id);
    NetWordSum(h.fragment);
    NetWordSum(h.checksum);
    LongSum(h.srcAddr);
    LongSum(h.dstAddr);
  }

  function Ipv4Read(b: seq<byte>): Ipv4
    requires |b| == IPV4_SIZE
  {
    Ipv4(b[0] % 16, b[0] / 16, b[1], WordAt(b, 2), WordAt(b, 4), Swapped(WordAt(b, 6)), b[8], b[9], WordAt(b, 10),
         LongAt(b, 12), LongAt(b, 16))
  }

  /** Reading gives back what was written exactly when the two bytes of the fragment word are equal. */
  lemma Ipv4ReadBack(h: Ipv4)
    ensures Ipv4Read(Ipv4Line(h)) == h.(fragment := Swapped(h.fragment))
    ensures Ipv4Read(Ipv4Line(h)) == h <==> h.fragment / 0x100 == h.fragment % 0x100
  {
    hide Net16, BigEndian, WordAt, LongAt, Swapped;
    var b := Ipv4Line(h);
    NetWords(h.totLen, h.srcAddr);
    NetWords(h.id, h.dstAddr);
    NetWords(h.fragment, 0);
    NetWords(h.checksum, 0);
    Ipv4Parts(h);
    ReadPart(b, 2);
    ReadPart(b, 4);
    ReadPart(b, 6);
    ReadPart(b, 10);
    ReadPart(b, 12);
    ReadPart(b, 16);
    SwappedEqual(h.fragment);
  }

  /** A header with the don't-fragment bit is not read back. */
  lemma FragmentNotReadBack(h: Ipv4)
    requires h.fragment == 0x4000
    ensures Ipv4Read(Ipv4Line(h)) != h && Ipv4Read(Ipv4Line(h)).fragment == 0x40
  {
    hide Ipv4Line, Ipv4Read;
    Ipv4ReadBack(h);
  }

  lemma SwappedEqual(w: uint16)
    ensures Swapped(w) == w <==> w / 0x100 == w % 0x100
  {
  }

  lemma Ipv4Parts(h: Ipv4)
    ensures var b := Ipv4Line(h);
      && b[2..4] == Net16(h.totLen) && b[4..6] == Net16(h.id)
      && b[6..8] == Net16(h.fragment) && b[10..12] == Net16(h.checksum)
      && b[12..16] == BigEndian(h.srcAddr) && b[16..20] == BigEndian(h.dstAddr)
      && b[0] % 16 == h.hdrLen && b[0] / 16 == h.version && b[1] == h.serviceType && b[8] == h.ttl && b[9] == h.protocol
  {
    hide Net16, BigEndian;
  }

  // ----- the UDP header -----

  datatype Udp = Udp(srcPort: uint16, dstPort: uint16, totLen: uint16, checksum: uint16)

  datatype Pseudo = Pseudo(srcAddr: uint32, dstAddr: uint32, zeroPad: byte, protocol: byte, dataLen: uint16)

  const UDP_SIZE := 8

  function UdpLine(h: Udp): (b: seq<byte>)
    ensures |b| == UDP_SIZE
  {
    Net16(h.srcPort) + Net16(h.dstPort) + Net16(h.totLen) + Net16(h.checksum)
  }

  /** The pseudo header; its padding is zero on the line, whatever the field holds. */
  function PseudoLine(p: Pseudo): (b: seq<byte>)
    ensures |b| == 12
  {
    BigEndian(p.srcAddr) + BigEndian(p.dstAddr) + [0, p.protocol] + Net16(p.dataLen)
  }

  /** The sum of three summations that the update folds. */
  function UdpSum(h: Udp, data: seq<byte>, p: Pseudo): nat {
    ShortSum(PseudoLine(p)) + ShortSum(data) + ShortSum(UdpLine(h.(checksum := 0)))
  }

  function UdpChecksum(h: Udp, data: seq<byte>, p: Pseudo): uint16 {
    Complement(Short(UdpSum(h, data, p)))
  }

  /** The payload length that the update takes from the header, in sixteen bits. */
  function DataLength(h: Udp): uint16 {
    (h.totLen - UDP_SIZE) % 0x1_0000
  }

  class UdpHeader {
    var srcPort: uint16
    var dstPort: uint16
    var totLen: uint16
    var checksum: uint16

    function Value(): Udp
      reads this
    {
      Udp(srcPort, dstPort, totLen, checksum)
    }

    constructor (h: Udp)
      ensures Value() == h
    {
      srcPort, dstPort, totLen, checksum := h.srcPort, h.dstPort, h.totLen, h.checksum;
    }

    method UpdateChecksumWriteToBuffer(buffer: array<byte>, at: nat, udpData: seq<byte>, pseudo: Pseudo)
      requires at + UDP_SIZE <= buffer.Length && DataLength(Value()) <= |udpData|
      modifies this`checksum, buffer
      ensures var h := old(Value());
        Value() == h.(checksum := UdpChecksum(h, udpData[..DataLength(h)], pseudo))
      ensures buffer[..] == old(buffer[..at]) + UdpLine(Value()) + old(buffer[at + UDP_SIZE..])
    {
      hide Net16, UdpLine, PseudoLine, ShortSum, Short;
      var pseudoLine := PseudoLine(pseudo);
      var sum: int := OnesComplementShortSummation(pseudoLine, 12);
      assert pseudoLine[..12] == pseudoLine;
      var part := OnesComplementShortSummation(udpData, DataLength(Value()));
      sum := sum + part;
      var line := UdpLine(Value().(checksum := 0));
      Copy(buffer, at, line, 0, UDP_SIZE);
      assert line[0..UDP_SIZE] == line;
      assert buffer[at..at + UDP_SIZE] == line;
      part := OnesComplementShortSummation(buffer[at..at + UDP_SIZE], UDP_SIZE);
      checksum := Complement(Short(sum + part));
      UdpChecksumInLine(Value());
      var word := Net16(checksum);
      Respliced(old(buffer[..at]), line, 6, word, old(buffer[at + UDP_SIZE..]));
      Copy(buffer, at + 6, word, 0, 2);
      assert word[0..2] == word;
    }
  }

  /** The layout of RFC 768: the two ports, the length and the checksum. */
  lemma UdpWords(h: Udp)
    ensures var b := UdpLine(h);
      && WordAt(b, 0) == h.srcPort && WordAt(b, 2) == h.dstPort
      && WordAt(b, 4) == h.totLen && WordAt(b, 6) == h.checksum
  {
    hide Net16, WordAt;
    var b := UdpLine(h);
    NetWords(h.srcPort, 0);
    NetWords(h.dstPort, 0);
    NetWords(h.totLen, 0);
    NetWords(h.checksum, 0);
    ReadPart(b, 0);
    ReadPart(b, 2);
    ReadPart(b, 4);
    ReadPart(b, 6);
    assert b[0..2] == Net16(h.srcPort) && b[2..4] == Net16(h.dstPort);
    assert b[4..6] == Net16(h.totLen) && b[6..8] == Net16(h.checksum);
  }

  /** The layout of the pseudo header of RFC 768. */
  lemma PseudoWords(p: Pseudo)
    ensures var b := PseudoLine(p);
      && LongAt(b, 0) == p.srcAddr && LongAt(b, 4) == p.dstAddr
      && b[8] == 0 && b[9] == p.protocol && WordAt(b, 10) == p.dataLen
  {
    hide Net16, BigEndian, WordAt, LongAt;
    var b := PseudoLine(p);
    NetWords(p.dataLen, p.srcAddr);
    NetWords(0, p.dstAddr);
    ReadPart(b, 0);
    ReadPart(b, 4);
    ReadPart(b, 10);
    assert b[0..4] == BigEndian(p.srcAddr) && b[4..8] == BigEndian(p.dstAddr) && b[10..12] == Net16(p.dataLen);
  }

  lemma UdpChecksumInLine(h: Udp)
    ensures var zeroed := UdpLine(h.(checksum := 0)); UdpLine(h) == zeroed[..6] + Net16(h.checksum) + zeroed[8..]
  {
    hide Net16;
  }

  /** Whether the check accepts a packet. */
  predicate UdpAccepts(packet: seq<byte>, p: Pseudo) {
    Short(ShortSum(PseudoLine(p)) + ShortSum(packet)) == 0xffff
  }

  method CheckUdpChecksum(line: seq<byte>, pseudo: Pseudo) returns (ok: bool)
    requires |line| >= 6 && |line| >= WordAt(line, 4)
    ensures ok == UdpAccepts(line[..WordAt(line, 4)], pseudo)
  {
    hide WordSum, Short, PseudoLine, WordAt;
    var pseudoLine := PseudoLine(pseudo);
    var sum: int := OnesComplementShortSummation(pseudoLine, 12);
    assert pseudoLine[..12] == pseudoLine;
    var part := OnesComplementShortSummation(line, WordAt(line, 4));
    return Short(sum + part) == 0xffff;
  }

  function Again(sum: nat): nat {
    if CarriesAgain(sum) then 1 else 0
  }

  /** The sum of the three short sums that the update folds, from the sums of header and payload. */
  function UdpTotal(p: uint16, head: nat, data: nat): nat {
    p + Short(head) + Short(data)
  }

  /** How many of the update's folds lose a carry. */
  function LostCarries(p: uint16, head: nat, data: nat): nat {
    Again(head) + Again(data) + Again(UdpTotal(p, head, data))
  }

  /** The pseudo header's sum and the high halves of the other sums leave sixteen bits. */
  predicate Spills(p: uint16, head: nat, data: nat) {
    p + head / 0x1_0000 + data / 0x1_0000 + UdpTotal(p, head, data) / 0x1_0000 >= 0x1_0000
  }

  /**
   * What the three sums must satisfy for the update and the check to agree: no lost carry, or, in
   * the rare case that the high halves spill over, exactly one.
   */
  predicate UdpConsistent(p: uint16, head: nat, data: nat) {
    if Spills(p, head, data) then
      LostCarries(p, head, data) == 1 || (LostCarries(p, head, data) == 0 && p == 0xffff)
    else
      LostCarries(p, head, data) == 0
  }

  lemma ShortIs(sum: nat)
    requires sum < 0x1_0000_0000
    ensures Short(sum) == sum - 0xffff * (sum / 0x1_0000) - 0x1_0000 * Again(sum)
  {
    FoldBelow(sum);
  }

  /** The fold of a sum that lies `u` below a multiple of 2^16. */
  lemma FoldBelowMultiple(sum: nat, m: nat, u: int)
    requires sum == 0x1_0000 * m - u && 1 <= u <= 0x2_0000
    ensures Fold(sum) == sum - 0xffff * (m - if u <= 0x1_0000 then 1 else 2)
  {
    var q := if u <= 0x1_0000 then 1 else 2;
    assert sum == 0x1_0000 * (m - q) + (0x1_0000 * q - u);
  }

  lemma TwoWordsFold(x: uint16, y: uint16)
    ensures Short(x + y) == 0xffff <==> x + y == 0xffff || x + y == 0x1_fffe
  {
  }

  /** The packet's sum with its checksum, where `high` stands for the high halves of the three sums. */
  lemma PacketSum(p: uint16, head: nat, data: nat, high: nat)
    requires head < 0x4_0000 && data < 0x7fff_0000
    requires high == head / 0x1_0000 + data / 0x1_0000 + UdpTotal(p, head, data) / 0x1_0000
    ensures head + Complement(Short(UdpTotal(p, head, data))) + data
            == 0xffff * (high + 1 + LostCarries(p, head, data)) + LostCarries(p, head, data) - p
  {
    hide Short, CarriesAgain, Again;
    ShortIs(head);
    ShortIs(data);
    ShortIs(UdpTotal(p, head, data));
  }

  /** The check's decision on the packet's fold. */
  lemma FoldDecides(p: uint16, sum: nat, high: nat, lost: nat)
    requires sum == 0xffff * (high + 1 + lost) + lost - p
    requires lost <= 3 && high < 0xffff
    ensures Short(p + Short(sum)) == 0xffff
            <==> if p + high >= 0x1_0000 then lost == 1 || (lost == 0 && p == 0xffff) else lost == 0
  {
    hide Fold;
    FoldBelowMultiple(sum, high + 1 + lost, high + 1 + p);
    var q := if p + high >= 0x1_0000 then 2 else 1;
    assert Fold(sum) == 0xffff * q + lost - p;
    assert Short(sum) == if Fold(sum) >= 0x1_0000 then Fold(sum) - 0x1_0000 else Fold(sum);
    TwoWordsFold(p, Short(sum));
  }

  lemma UdpAcceptedSums(p: uint16, head: nat, data: nat)
    requires head < 0x4_0000 && data < 0x7fff_0000
    ensures var all := head + Complement(Short(UdpTotal(p, head, data))) + data;
      Short(p + Short(all)) == 0xffff <==> UdpConsistent(p, head, data)
  {
    hide Short, CarriesAgain;
    var high := head / 0x1_0000 + data / 0x1_0000 + UdpTotal(p, head, data) / 0x1_0000;
    PacketSum(p, head, data, high);
    FoldDecides(p, head + Complement(Short(UdpTotal(p, head, data))) + data, high, LostCarries(p, head, data));
  }

  lemma UdpLineSum(h: Udp)
    ensures WordSum(UdpLine(h)) == h.srcPort as int + h.dstPort + h.totLen + h.checksum
  {
    hide Net16, WordSum;
    var front := Net16(h.srcPort) + Net16(h.dstPort);
    WordSumConcat(Net16(h.srcPort), Net16(h.dstPort));
    WordSumConcat(front, Net16(h.totLen));
    WordSumConcat(front + Net16(h.totLen), Net16(h.checksum));
    NetWordSum(h.srcPort);
    NetWordSum(h.dstPort);
    NetWordSum(h.totLen);
    NetWordSum(h.checksum);
  }

  lemma PseudoLineSum(p: Pseudo)
    ensures WordSum(PseudoLine(p))
            == p.srcAddr / 0x1_0000 + p.srcAddr % 0x1_0000 + p.dstAddr / 0x1_0000 + p.dstAddr % 0x1_0000 + p.protocol
                + p.dataLen
  {
    hide Net16, WordSum, BigEndian;
    var addrs := BigEndian(p.srcAddr) + BigEndian(p.dstAddr);
    WordSumConcat(BigEndian(p.srcAddr), BigEndian(p.dstAddr));
    WordSumConcat(addrs, [0, p.protocol]);
    WordSumConcat(addrs + [0, p.protocol], Net16(p.dataLen));
    LongSum(p.srcAddr);
    LongSum(p.dstAddr);
    TwoBytesSum(0, p.protocol);
    NetWordSum(p.dataLen);
  }

  /**
   * The check accepts an updated packet exactly when the sums of pseudo header, header and
   * payload are consistent; all three are known before the update.
   */
  lemma UdpAcceptedExactly(h: Udp, data: seq<byte>, p: Pseudo)
    requires h.totLen == UDP_SIZE + |data|
    ensures UdpAccepts(UdpLine(h.(checksum := UdpChecksum(h, data, p))) + data, p)
            <==> UdpConsistent(ShortSum(PseudoLine(p)), WordSum(UdpLine(h.(checksum := 0))), WordSum(data))
  {
    hide Short, CarriesAgain, WordSum, UdpLine, PseudoLine, UdpConsistent;
    UdpLineSum(h.(checksum := 0));
    WordSumBound(data);
    UdpLineSum(h.(checksum := UdpChecksum(h, data, p)));
    WordSumConcat(UdpLine(h.(checksum := UdpChecksum(h, data, p))), data);
    UdpAcceptedSums(ShortSum(PseudoLine(p)), WordSum(UdpLine(h.(checksum := 0))), WordSum(data));
  }

  /** When no fold of the update loses a carry and the high halves do not spill, the check accepts. */
  lemma UdpAcceptedWithoutCarries(h: Udp, data: seq<byte>, p: Pseudo)
    requires h.totLen == UDP_SIZE + |data|
    ensures var pseudo, head, payload := ShortSum(PseudoLine(p)), WordSum(UdpLine(h.(checksum := 0))), WordSum(data);
      LostCarries(pseudo, head, payload) == 0 && !Spills(pseudo, head, payload) ==>
        UdpAccepts(UdpLine(h.(checksum := UdpChecksum(h, data, p))) + data, p)
  {
    hide LostCarries, Spills, UdpLine, PseudoLine, WordSum, ShortSum, UdpAccepts, UdpChecksum;
    UdpAcceptedExactly(h, data, p);
  }

  const LOSING_PAYLOAD: seq<byte> := [0xff, 0xff, 0xff, 0xff, 0, 1]

  /** A payload whose fold loses a carry: the updated packet is rejected. */
  lemma UdpUpdateCanBeRejected()
    ensures var h, p := Udp(1, 2, 14, 0), Pseudo(0, 0, 0, 17, 14);
      !UdpAccepts(UdpLine(h.(checksum := UdpChecksum(h, LOSING_PAYLOAD, p))) + LOSING_PAYLOAD, p)
  {
    hide UdpAccepts, UdpChecksum, UdpLine, PseudoLine, WordSum, Short, CarriesAgain;
    var h, p := Udp(1, 2, 14, 0), Pseudo(0, 0, 0, 17, 14);
    UdpAcceptedExactly(h, LOSING_PAYLOAD, p);
    WitnessSums(h, p);
    WitnessCarries();
  }

  lemma WitnessSums(h: Udp, p: Pseudo)
    requires h == Udp(1, 2, 14, 0) && p == Pseudo(0, 0, 0, 17, 14)
    ensures WordSum(LOSING_PAYLOAD) == 0x1_ffff && WordSum(UdpLine(h)) == 17
    ensures ShortSum(PseudoLine(p)) == 31
  {
    hide WordSum, UdpLine, PseudoLine;
    UdpLineSum(h);
    PseudoLineSum(p);
    LosingSum();
  }

  lemma LosingSum()
    ensures WordSum(LOSING_PAYLOAD) == 0x1_ffff
  {
    hide WordSum;
    assert LOSING_PAYLOAD == BigEndian(0xffff_ffff) + [0, 1];
    WordSumConcat(BigEndian(0xffff_ffff), [0, 1]);
    LongSum(0xffff_ffff);
    TwoBytesSum(0, 1);
  }

  lemma WitnessCarries()
    ensures !UdpConsistent(31, 17, 0x1_ffff)
  {
  }

  /** The computed checksum is zero exactly when the total is a positive multiple of 65535. */
  lemma UdpChecksumIsZero(h: Udp, data: seq<byte>, p: Pseudo)
    ensures UdpChecksum(h, data, p) == 0 <==> UdpSum(h, data, p) > 0 && UdpSum(h, data, p) % 0xffff == 0
  {
    hide ShortSum, UdpLine, PseudoLine, Short;
    ShortMeansMultiple(UdpSum(h, data, p));
  }

  /** A header for which the update writes a zero, which RFC 768 keeps for packets without a checksum. */
  lemma UdpChecksumCanBeZero()
    ensures UdpChecksum(Udp(65502, 0, 8, 0), [], Pseudo(0, 0, 0, 17, 8)) == 0
  {
    hide Short, WordSum, UdpLine, PseudoLine;
    var h, p := Udp(65502, 0, 8, 0), Pseudo(0, 0, 0, 17, 8);
    ZeroWitnessSums(h, p);
    UdpChecksumIsZero(h, [], p);
  }

  lemma ZeroWitnessSums(h: Udp, p: Pseudo)
    requires h == Udp(65502, 0, 8, 0) && p == Pseudo(0, 0, 0, 17, 8)
    ensures ShortSum(UdpLine(h)) == 65510 && ShortSum(PseudoLine(p)) == 25 && ShortSum([]) == 0
  {
    hide WordSum, UdpLine, PseudoLine;
    UdpLineSum(h);
    PseudoLineSum(p);
    WordSumEnds([]);
  }

  // ----- the UDP checksum and RFC 1071 -----

  /** The words that the checksum covers: pseudo header, header and payload. */
  function Covered(h: Udp, data: seq<byte>, p: Pseudo): seq<byte> {
    PseudoLine(p) + UdpLine(h.(checksum := 0)) + data
  }

  lemma SkewAfter(s: seq<byte>, t: seq<byte>)
    requires |s| % 2 == 0
    ensures Skew(s + t) == Skew(t)
  {
  }

  lemma CoveredSum(h: Udp, data: seq<byte>, p: Pseudo)
    ensures WordSum(Covered(h, data, p))
            == WordSum(PseudoLine(p)) + WordSum(UdpLine(h.(checksum := 0))) + WordSum(data)
    ensures Skew(Covered(h, data, p)) == Skew(data)
  {
    hide PseudoLine, UdpLine, WordSum, Skew;
    var front := PseudoLine(p) + UdpLine(h.(checksum := 0));
    WordSumConcat(PseudoLine(p), UdpLine(h.(checksum := 0)));
    WordSumConcat(front, data);
    SkewAfter(front, data);
  }

  /** The carries that the four folds of the update lose. */
  function FourCarries(pseudo: nat, head: nat, data: nat): nat {
    Again(pseudo) + LostCarries(Short(pseudo), head, data)
  }

  /** A fold differs from its sum by a multiple of 65535 and the lost carry. */
  lemma FoldLoses(sum: nat) returns (m: int)
    requires sum < 0x1_0000_0000
    ensures Short(sum) + Again(sum) == sum - 0xffff * m
  {
    hide Short, Again;
    ShortIs(sum);
    m := sum / 0x1_0000 + Again(sum);
  }

  lemma TotalFalls(pseudo: nat, head: nat, data: nat) returns (m: int)
    requires pseudo < 0x8_0000 && head < 0x4_0000 && data < 0x7fff_0000
    ensures Short(UdpTotal(Short(pseudo), head, data)) + FourCarries(pseudo, head, data)
            == pseudo + head + data - 0xffff * m
  {
    hide Short, Again;
    var total := UdpTotal(Short(pseudo), head, data);
    var m1 := FoldLoses(pseudo);
    var m2 := FoldLoses(head);
    var m3 := FoldLoses(data);
    var m4 := FoldLoses(total);
    m := m1 + m2 + m3 + m4;
    FoldsAdd(pseudo, head, data, Short(pseudo), Short(head), Short(data), Short(total),
             Again(pseudo), Again(head), Again(data), Again(total), m1, m2, m3, m4);
  }

  /** The folded total is short of the covered sum by the lost carries, modulo 65535. */
  lemma TotalCongruent(pseudo: nat, head: nat, data: nat)
    requires pseudo < 0x8_0000 && head < 0x4_0000 && data < 0x7fff_0000
    ensures
      Congruent(Short(UdpTotal(Short(pseudo), head, data)) + FourCarries(pseudo, head, data), pseudo + head + data)
  {
    hide Short, Again, Congruent, UdpTotal, FourCarries;
    var m := TotalFalls(pseudo, head, data);
    var total := Short(UdpTotal(Short(pseudo), head, data));
    LessIsCongruent(total + FourCarries(pseudo, head, data), pseudo + head + data, m);
  }

  lemma FoldsAdd(p: int, h: int, d: int, shortP: int, shortH: int, shortD: int, shortT: int,
                 againP: int, againH: int, againD: int, againT: int, m1: int, m2: int, m3: int, m4: int)
    requires shortP + againP == p - 0xffff * m1 && shortH + againH == h - 0xffff * m2
    requires shortD + againD == d - 0xffff * m3 && shortT + againT == shortP + shortH + shortD - 0xffff * m4
    ensures shortT + (againP + (againH + againD + againT)) == p + h + d - 0xffff * (m1 + m2 + m3 + m4)
  {
  }

  /** Without a lost carry, the total is zero only when nothing is covered. */
  lemma TotalIsZero(pseudo: nat, head: nat, data: nat)
    requires FourCarries(pseudo, head, data) == 0
    ensures Short(UdpTotal(Short(pseudo), head, data)) == 0 <==> pseudo + head + data == 0
  {
    hide Short, CarriesAgain;
    ZeroFold(pseudo);
    ZeroFold(head);
    ZeroFold(data);
    ZeroFold(UdpTotal(Short(pseudo), head, data));
  }

  lemma LessIsCongruent(x: int, y: int, m: int)
    requires x == y - 0xffff * m
    ensures Congruent(x, y)
  {
    assert x - y == 0xffff * -m;
  }

  lemma ZeroFold(sum: nat)
    requires !CarriesAgain(sum)
    ensures Short(sum) == 0 <==> sum == 0
  {
  }

  /**
   * The update writes the checksum of RFC 768, the complement of the one's complement sum over all
   * that is covered, exactly when none of its four folds loses a carry and no odd last byte has a value.
   */
  lemma UdpChecksumIsOnesSum(h: Udp, data: seq<byte>, p: Pseudo)
    requires h.totLen == UDP_SIZE + |data|
    ensures UdpChecksum(h, data, p) == Complement(OnesSum(Covered(h, data, p)))
            <==> FourCarries(WordSum(PseudoLine(p)), WordSum(UdpLine(h.(checksum := 0))), WordSum(data)) == 0
                 && EvenOrZeroEnd(data)
  {
    hide Short, WordSum, OnesSum, UdpLine, PseudoLine, Covered, Congruent, FourCarries;
    var pseudo, head, payload := WordSum(PseudoLine(p)), WordSum(UdpLine(h.(checksum := 0))), WordSum(data);
    WordSumBound(PseudoLine(p));
    WordSumBound(data);
    UdpLineSum(h.(checksum := 0));
    CoveredSum(h, data, p);
    OnesSumCongruent(Covered(h, data, p));
    TotalCongruent(pseudo, head, payload);
    FewCarries(pseudo, head, payload);
    var short, ones := Short(UdpTotal(Short(pseudo), head, payload)), OnesSum(Covered(h, data, p));
    var lost := FourCarries(pseudo, head, payload);
    var last := if |data| % 2 == 1 then data[|data| - 1] else 0;
    if lost == 0 && last == 0 {
      TotalIsZero(pseudo, head, payload);
      SameResidueOf(short, ones, pseudo + head + payload);
    } else {
      ResiduesDiffer(short, ones, pseudo + head + payload, lost, last);
    }
  }

  lemma FewCarries(pseudo: nat, head: nat, data: nat)
    ensures FourCarries(pseudo, head, data) <= 4
  {
    hide CarriesAgain, Short;
  }

  /**
   * When neither fold of the check loses a carry, the check accepts exactly what RFC 1071 has it
   * accept; when one does, no packet is accepted both by the check and by RFC 1071.
   */
  lemma UdpCheckIsOnesSum(packet: seq<byte>, p: Pseudo)
    requires |packet| < 0x1_0000 && EvenOrZeroEnd(packet)
    ensures Again(WordSum(PseudoLine(p))) + Again(WordSum(packet)) == 0 ==>
      (UdpAccepts(packet, p) <==> OnesSum(PseudoLine(p) + packet) == 0xffff)
    ensures Again(WordSum(PseudoLine(p))) + Again(WordSum(packet)) > 0 ==>
      !(UdpAccepts(packet, p) && OnesSum(PseudoLine(p) + packet) == 0xffff)
  {
    hide Short, WordSum, OnesSum, PseudoLine, Congruent, CarriesAgain, Skew;
    var a, b := WordSum(PseudoLine(p)), WordSum(packet);
    WordSumBound(PseudoLine(p));
    WordSumBound(packet);
    WordSumConcat(PseudoLine(p), packet);
    SkewAfter(PseudoLine(p), packet);
    NoSkew(packet);
    OnesSumCongruent(PseudoLine(p) + packet);
    OnesMeansMultiple(OnesSum(PseudoLine(p) + packet), a + b);
    var m1 := FoldLoses(a);
    var m2 := FoldLoses(b);
    TwoWordsFold(Short(a), Short(b));
    if Again(a) + Again(b) == 0 {
      ZeroFold(a);
      ZeroFold(b);
    }
    FoldsAccept(a + b, Short(a) + Short(b), Again(a) + Again(b), m1 + m2);
  }

  lemma NoSkew(s: seq<byte>)
    requires EvenOrZeroEnd(s)
    ensures Skew(s) == 0
  {
  }

  /** Two folds that fall short of their sum by lost carries and multiples of 65535. */
  lemma FoldsAccept(sum: nat, folds: int, lost: int, m: int)
    requires 0 <= folds <= 0x1_fffe && 0 <= lost <= 2 && folds + lost == sum - 0xffff * m
    ensures lost > 0 && (folds == 0xffff || folds == 0x1_fffe) ==> sum % 0xffff != 0
    ensures lost == 0 && (folds == 0 <==> sum == 0) ==>
      ((folds == 0xffff || folds == 0x1_fffe) <==> sum > 0 && sum % 0xffff == 0)
  {
    if folds == 0xffff {
      assert sum == 0xffff * (m + 1) + lost;
    } else if folds == 0x1_fffe {
      assert sum == 0xffff * (m + 2) + lost;
    } else if folds > 0xffff {
      assert sum == 0xffff * (m + 1) + (folds - 0xffff + lost);
    } else {
      assert sum == 0xffff * m + (folds + lost);
    }
  }

  // ----- the RTP header -----

  type bit = x: int | 0 <= x < 2
  type bits2 = x: int | 0 <= x < 4
  type bits7 = x: int | 0 <= x < 0x80

  datatype Rtp = Rtp(cc: nibble, x: bit, p: bit, version: bits2, payload: bits7, m: bit, seqNum: uint16,
      timestamp: uint32, ssrc: uint32)

  const RTP_SIZE := 12

  /** The layout of section 5.1 of RFC 3550. */
  function RtpLine(h: Rtp): (b: seq<byte>)
    ensures |b| == RTP_SIZE
  {
    [64 * h.version + 32 * h.p + 16 * h.x + h.cc, 128 * h.m + h.payload] + Net16(h.seqNum) + BigEndian(h.timestamp)
        + BigEndian(h.ssrc)
  }

  function RtpRead(b: seq<byte>): Rtp
    requires |b| == RTP_SIZE
  {
    Rtp(b[0] % 16, b[0] / 16 % 2, b[0] / 32 % 2, b[0] / 64, b[1] % 128, b[1] / 128, WordAt(b, 2), LongAt(b, 4),
        LongAt(b, 8))
  }

  lemma RtpReadBack(h: Rtp)
    ensures RtpRead(RtpLine(h)) == h
  {
    hide Net16, BigEndian, WordAt, LongAt;
    var b := RtpLine(h);
    NetWords(h.seqNum, h.timestamp);
    NetWords(h.seqNum, h.ssrc);
    RtpParts(h);
    ReadPart(b, 2);
    ReadPart(b, 4);
    ReadPart(b, 8);
  }

  lemma RtpParts(h: Rtp)
    ensures var b := RtpLine(h);
      && b[2..4] == Net16(h.seqNum) && b[4..8] == BigEndian(h.timestamp) && b[8..12] == BigEndian(h.ssrc)
      && b[0] % 16 == h.cc && b[0] / 16 % 2 == h.x && b[0] / 32 % 2 == h.p && b[0] / 64 == h.version
      && b[1] % 128 == h.payload && b[1] / 128 == h.m
  {
    hide Net16, BigEndian;
    RtpBits(h.version, h.p, h.x, h.cc);
    var b := RtpLine(h);
    assert b[0] == 64 * h.version + 32 * h.p + 16 * h.x + h.cc && b[1] == 128 * h.m + h.payload;
  }

  lemma RtpBits(version: int, p: int, x: int, cc: int)
    requires 0 <= version < 4 && 0 <= p < 2 && 0 <= x < 2 && 0 <= cc < 16
    ensures var b := 64 * version + 32 * p + 16 * x + cc;
      b % 16 == cc && b / 16 % 2 == x && b / 32 % 2 == p && b / 64 == version
  {
    var b := 64 * version + 32 * p + 16 * x + cc;
    assert b / 16 == 4 * version + 2 * p + x;
    assert b / 32 == 2 * version + p;
  }
}

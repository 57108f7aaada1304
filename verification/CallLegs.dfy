/** One direction of a call: the packets that its steps put on the line. */
module CallLegs {
  import opened Ints
  import opened Blocks
  import opened Checksum
  import opened Headers

  const PACKET_DURATION := 20
  const PACKET_SIZE := 160
  const ETH_SIZE := 14
  const LINE_SIZE := 214

  type Payload = s: seq<byte> | |s| == PACKET_SIZE witness seq(PACKET_SIZE, _ => 0)
  type EthLine = s: seq<byte> | |s| == ETH_SIZE witness seq(ETH_SIZE, _ => 0)

  /** What a leg is created with; `encoded(k)` is what its generator and encoder give for packet `k`. */
  datatype Stream = Stream(eth: EthLine, srcAddr: uint32, srcPort: uint16, dstAddr: uint32, dstPort: uint16, id: uint16,
                           timestamp: uint32, ssrc: uint32, seqNum: uint16, payloadType: bits7, encoded: nat -> Payload)

  // ----- packet k of a stream -----

  function RtpOf(st: Stream, k: nat): Rtp {
    Rtp(0, 0, 0, 2, st.payloadType, 0, (st.seqNum + k) % 0x1_0000, (st.timestamp + PACKET_SIZE * k) % 0x1_0000_0000,
        st.ssrc)
  }

  function UdpOf(st: Stream): Udp {
    Udp(st.srcPort, st.dstPort, UDP_SIZE + RTP_SIZE + PACKET_SIZE, 0)
  }

  function Ipv4Of(st: Stream, k: nat): Ipv4 {
    Ipv4(5, 4, 0xb8, IPV4_SIZE + UDP_SIZE + RTP_SIZE + PACKET_SIZE, (st.id + k) % 0x1_0000, 0, 128, 17, 0, st.srcAddr,
        st.dstAddr)
  }

  /** The pseudo header, copied from the two headers. */
  function PseudoOf(st: Stream): Pseudo {
    Pseudo(Ipv4Of(st, 0).srcAddr, Ipv4Of(st, 0).dstAddr, 0, Ipv4Of(st, 0).protocol, UdpOf(st).totLen)
  }

  /** The UDP payload: the RTP header and the encoded samples. */
  function DataOf(st: Stream, k: nat): (b: seq<byte>)
    ensures |b| == RTP_SIZE + PACKET_SIZE
  {
    RtpLine(RtpOf(st, k)) + st.encoded(k)
  }

  function UdpPacketOf(st: Stream, k: nat): (b: seq<byte>)
    ensures |b| == UDP_SIZE + RTP_SIZE + PACKET_SIZE
  {
    UdpLine(UdpOf(st).(checksum := UdpChecksum(UdpOf(st), DataOf(st, k), PseudoOf(st)))) + DataOf(st, k)
  }

  function Ipv4HeaderOf(st: Stream, k: nat): (b: seq<byte>)
    ensures |b| == IPV4_SIZE
  {
    Ipv4Line(Ipv4Of(st, k).(checksum := Ipv4Checksum(Ipv4Of(st, k))))
  }

  function PacketAt(st: Stream, k: nat): (b: seq<byte>)
    ensures |b| == LINE_SIZE
  {
    st.eth + Ipv4HeaderOf(st, k) + UdpPacketOf(st, k)
  }

  /** The first `n` packets. */
  function Packets(st: Stream, n: nat): (ps: seq<seq<byte>>)
    ensures |ps| == n
    ensures forall k :: 0 <= k < n ==> ps[k] == PacketAt(st, k)
  {
    seq(n, k requires 0 <= k < n => PacketAt(st, k))
  }

  lemma PacketsGrow(st: Stream, n: nat)
    ensures Packets(st, n + 1) == Packets(st, n) + [PacketAt(st, n)]
  {
    hide PacketAt;
  }

  // ----- the leg -----

  class CallLeg {
    const stream: Stream
    var rtpHeader: Rtp
    const udpHeader: UdpHeader
    const ipv4Header: Ipv4Header
    const pseudo: Pseudo
    const lineData: array<byte>
    var accumulatedStepTime: uint32

    /** What the consumer was given. */
    var sent: seq<seq<byte>>
    /** The time of all steps so far. */
    ghost var elapsed: nat

    ghost const Repr: set<object> := {this, udpHeader, ipv4Header, lineData}

    /** All counters stand for packet `n`. */
    ghost predicate AtPacket(n: nat)
      reads Repr
    {
      && rtpHeader == RtpOf(stream, n) && pseudo == PseudoOf(stream)
      && udpHeader.Value().(checksum := 0) == UdpOf(stream)
      && ipv4Header.Value().(checksum := 0) == Ipv4Of(stream, n)
      && lineData.Length == 65536
      && sent == Packets(stream, n)
    }

    /** One packet for every full 20 ms, and the rest of the time accumulated. */
    ghost predicate Valid()
      reads Repr
    {
      AtPacket(elapsed / PACKET_DURATION) && accumulatedStepTime == elapsed % PACKET_DURATION
    }

    constructor (st: Stream)
      ensures Valid() && fresh(Repr) && stream == st && elapsed == 0
    {
      stream := st;
      accumulatedStepTime := 0;
      rtpHeader := Rtp(0, 0, 0, 2, st.payloadType, 0, st.seqNum, st.timestamp, st.ssrc);
      var totLen := PACKET_SIZE + RTP_SIZE + UDP_SIZE;
      udpHeader := new UdpHeader(Udp(st.srcPort, st.dstPort, totLen, 0));
      var ip := Ipv4(5, 4, 0xb8, totLen + IPV4_SIZE, st.id, 0, 128, 17, 0, st.srcAddr, st.dstAddr);
      ipv4Header := new Ipv4Header(ip);
      pseudo := Pseudo(ip.srcAddr, ip.dstAddr, 0, ip.protocol, totLen);
      lineData := new byte[65536];
      sent := [];
      elapsed := 0;
      new;
      hide RtpOf, Ipv4Of, Packets;
      FirstPacket(st);
    }

    /** The samples, the RTP header before them, and the UDP header before that. */
    method FillUdpPacket(ghost n: nat)
      requires AtPacket(n)
      modifies lineData, udpHeader`checksum
      ensures AtPacket(n) && lineData[34..LINE_SIZE] == UdpPacketOf(stream, n)
    {
      hide RtpLine, UdpLine, PseudoLine, UdpChecksum, Packets, RtpOf, PseudoOf, Ipv4Of;
      var encoded: seq<byte> := stream.encoded(|sent|);
      Copy(lineData, 54, encoded, 0, PACKET_SIZE);
      ghost var line1 := lineData[..];
      assert line1[54..LINE_SIZE] == encoded[0..PACKET_SIZE] == encoded;
      var rtp := RtpLine(rtpHeader);
      Copy(lineData, 42, rtp, 0, RTP_SIZE);
      assert rtp[0..RTP_SIZE] == rtp;
      ghost var line2 := lineData[..];
      Spliced(line1, 42, rtp, 54, LINE_SIZE);
      var data := lineData[42..];
      assert data == line2[42..];
      DataParts(line2);
      assert data[..172] == rtp + encoded == DataOf(stream, n);
      udpHeader.UpdateChecksumWriteToBuffer(lineData, 34, data, pseudo);
      ghost var line3 := lineData[..];
      UdpChecksumField(old(udpHeader.Value()), data[..172], pseudo);
      Spliced(line2, 34, UdpLine(udpHeader.Value()), 42, LINE_SIZE);
      assert line2[42..LINE_SIZE] == data[..172];
      TwoParts(line3);
      assert lineData[34..LINE_SIZE] == line3[34..LINE_SIZE];
    }

    /** Fills the line buffer from its end to its start. */
    method FillLine(ghost n: nat)
      requires AtPacket(n)
      modifies lineData, udpHeader`checksum, ipv4Header`checksum
      ensures AtPacket(n) && lineData[..LINE_SIZE] == PacketAt(stream, n)
    {
      hide PacketAt, UdpPacketOf, Ipv4Line, Ipv4Checksum, Packets, RtpOf, UdpOf, PseudoOf, Ipv4Of;
      FillUdpPacket(n);
      ghost var line3 := lineData[..];
      assert line3[34..LINE_SIZE] == UdpPacketOf(stream, n);
      ipv4Header.UpdateChecksumWriteToBuffer(lineData, ETH_SIZE);
      ghost var line4 := lineData[..];
      Ipv4ChecksumField(old(ipv4Header.Value()));
      Spliced(line3, ETH_SIZE, Ipv4Line(ipv4Header.Value()), 34, LINE_SIZE);
      Copy(lineData, 0, stream.eth, 0, ETH_SIZE);
      assert stream.eth[0..ETH_SIZE] == stream.eth;
      ghost var line5 := lineData[..];
      Spliced(line4, 0, stream.eth, ETH_SIZE, 34);
      Spliced(line4, 0, stream.eth, 34, LINE_SIZE);
      PacketLayout(stream, n);
      ThreeParts(line5);
      assert lineData[..LINE_SIZE] == line5[..LINE_SIZE];
    }

    /** Puts one packet on the line, and advances the counters. */
    method SendPacket(ghost n: nat)
      requires AtPacket(n)
      modifies Repr
      ensures AtPacket(n + 1)
      ensures elapsed == old(elapsed) && accumulatedStepTime == old(accumulatedStepTime)
    {
      hide PacketAt, Packets;
      FillLine(n);
      sent := sent + [lineData[..LINE_SIZE]];
      PacketsGrow(stream, n);
      Increments(stream, n);
      rtpHeader := rtpHeader.(seqNum := (rtpHeader.seqNum + 1) % 0x1_0000,
                              timestamp := (rtpHeader.timestamp + PACKET_SIZE) % 0x1_0000_0000);
      ipv4Header.id := (ipv4Header.id + 1) % 0x1_0000;
    }

    method Step(stepDuration: uint16)
      requires Valid()
      modifies Repr
      ensures Valid() && elapsed == old(elapsed) + stepDuration
    {
      hide RtpOf, UdpOf, PseudoOf, Ipv4Of, Packets;
      accumulatedStepTime := accumulatedStepTime + stepDuration;
      elapsed := elapsed + stepDuration;
      ghost var n: nat := old(elapsed) / PACKET_DURATION;
      assert old(elapsed) == PACKET_DURATION * n + old(accumulatedStepTime);
      while accumulatedStepTime >= PACKET_DURATION
        invariant AtPacket(n) && elapsed == old(elapsed) + stepDuration
        invariant elapsed == PACKET_DURATION * n + accumulatedStepTime
      {
        SendPacket(n);
        accumulatedStepTime := accumulatedStepTime - PACKET_DURATION;
        n := n + 1;
      }
      assert elapsed / PACKET_DURATION == n;
    }
  }

  function Sum(durations: seq<uint16>): nat {
    if |durations| == 0 then 0 else Sum(durations[..|durations| - 1]) + durations[|durations| - 1]
  }

  /** However the time is cut into steps, the leg sends one packet for every 20 ms of it. */
  method RunSteps(st: Stream, durations: seq<uint16>) returns (sent: seq<seq<byte>>)
    ensures sent == Packets(st, Sum(durations) / 20)
  {
    hide Packets;
    var leg := new CallLeg(st);
    for i := 0 to |durations|
      invariant leg.Valid() && fresh(leg.Repr) && leg.stream == st
      invariant leg.elapsed == Sum(durations[..i])
    {
      assert durations[..i + 1][..i] == durations[..i];
      leg.Step(durations[i]);
    }
    assert durations[..|durations|] == durations;
    return leg.sent;
  }

  /** Where bytes are put, they stand; elsewhere nothing changes. */
  lemma Spliced(s: seq<byte>, at: nat, b: seq<byte>, i: nat, j: nat)
    requires at + |b| <= |s| && i <= j <= |s| && (j <= at || at + |b| <= i)
    ensures var after := s[..at] + b + s[at + |b|..];
      |after| == |s| && after[at..at + |b|] == b && after[i..j] == s[i..j]
  {
  }

  lemma ThreeParts(s: seq<byte>)
    requires |s| >= LINE_SIZE
    ensures s[..LINE_SIZE] == s[0..ETH_SIZE] + (s[ETH_SIZE..34] + s[34..LINE_SIZE])
  {
  }

  lemma DataParts(s: seq<byte>)
    requires |s| >= LINE_SIZE
    ensures s[42..][..172] == s[42..54] + s[54..LINE_SIZE]
  {
  }

  lemma TwoParts(s: seq<byte>)
    requires |s| >= LINE_SIZE
    ensures s[34..LINE_SIZE] == s[34..42] + s[42..LINE_SIZE]
  {
  }

  /** The checksum that a header had before plays no part. */
  lemma UdpChecksumField(h: Udp, data: seq<byte>, p: Pseudo)
    ensures UdpChecksum(h, data, p) == UdpChecksum(h.(checksum := 0), data, p)
  {
    hide ShortSum, Short, UdpLine, PseudoLine;
  }

  lemma Ipv4ChecksumField(h: Ipv4)
    ensures Ipv4Checksum(h) == Ipv4Checksum(h.(checksum := 0))
  {
    hide ShortSum, Ipv4Line;
  }

  lemma PacketLayout(st: Stream, k: nat)
    ensures PacketAt(st, k) == st.eth + (Ipv4HeaderOf(st, k) + UdpPacketOf(st, k))
  {
    hide Ipv4HeaderOf, UdpPacketOf;
  }

  lemma FirstPacket(st: Stream)
    ensures RtpOf(st, 0) == Rtp(0, 0, 0, 2, st.payloadType, 0, st.seqNum, st.timestamp, st.ssrc)
    ensures Ipv4Of(st, 0) == Ipv4(5, 4, 0xb8, 200, st.id, 0, 128, 17, 0, st.srcAddr, st.dstAddr)
    ensures Packets(st, 0) == []
  {
  }

  lemma Increments(st: Stream, n: nat)
    ensures RtpOf(st, n + 1).seqNum == (RtpOf(st, n).seqNum + 1) % 0x1_0000
    ensures RtpOf(st, n + 1).timestamp == (RtpOf(st, n).timestamp + PACKET_SIZE) % 0x1_0000_0000
    ensures Ipv4Of(st, n + 1).id == (Ipv4Of(st, n).id + 1) % 0x1_0000
  {
    ModOfSum16(st.seqNum + n, 1);
    ModOfSum(st.timestamp + PACKET_SIZE * n, PACKET_SIZE);
    ModOfSum16(st.id + n, 1);
  }

  lemma ModOfSum16(x: nat, y: nat)
    ensures (x % 0x1_0000 + y) % 0x1_0000 == (x + y) % 0x1_0000
  {
  }

  // ----- what a receiver sees -----

  /** The IPv4 header in a packet. */
  function HeaderSeen(b: seq<byte>): Ipv4
    requires |b| == LINE_SIZE
  {
    Ipv4Read(b[14..34])
  }

  /** The pseudo header as a receiver makes it from the IPv4 header in the packet. */
  function PseudoSeen(b: seq<byte>): Pseudo
    requires |b| == LINE_SIZE
  {
    var h := HeaderSeen(b);
    Pseudo(h.srcAddr, h.dstAddr, 0, h.protocol, (h.totLen - 4 * h.hdrLen) % 0x1_0000)
  }

  /** The parts of packet `k`. */
  lemma PacketParts(st: Stream, k: nat)
    ensures var b := PacketAt(st, k);
      && b[..14] == st.eth && b[14..34] == Ipv4HeaderOf(st, k) && b[34..] == UdpPacketOf(st, k)
      && b[42..54] == RtpLine(RtpOf(st, k)) && b[42..] == DataOf(st, k) && b[54..] == st.encoded(k)
  {
    hide RtpLine, UdpLine, Ipv4Line, UdpChecksum, Ipv4Checksum;
  }

  /** The IPv4 header says what the packet is: version, lengths, protocol and addresses. */
  lemma PacketHeader(st: Stream, k: nat)
    ensures var h := HeaderSeen(PacketAt(st, k));
      && h.version == 4 && 4 * h.hdrLen == 20 && h.totLen == |PacketAt(st, k)| - 14
      && h.serviceType == 0xb8 && h.fragment == 0 && h.ttl == 128 && h.protocol == 17
      && h.srcAddr == st.srcAddr && h.dstAddr == st.dstAddr && h.id == (st.id + k) % 0x1_0000
  {
    hide Ipv4Line, Ipv4Checksum, Ipv4Read, PacketAt;
    PacketParts(st, k);
    Ipv4ReadBack(Ipv4Of(st, k).(checksum := Ipv4Checksum(Ipv4Of(st, k))));
  }

  /** The UDP header holds the ports and the length of all that follows the IPv4 header. */
  lemma PacketPorts(st: Stream, k: nat)
    ensures var b := PacketAt(st, k);
      && WordAt(b, 34) == st.srcPort && WordAt(b, 36) == st.dstPort && WordAt(b, 38) == |b| - 34
  {
    hide UdpLine, UdpChecksum, PacketAt, DataOf;
    var b := PacketAt(st, k);
    PacketParts(st, k);
    UdpWords(UdpOf(st).(checksum := UdpChecksum(UdpOf(st), DataOf(st, k), PseudoOf(st))));
    var line := UdpLine(UdpOf(st).(checksum := UdpChecksum(UdpOf(st), DataOf(st, k), PseudoOf(st))));
    assert b[34..] == line + DataOf(st, k);
    assert forall i :: 0 <= i < 8 ==> b[34..][i] == line[i];
    assert forall i :: 0 <= i < 8 ==> b[34 + i] == b[34..][i];
  }

  /** Packet `k` carries the k-th values of the three counters, and the k-th payload. */
  lemma PacketCarriesCounters(st: Stream, k: nat)
    ensures var b := PacketAt(st, k); var rtp := RtpRead(b[42..54]);
      && rtp.version == 2 && rtp.cc == rtp.x == rtp.p == rtp.m == 0
      && rtp.payload == st.payloadType && rtp.ssrc == st.ssrc
      && rtp.seqNum == (st.seqNum + k) % 0x1_0000 && rtp.timestamp == (st.timestamp + 160 * k) % 0x1_0000_0000
      && HeaderSeen(b).id == (st.id + k) % 0x1_0000
      && b[54..] == st.encoded(k)
  {
    hide RtpLine, RtpRead, HeaderSeen, PacketAt;
    PacketParts(st, k);
    PacketHeader(st, k);
    RtpReadBack(RtpOf(st, k));
  }

  /** A receiver makes the pseudo header that the sender used. */
  lemma PseudoAsSeen(st: Stream, k: nat)
    ensures PseudoSeen(PacketAt(st, k)) == PseudoOf(st)
  {
    hide HeaderSeen, PacketAt;
    PacketHeader(st, k);
  }

  /** The sum of the words of the IPv4 header, with a zero checksum. */
  function HeaderSum(st: Stream, k: nat): nat {
    0x45b8 + 200 + (st.id + k) % 0x1_0000 + 0x8011
    + st.srcAddr / 0x1_0000 + st.srcAddr % 0x1_0000 + st.dstAddr / 0x1_0000 + st.dstAddr % 0x1_0000
  }

  lemma Ipv4Sum(st: Stream, k: nat)
    ensures WordSum(Ipv4Line(Ipv4Of(st, k))) == HeaderSum(st, k)
  {
    hide WordSum, Ipv4Line;
    Ipv4LineSum(Ipv4Of(st, k));
  }

  /** The verdicts of a receiver on packet `k`, which has nothing but the packet. */
  predicate Ipv4Verdict(b: seq<byte>)
    requires |b| == LINE_SIZE
  {
    ShortSum(b[14..34]) == 0xffff
  }

  predicate UdpVerdict(b: seq<byte>)
    requires |b| == LINE_SIZE
  {
    UdpAccepts(b[34..], PseudoSeen(b))
  }

  /** When the two checks accept packet `k`, by the numbers in its headers. */
  lemma PacketAccepted(st: Stream, k: nat)
    ensures Ipv4Verdict(PacketAt(st, k)) <==> !CarriesAgain(HeaderSum(st, k))
    ensures UdpVerdict(PacketAt(st, k)) <==>
      UdpConsistent(ShortSum(PseudoLine(PseudoOf(st))), st.srcPort as int + st.dstPort + 180, WordSum(DataOf(st, k)))
  {
    hide UdpLine, Ipv4Line, UdpChecksum, Ipv4Checksum, ShortSum, WordSum, UdpConsistent, CarriesAgain;
    hide PseudoLine, UdpAccepts, PacketAt, PseudoSeen, DataOf, HeaderSum;
    PacketParts(st, k);
    PseudoAsSeen(st, k);
    Ipv4Sum(st, k);
    assert Ipv4Of(st, k).(checksum := 0) == Ipv4Of(st, k) && UdpOf(st).(checksum := 0) == UdpOf(st);
    Ipv4Accepted(Ipv4Of(st, k));
    UdpLineSum(UdpOf(st));
    UdpAcceptedExactly(UdpOf(st), DataOf(st, k), PseudoOf(st));
  }

  /** A mirror call between 192.168.0.1 and 192.168.0.2 sends a packet that the IPv4 check rejects. */
  lemma MirrorPacketRejected(st: Stream)
    requires st.id == 1 && st.srcAddr == 0xc0a8_0001 && st.dstAddr == 0xc0a8_0002
    ensures !Ipv4Verdict(PacketAt(st, 47129))
  {
    hide HeaderSum, PacketAt, Ipv4Verdict;
    RejectedHeaderSum(st);
    RejectedBySum(st, 47129);
  }

  lemma RejectedBySum(st: Stream, k: nat)
    requires HeaderSum(st, k) == 0x2_fffe
    ensures !Ipv4Verdict(PacketAt(st, k))
  {
    hide HeaderSum, PacketAt, Ipv4Verdict, UdpVerdict, UdpConsistent;
    PacketAccepted(st, k);
  }

  lemma RejectedHeaderSum(st: Stream)
    requires st.id == 1 && st.srcAddr == 0xc0a8_0001 && st.dstAddr == 0xc0a8_0002
    ensures HeaderSum(st, 47129) == 0x2_fffe
  {
  }
}

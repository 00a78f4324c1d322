/** The minimal TCP endpoint of tcp.c: one connection, kept in tcpServerState,
    that either answers a peer's handshake (LISTEN) or opens the connection to
    the MQTT broker itself (SYN_SENT), acknowledges what arrives once
    ESTABLISHED, and flags segments that carry MQTT data. Replies are written
    over the received frame in place; new segments are built in a fresh,
    uninitialised frame buffer. Sequence and acknowledgement numbers are uint32
    values, kept here as naturals below 2^32 with the wrap-around written out. */
module Tcp {
  import opened Bytes
  import opened Platform
  import opened Frames
  import opened MqttPackets

  // TCP flags (tcp.h:6-13)
  const Fin: bv8 := 0x01
  const Syn: bv8 := 0x02
  const Rst: bv8 := 0x04
  const Push: bv8 := 0x08
  const Ack: bv8 := 0x10
  const Urg: bv8 := 0x20
  const Ece: bv8 := 0x40
  const Cwr: bv8 := 0x80

  // TCP states (tcp.h:16-23); only LISTEN, SYN_SENT and ESTABLISHED are ever entered
  const Listen: bv8 := 0
  const SynReceived: bv8 := 1
  const Established: bv8 := 2
  const FinWait1: bv8 := 3
  const FinWait2: bv8 := 4
  const Closing: bv8 := 5
  const TimeWait: bv8 := 6
  const SynSent: bv8 := 7

  const HttpPort: bv16 := 80
  const TelnetPort: bv16 := 23
  /** The window every segment advertises: one maximum segment (tcp.c:189). */
  const Window: nat := 1280
  /** The port the state is reset to (tcp.c:18). */
  const MqttServerPort: nat := 1883
  const InitialPort: nat := 5771
  const Mod32: nat := 0x1_0000_0000
  const Mod16: nat := 0x1_0000

  /** tcpServerState (tcp.h:40-47). */
  datatype Conn = Conn(state: bv8, runningSeqn: nat, myPort: nat, serverPort: nat, ackToSend: nat)

  /** The values the fields can hold: uint32 and uint16 ranges, and one of the
      three states the code moves between. */
  predicate ValidConn(c: Conn)
  {
    (c.state == Listen || c.state == SynSent || c.state == Established)
    && c.runningSeqn < Mod32 && c.myPort < Mod16 && c.serverPort < Mod16 && c.ackToSend < Mod32
  }

  /** resetTcpStateTimer (tcp.c:14-21): `rnd` is what random32() returns, cut
      to 16 bits by the assignment to myPort. */
  function Reset(rnd: nat): (c: Conn)
    ensures ValidConn(c) && c.state == Listen && c.myPort == rnd % Mod16
  {
    Conn(Listen, 0, rnd % Mod16, MqttServerPort, 0)
  }

  // ---------------------------------------------------------------------
  // Classification of received frames
  // ---------------------------------------------------------------------

  /** etherIsTcp (tcp.c:23-39). The condition is written
      `(tcp && (http || telnet)) || from 1883`, so the last test does not
      look at the protocol at all. */
  predicate EtherIsTcp(s: seq<bv8>)
    requires IsFrame(s)
  {
    (Protocol(s) == ProtocolTcp && (DestPort(s) == HttpPort || DestPort(s) == TelnetPort))
    || SourcePort(s) == BrokerPort
  }

  /** Every frame the MQTT client takes for its own also reaches the TCP handler. */
  lemma MqttFramesAreTcp(s: seq<bv8>)
    requires IsFrame(s) && EtherIsMqtt(s)
    ensures EtherIsTcp(s)
  {
  }

  /** Because of the precedence, a UDP datagram from port 1883 is accepted too. */
  lemma UdpFromBrokerPortAccepted(s: seq<bv8>)
    requires IsFrame(s) && Protocol(s) == ProtocolUdp && SourcePort(s) == BrokerPort
    ensures EtherIsTcp(s) && !EtherIsMqtt(s)
  {
  }

  /** A TCP segment for the web or telnet port is accepted, whatever its source. */
  lemma ServicePortsAccepted(s: seq<bv8>)
    requires IsFrame(s) && Protocol(s) == ProtocolTcp && (DestPort(s) == HttpPort || DestPort(s) == TelnetPort)
    ensures EtherIsTcp(s)
  {
  }

  /** A segment that is neither for the web or telnet port nor from the broker
      port is ignored. */
  lemma OtherPortsIgnored(s: seq<bv8>)
    requires IsFrame(s) && DestPort(s) != HttpPort && DestPort(s) != TelnetPort && SourcePort(s) != BrokerPort
    ensures !EtherIsTcp(s)
  {
  }

  // ---------------------------------------------------------------------
  // Fields of the received segment
  // ---------------------------------------------------------------------

  /** tcp->flags. */
  function Flags(s: seq<bv8>): bv8
    requires WellFormed(s)
  {
    s[Transport(s) + 13]
  }

  predicate HasFlag(s: seq<bv8>, f: bv8)
    requires WellFormed(s)
  {
    Flags(s) & f != 0
  }

  /** ntohl(tcp->sequenceNumber). */
  function SequenceNumber(s: seq<bv8>): (n: nat)
    requires WellFormed(s)
    ensures n < Mod32
  {
    var t := Transport(s);
    Num32(s[t + 4..t + 8])
  }

  /** tcp->off: the high nibble of byte 12 of the TCP header, the first
      bit-field (reservedNS) taking the low nibble. */
  function DataOffset(s: seq<bv8>): (n: nat)
    requires WellFormed(s)
    ensures n < 16
  {
    (s[Transport(s) + 12] >> 4) as nat
  }

  /** receivedPayloadSize (tcp.c:126-127): the IP length less 20 and less the
      TCP header, in uint32 arithmetic, so that an inconsistent header wraps. */
  function PayloadSize(s: seq<bv8>): (n: nat)
    requires WellFormed(s)
    ensures n < Mod32
  {
    (Num16(s[IpLength..IpLength + 2]) - 20 - 4 * DataOffset(s)) % Mod32
  }

  /** The acknowledgement to send after `s` (tcp.c:147-158): the received
      sequence number advanced by the payload for PUSH, by one for SYN or FIN,
      and the old value when none of these is set. */
  function InboundAck(s: seq<bv8>, ackToSend: nat): (a: nat)
    requires WellFormed(s)
    ensures ackToSend < Mod32 ==> a < Mod32
  {
    if HasFlag(s, Push) then (SequenceNumber(s) + PayloadSize(s)) % Mod32
    else if HasFlag(s, Syn) || HasFlag(s, Fin) then (SequenceNumber(s) + 1) % Mod32
    else ackToSend
  }

  /** The sequence number a segment with `flags` and `n` data bytes carries,
      and the running sequence number after it (tcp.c:160-176 and 245-261). */
  function OutboundSeq(flags: bv8, n: nat, running: nat): (r: (nat, nat))
    ensures r.0 == running && (running < Mod32 ==> r.1 < Mod32)
  {
    if flags & Push != 0 then (running, (running + n) % Mod32)
    else if flags & Syn != 0 || flags & Fin != 0 then (running, (running + 1) % Mod32)
    else (running, running)
  }

  /** SEG.LEN of section 3.3 of RFC 793: the data, plus one for each of SYN and FIN. */
  function SegLen(flags: bv8, n: nat): nat
  {
    n + (if flags & Syn != 0 then 1 else 0) + (if flags & Fin != 0 then 1 else 0)
  }

  /** A segment the code can describe: with PUSH it carries data but neither
      SYN nor FIN; without PUSH it carries no data and not both SYN and FIN. */
  predicate Plain(flags: bv8, n: nat)
  {
    if flags & Push != 0 then flags & (Syn | Fin) == 0 else n == 0 && (flags & Syn == 0 || flags & Fin == 0)
  }

  /** For such segments the running sequence number advances by SEG.LEN, as
      RFC 793 requires, and the segment itself carries the old value. */
  lemma OutboundSeqAdvancesBySegLen(flags: bv8, n: nat, running: nat)
    requires Plain(flags, n) && running < Mod32
    ensures OutboundSeq(flags, n, running) == (running, (running + SegLen(flags, n)) % Mod32)
  {
    if flags & Push != 0 {
      assert flags & Syn == 0 && flags & Fin == 0 by {
        assert flags & (Syn | Fin) == 0;
      }
    }
  }

  /** For such segments with PUSH, SYN or FIN the acknowledgement sent covers
      exactly the received segment: SEG.SEQ + SEG.LEN (section 3.3 of RFC 793). */
  lemma InboundAckCoversSegment(s: seq<bv8>, ackToSend: nat)
    requires WellFormed(s) && Plain(Flags(s), PayloadSize(s)) && (HasFlag(s, Push) || HasFlag(s, Syn) || HasFlag(s, Fin))
    ensures InboundAck(s, ackToSend) == (SequenceNumber(s) + SegLen(Flags(s), PayloadSize(s))) % Mod32
  {
    var f := Flags(s);
    if f & Push != 0 {
      assert f & Syn == 0 && f & Fin == 0 by {
        assert f & (Syn | Fin) == 0;
      }
    }
  }

  /** With PUSH together with FIN only the data is acknowledged, not the FIN. */
  lemma PushFinLeavesFinUnacknowledged(s: seq<bv8>, ackToSend: nat)
    requires WellFormed(s) && HasFlag(s, Push) && HasFlag(s, Fin)
    ensures InboundAck(s, ackToSend) == (SequenceNumber(s) + PayloadSize(s)) % Mod32
    ensures SegLen(Flags(s), PayloadSize(s)) == PayloadSize(s) + 1 + (if HasFlag(s, Syn) then 1 else 0)
  {
  }

  // ---------------------------------------------------------------------
  // Segments on the wire
  // ---------------------------------------------------------------------

  /** Bytes 4-19 of a TCP header: sequence and acknowledgement numbers, data
      offset 5 with reservedNS 0, the flags, the window, and a zero checksum and
      urgent field. */
  function HeaderTail(seqn: nat, ack: nat, flags: bv8): (r: seq<bv8>)
    ensures |r| == 16
  {
    BE32N(seqn) + BE32N(ack) + [0x50, flags] + BE16N(Window) + [0, 0, 0, 0]
  }

  /** What the TCP checksum sums: the pseudo-header (source and destination
      addresses, the protocol word 0, protocol and the TCP length), then the
      header with its checksum field as zero, then the data (tcp.c:210-221). */
  function SegmentSpan(f: seq<bv8>, n: nat): seq<bv8>
    requires |f| > IpRevSize && Ihl(f) >= 5 && Transport(f) + 20 + n <= |f|
  {
    var t := Transport(f);
    f[IpSource..IpSource + 8] + [0, f[IpProtocol]] + BE16N(20 + n)
      + f[t..t + 16] + [0, 0] + f[t + 18..t + 20 + n]
  }

  /** A finished frame of `|data|` data bytes as both send paths hand it to
      the driver: the IP length covers exactly the frame after the Ethernet
      header, both checksum fields hold the checksum of what a receiver sums,
      and the data follows the 20-byte TCP header. */
  predicate Framed(f: seq<bv8>, data: seq<bv8>, cks: seq<bv8> -> bv16)
  {
    |f| > IpRevSize && Ihl(f) >= 5 && |f| == Transport(f) + 20 + |data|
    && var t := Transport(f);
    Num16(f[IpLength..IpLength + 2]) == |f| - IpStart
    && f[IpChecksum..IpChecksum + 2] == ChecksumField(cks, IpHeaderSpan(f))
    && f[t + 16..t + 18] == ChecksumField(cks, SegmentSpan(f, |data|))
    && f[t + 20..] == data
  }

  /** The TCP header carries `seqn` and `ack` as 32-bit big-endian numbers,
      data offset 5, `flags`, the fixed window and a zero urgent field. */
  predicate Says(f: seq<bv8>, seqn: nat, ack: nat, flags: bv8)
    requires |f| > IpRevSize && Transport(f) + 20 <= |f|
  {
    var t := Transport(f);
    f[t + 4..t + 8] == BE32N(seqn) && f[t + 8..t + 12] == BE32N(ack)
    && f[t + 12] == 0x50 && f[t + 13] == flags && f[t + 14..t + 16] == BE16N(Window)
    && f[t + 18..t + 20] == [0, 0]
  }

  /** A TCP segment as it goes on the wire. */
  predicate Segment(f: seq<bv8>, seqn: nat, ack: nat, flags: bv8, data: seq<bv8>, cks: seq<bv8> -> bv16)
  {
    Framed(f, data, cks) && Says(f, seqn, ack, flags)
  }

  /** The last steps both send paths share, once every header field is in
      place: the IP checksum, the data after the 20-byte TCP header, then the
      TCP checksum (tcp.c:196-222 and 303-329). */
  function Finish(b: seq<bv8>, data: seq<bv8>, cks: seq<bv8> -> bv16): (r: seq<bv8>)
    requires |b| > IpRevSize && Ihl(b) >= 5 && Transport(b) + 20 + |data| <= |b|
    ensures |r| == |b| && r[IpRevSize] == b[IpRevSize]
  {
    var t := Transport(b);
    var x1 := ChecksumField(cks, IpHeaderSpan(b));
    var b1 := Put(b, IpChecksum, x1);
    var b2 := Put(b1, t + 20, data);
    var x3 := ChecksumField(cks, SegmentSpan(b2, |data|));
    Put(b2, t + 16, x3)
  }

  /** Finish leaves everything but the two checksum fields and the data as it was. */
  lemma FinishKeeps(b: seq<bv8>, data: seq<bv8>, cks: seq<bv8> -> bv16, i: nat, j: nat)
    requires |b| > IpRevSize && Ihl(b) >= 5 && Transport(b) + 20 + |data| <= |b| && i <= j <= |b|
    requires j <= IpChecksum || IpChecksum + 2 <= i
    requires j <= Transport(b) + 16 || Transport(b) + 18 <= i
    requires j <= Transport(b) + 20 || Transport(b) + 20 + |data| <= i
    ensures Finish(b, data, cks)[i..j] == b[i..j]
  {
    var t := Transport(b);
    var x1 := ChecksumField(cks, IpHeaderSpan(b));
    var b1 := Put(b, IpChecksum, x1);
    PutAt(b, IpChecksum, x1, IpRevSize);
    var b2 := Put(b1, t + 20, data);
    PutAt(b1, t + 20, data, IpRevSize);
    var x3 := ChecksumField(cks, SegmentSpan(b2, |data|));
    PutOut(b, IpChecksum, x1, i, j);
    PutOut(b1, t + 20, data, i, j);
    PutOut(b2, t + 16, x3, i, j);
  }

  /** The IP checksum field holds the checksum of the finished IP header. */
  lemma FinishIpChecksum(b: seq<bv8>, data: seq<bv8>, cks: seq<bv8> -> bv16)
    requires |b| > IpRevSize && Ihl(b) >= 5 && Transport(b) + 20 + |data| <= |b|
    ensures var r := Finish(b, data, cks);
            r[IpChecksum..IpChecksum + 2] == ChecksumField(cks, IpHeaderSpan(r))
  {
    var t := Transport(b);
    var x1 := ChecksumField(cks, IpHeaderSpan(b));
    var b1 := Put(b, IpChecksum, x1);
    PutAt(b, IpChecksum, x1, IpRevSize);
    var b2 := Put(b1, t + 20, data);
    PutAt(b1, t + 20, data, IpRevSize);
    var x3 := ChecksumField(cks, SegmentSpan(b2, |data|));
    PutPart(b, IpChecksum, x1, IpChecksum, IpChecksum + 2);
    PutOut(b1, t + 20, data, IpChecksum, IpChecksum + 2);
    PutOut(b2, t + 16, x3, IpChecksum, IpChecksum + 2);
    FinishKeeps(b, data, cks, IpRevSize, IpChecksum);
    FinishKeeps(b, data, cks, IpSource, t);
  }

  /** The TCP checksum field holds the checksum of the finished segment. */
  lemma FinishTcpChecksum(b: seq<bv8>, data: seq<bv8>, cks: seq<bv8> -> bv16)
    requires |b| > IpRevSize && Ihl(b) >= 5 && Transport(b) + 20 + |data| <= |b|
    ensures var t := Transport(b);
            var r := Finish(b, data, cks);
            r[t + 16..t + 18] == ChecksumField(cks, SegmentSpan(r, |data|))
  {
    var t := Transport(b);
    var n := |data|;
    var x1 := ChecksumField(cks, IpHeaderSpan(b));
    var b1 := Put(b, IpChecksum, x1);
    PutAt(b, IpChecksum, x1, IpRevSize);
    var b2 := Put(b1, t + 20, data);
    PutAt(b1, t + 20, data, IpRevSize);
    var x3 := ChecksumField(cks, SegmentSpan(b2, n));
    PutPart(b2, t + 16, x3, t + 16, t + 18);
    ChecksumWriteKeepsSegmentSpan(b2, n, x3);
  }

  /** Writing the TCP checksum field leaves what the checksum sums unchanged. */
  lemma ChecksumWriteKeepsSegmentSpan(b: seq<bv8>, n: nat, x: seq<bv8>)
    requires |b| > IpRevSize && Ihl(b) >= 5 && Transport(b) + 20 + n <= |b| && |x| == 2
    ensures var r := Put(b, Transport(b) + 16, x);
            r[IpRevSize] == b[IpRevSize] && SegmentSpan(r, n) == SegmentSpan(b, n)
  {
    var t := Transport(b);
    PutAt(b, t + 16, x, IpRevSize);
    PutOut(b, t + 16, x, IpSource, IpSource + 8);
    PutAt(b, t + 16, x, IpProtocol);
    PutOut(b, t + 16, x, t, t + 16);
    PutOut(b, t + 16, x, t + 18, t + 20 + n);
    SegmentSpanSame(Put(b, t + 16, x), b, n);
  }

  /** SegmentSpan reads only the addresses, the protocol, and the TCP header and
      data without the checksum field. */
  lemma SegmentSpanSame(f: seq<bv8>, g: seq<bv8>, n: nat)
    requires |f| > IpRevSize && Ihl(f) >= 5 && Transport(f) + 20 + n <= |f|
    requires |g| > IpRevSize && g[IpRevSize] == f[IpRevSize] && Transport(f) + 20 + n <= |g|
    requires var t := Transport(f);
             f[IpSource..IpSource + 8] == g[IpSource..IpSource + 8] && f[IpProtocol] == g[IpProtocol]
             && f[t..t + 16] == g[t..t + 16] && f[t + 18..t + 20 + n] == g[t + 18..t + 20 + n]
    ensures Ihl(g) >= 5 && SegmentSpan(f, n) == SegmentSpan(g, n)
  {
  }

  /** The data follows the TCP header. */
  lemma FinishData(b: seq<bv8>, data: seq<bv8>, cks: seq<bv8> -> bv16)
    requires |b| > IpRevSize && Ihl(b) >= 5 && Transport(b) + 20 + |data| <= |b|
    ensures var t := Transport(b);
            Finish(b, data, cks)[t + 20..t + 20 + |data|] == data
  {
    var t := Transport(b);
    var x1 := ChecksumField(cks, IpHeaderSpan(b));
    var b1 := Put(b, IpChecksum, x1);
    PutAt(b, IpChecksum, x1, IpRevSize);
    var b2 := Put(b1, t + 20, data);
    PutAt(b1, t + 20, data, IpRevSize);
    var x3 := ChecksumField(cks, SegmentSpan(b2, |data|));
    PutPart(b1, t + 20, data, t + 20, t + 20 + |data|);
    PutOut(b2, t + 16, x3, t + 20, t + 20 + |data|);
  }

  /** Bytes 4-15 and 18-19 of the TCP header at `t` are those of the header
      tail `h`; bytes 16-17 are the checksum, written last. */
  predicate HeaderFields(b: seq<bv8>, t: nat, h: seq<bv8>)
    requires t + 20 <= |b| && |h| == 16
  {
    b[t + 4..t + 16] == h[..12] && b[t + 18..t + 20] == h[14..]
  }

  lemma PutHeaderFields(s: seq<bv8>, t: nat, h: seq<bv8>)
    requires t + 20 <= |s| && |h| == 16
    ensures HeaderFields(Put(s, t + 4, h), t, h)
  {
    PutPart(s, t + 4, h, t + 4, t + 16);
    PutPart(s, t + 4, h, t + 18, t + 20);
  }

  lemma HeaderTailParts(seqn: nat, ack: nat, flags: bv8)
    ensures var h := HeaderTail(seqn, ack, flags);
            h[..4] == BE32N(seqn) && h[4..8] == BE32N(ack) && h[8] == 0x50 && h[9] == flags
            && h[10..12] == BE16N(Window) && h[14..] == [0, 0]
  {
  }

  /** The fields HeaderFields puts in place, one by one. */
  lemma HeaderFieldsRead(f: seq<bv8>, t: nat, h: seq<bv8>)
    requires t + 20 <= |f| && |h| == 16 && HeaderFields(f, t, h)
    ensures f[t + 4..t + 8] == h[..4] && f[t + 8..t + 12] == h[4..8] && f[t + 12] == h[8] && f[t + 13] == h[9]
            && f[t + 14..t + 16] == h[10..12] && f[t + 18..t + 20] == h[14..]
  {
    SliceOfSlice(f, t + 4, t + 16, 0, 4);
    SliceOfSlice(f, t + 4, t + 16, 4, 8);
    SliceOfSlice(f, t + 4, t + 16, 10, 12);
    SliceOfSlice(h, 0, 12, 0, 4);
    SliceOfSlice(h, 0, 12, 4, 8);
    SliceOfSlice(h, 0, 12, 10, 12);
    assert f[t + 12] == f[t + 4..t + 16][8] && f[t + 13] == f[t + 4..t + 16][9];
  }

  /** A header holding HeaderTail(seqn, ack, flags) says those numbers. */
  lemma HeaderTailSays(f: seq<bv8>, seqn: nat, ack: nat, flags: bv8)
    requires |f| > IpRevSize && Transport(f) + 20 <= |f|
    requires HeaderFields(f, Transport(f), HeaderTail(seqn, ack, flags))
    ensures Says(f, seqn, ack, flags)
  {
    HeaderFieldsRead(f, Transport(f), HeaderTail(seqn, ack, flags));
    HeaderTailParts(seqn, ack, flags);
  }

  /** Cutting a buffer to length keeps what the checksums sum. */
  lemma PrefixSpans(r: seq<bv8>, n: nat)
    requires |r| > IpRevSize && Ihl(r) >= 5 && Transport(r) + 20 + n <= |r|
    ensures var f := r[..Transport(r) + 20 + n];
            Transport(f) == Transport(r) && IpHeaderSpan(f) == IpHeaderSpan(r) && SegmentSpan(f, n) == SegmentSpan(r, n)
  {
    PrefixIpSpan(r, Transport(r) + 20 + n);
    PrefixSegmentSpan(r, n);
  }

  lemma PrefixSegmentSpan(r: seq<bv8>, n: nat)
    requires |r| > IpRevSize && Ihl(r) >= 5 && Transport(r) + 20 + n <= |r|
    ensures Transport(r[..Transport(r) + 20 + n]) == Transport(r)
    ensures SegmentSpan(r[..Transport(r) + 20 + n], n) == SegmentSpan(r, n)
  {
    assert r[..Transport(r) + 20 + n][IpRevSize] == r[IpRevSize];
    assert r[..Transport(r) + 20 + n][IpProtocol] == r[IpProtocol];
    SliceOfPrefix(r, Transport(r) + 20 + n, IpSource, IpSource + 8);
    SliceOfPrefix(r, Transport(r) + 20 + n, Transport(r), Transport(r) + 16);
    SliceOfPrefix(r, Transport(r) + 20 + n, Transport(r) + 18, Transport(r) + 20 + n);
    SegmentSpanSame(r[..Transport(r) + 20 + n], r, n);
  }

  lemma PrefixIpSpan(r: seq<bv8>, N: nat)
    requires |r| > IpRevSize && Ihl(r) >= 5 && Transport(r) <= N <= |r|
    ensures var f := r[..N];
            Transport(f) == Transport(r) && IpHeaderSpan(f) == IpHeaderSpan(r)
  {
    var f := r[..N];
    assert f[IpRevSize] == r[IpRevSize];
    SliceOfPrefix(r, N, IpRevSize, IpChecksum);
    SliceOfPrefix(r, N, IpSource, Transport(r));
  }

  /** Cutting a buffer to length keeps the length, checksum and header fields. */
  lemma PrefixFields(r: seq<bv8>, n: nat)
    requires |r| > IpRevSize && Ihl(r) >= 5 && Transport(r) + 20 + n <= |r|
    ensures var t := Transport(r);
            var f := r[..t + 20 + n];
            f[IpLength..IpLength + 2] == r[IpLength..IpLength + 2] && f[IpChecksum..IpChecksum + 2] == r[IpChecksum..IpChecksum + 2]
            && f[t + 4..t + 16] == r[t + 4..t + 16] && f[t + 16..t + 18] == r[t + 16..t + 18]
            && f[t + 18..t + 20] == r[t + 18..t + 20] && f[t + 20..] == r[t + 20..t + 20 + n]
  {
    var t := Transport(r);
    var N := t + 20 + n;
    SliceOfPrefix(r, N, IpLength, IpLength + 2);
    SliceOfPrefix(r, N, IpChecksum, IpChecksum + 2);
    SliceOfPrefix(r, N, t + 4, t + 16);
    SliceOfPrefix(r, N, t + 16, t + 18);
    SliceOfPrefix(r, N, t + 18, t + 20);
    SuffixOfPrefix(r, N, t + 20);
  }

  /** A buffer whose IP length and header fields are in place becomes, once
      finished and cut to length, a Framed frame with the same header fields. */
  lemma FinishedFrame(b: seq<bv8>, data: seq<bv8>, h: seq<bv8>, cks: seq<bv8> -> bv16)
    requires |b| > IpRevSize && Ihl(b) >= 5 && Transport(b) + 20 + |data| <= |b| && |h| == 16
    requires Num16(b[IpLength..IpLength + 2]) == 4 * Ihl(b) + 20 + |data|
    requires HeaderFields(b, Transport(b), h)
    ensures var f := Finish(b, data, cks)[..Transport(b) + 20 + |data|];
            Transport(f) == Transport(b) && Framed(f, data, cks) && HeaderFields(f, Transport(b), h)
  {
    var r := Finish(b, data, cks);
    FinishIpChecksum(b, data, cks);
    FinishTcpChecksum(b, data, cks);
    FinishData(b, data, cks);
    FinishKeeps(b, data, cks, IpLength, IpLength + 2);
    FinishKeeps(b, data, cks, Transport(b) + 4, Transport(b) + 16);
    FinishKeeps(b, data, cks, Transport(b) + 18, Transport(b) + 20);
    PrefixSpans(r, |data|);
    PrefixFields(r, |data|);
  }

  /** With the header tail of `seqn`, `ack` and `flags` in place, the finished
      frame is a Segment. */
  lemma FinishedSegment(b: seq<bv8>, data: seq<bv8>, seqn: nat, ack: nat, flags: bv8, cks: seq<bv8> -> bv16)
    requires |b| > IpRevSize && Ihl(b) >= 5 && Transport(b) + 20 + |data| <= |b|
    requires Num16(b[IpLength..IpLength + 2]) == 4 * Ihl(b) + 20 + |data|
    requires HeaderFields(b, Transport(b), HeaderTail(seqn, ack, flags))
    ensures Segment(Finish(b, data, cks)[..Transport(b) + 20 + |data|], seqn, ack, flags, data, cks)
  {
    FinishedFrame(b, data, HeaderTail(seqn, ack, flags), cks);
    HeaderTailSays(Finish(b, data, cks)[..Transport(b) + 20 + |data|], seqn, ack, flags);
  }

  /** The method form of Finish, which the send paths call on their buffer. */
  method WriteChecksumsAndData(a: array<bv8>, data: seq<bv8>, cks: seq<bv8> -> bv16)
    requires a.Length > IpRevSize && Ihl(a[..]) >= 5 && Transport(a[..]) + 20 + |data| <= a.Length
    modifies a
    ensures a[..] == Finish(old(a[..]), data, cks)
  {
    ghost var b := a[..];
    var t := Transport(a[..]);
    var x1 := ChecksumField(cks, IpHeaderSpan(a[..]));
    Write(a, IpChecksum, x1);
    PutAt(b, IpChecksum, x1, IpRevSize);
    ghost var b1 := a[..];
    Write(a, t + 20, data);
    PutAt(b1, t + 20, data, IpRevSize);
    Write(a, t + 16, ChecksumField(cks, SegmentSpan(a[..], |data|)));
  }

  // ---------------------------------------------------------------------
  // The reply path: etherSendTcpResponse (tcp.c:117-226)
  // ---------------------------------------------------------------------

  /** The frame with its Ethernet addresses, IP addresses and TCP ports
      exchanged (tcp.c:130-144). */
  function SwapAddresses(s: seq<bv8>): (r: seq<bv8>)
    requires WellFormed(s)
    ensures WellFormed(r) && r[IpRevSize] == s[IpRevSize]
  {
    var t := Transport(s);
    Swap(Swap(Swap(s, EtherDest, EtherSource, HwAddLength), IpSource, IpDest, IpAddLength), t, t + 2, 2)
  }

  /** The byte of the received frame that SwapAddresses moves to position `m`,
      the TCP header starting at `t`. */
  function AddressPartner(t: nat, m: nat): nat
  {
    if m < EtherSource then m + 6
    else if m < EtherType then m - 6
    else if IpSource <= m < IpDest then m + 4
    else if IpDest <= m < IpDest + 4 then m - 4
    else if t <= m < t + 2 then m + 2
    else if t + 2 <= m < t + 4 then m - 2
    else m
  }

  lemma SwapAddressesAt(s: seq<bv8>, m: nat)
    requires WellFormed(s) && m < |s|
    ensures AddressPartner(Transport(s), m) < |s| && SwapAddresses(s)[m] == s[AddressPartner(Transport(s), m)]
  {
    var t := Transport(s);
    var w1 := Swap(s, EtherDest, EtherSource, HwAddLength);
    var w2 := Swap(w1, IpSource, IpDest, IpAddLength);
    SwapAt(w2, t, t + 2, 2, m);
    var m1 := if t <= m < t + 2 then m + 2 else if t + 2 <= m < t + 4 then m - 2 else m;
    SwapAt(w1, IpSource, IpDest, IpAddLength, m1);
    var m2 := if IpSource <= m1 < IpDest then m1 + 4 else if IpDest <= m1 < IpDest + 4 then m1 - 4 else m1;
    SwapAt(s, EtherDest, EtherSource, HwAddLength, m2);
  }

  /** Exchanging the addresses twice gives the frame back. */
  lemma SwapAddressesTwice(s: seq<bv8>)
    requires WellFormed(s)
    ensures SwapAddresses(SwapAddresses(s)) == s
  {
    var t := Transport(s);
    var w := SwapAddresses(s);
    forall m | 0 <= m < |s| ensures SwapAddresses(w)[m] == s[m] {
      SwapAddressesAt(w, m);
      SwapAddressesAt(s, AddressPartner(t, m));
    }
  }

  /** The reply frame `f` goes back where `s` came from: the Ethernet
      addresses exchanged, and the frame type, IP version and header length,
      TOS, identification, fragment field, TTL and protocol kept. */
  predicate AnswersEther(f: seq<bv8>, s: seq<bv8>)
    requires |f| >= IpSource && |s| >= IpSource
  {
    f[EtherDest..EtherDest + 6] == s[EtherSource..EtherSource + 6] && f[EtherSource..EtherSource + 6] == s[EtherDest..EtherDest + 6]
    && f[EtherType..IpLength] == s[EtherType..IpLength] && f[IpId..IpChecksum] == s[IpId..IpChecksum]
  }

  /** The IP addresses exchanged and the IP options up to `t` kept. */
  predicate AnswersIp(f: seq<bv8>, s: seq<bv8>, t: nat)
    requires IpDest + 4 <= t <= |f| && t <= |s|
  {
    f[IpSource..IpSource + 4] == s[IpDest..IpDest + 4] && f[IpDest..IpDest + 4] == s[IpSource..IpSource + 4]
    && f[IpDest + 4..t] == s[IpDest + 4..t]
  }

  /** The TCP ports at `t` exchanged. */
  predicate AnswersPorts(f: seq<bv8>, s: seq<bv8>, t: nat)
    requires t + 4 <= |f| && t + 4 <= |s|
  {
    f[t..t + 2] == s[t + 2..t + 4] && f[t + 2..t + 4] == s[t..t + 2]
  }

  /** `f` answers the received frame `s`. */
  predicate Answers(f: seq<bv8>, s: seq<bv8>)
    requires WellFormed(s) && Transport(s) + 4 <= |f|
  {
    AnswersEther(f, s) && AnswersIp(f, s, Transport(s)) && AnswersPorts(f, s, Transport(s))
  }

  lemma SwapAddressesEther(s: seq<bv8>)
    requires WellFormed(s)
    ensures AnswersEther(SwapAddresses(s), s)
  {
    var t := Transport(s);
    var w1 := Swap(s, EtherDest, EtherSource, HwAddLength);
    var w2 := Swap(w1, IpSource, IpDest, IpAddLength);
    SwapSpansMoved(s, EtherDest, EtherSource, HwAddLength);
    SwapOut(w1, IpSource, IpDest, IpAddLength, EtherDest, EtherDest + 6);
    SwapOut(w1, IpSource, IpDest, IpAddLength, EtherSource, EtherSource + 6);
    SwapOut(w2, t, t + 2, 2, EtherDest, EtherDest + 6);
    SwapOut(w2, t, t + 2, 2, EtherSource, EtherSource + 6);
    SwapOut(s, EtherDest, EtherSource, HwAddLength, EtherType, IpLength);
    SwapOut(w1, IpSource, IpDest, IpAddLength, EtherType, IpLength);
    SwapOut(w2, t, t + 2, 2, EtherType, IpLength);
    SwapOut(s, EtherDest, EtherSource, HwAddLength, IpId, IpChecksum);
    SwapOut(w1, IpSource, IpDest, IpAddLength, IpId, IpChecksum);
    SwapOut(w2, t, t + 2, 2, IpId, IpChecksum);
  }

  lemma SwapAddressesIp(s: seq<bv8>)
    requires WellFormed(s)
    ensures AnswersIp(SwapAddresses(s), s, Transport(s))
  {
    var t := Transport(s);
    var w1 := Swap(s, EtherDest, EtherSource, HwAddLength);
    var w2 := Swap(w1, IpSource, IpDest, IpAddLength);
    SwapOut(s, EtherDest, EtherSource, HwAddLength, IpSource, IpSource + 4);
    SwapOut(s, EtherDest, EtherSource, HwAddLength, IpDest, IpDest + 4);
    SwapSpansMoved(w1, IpSource, IpDest, IpAddLength);
    SwapOut(w2, t, t + 2, 2, IpSource, IpSource + 4);
    SwapOut(w2, t, t + 2, 2, IpDest, IpDest + 4);
    SwapOut(s, EtherDest, EtherSource, HwAddLength, IpDest + 4, t);
    SwapOut(w1, IpSource, IpDest, IpAddLength, IpDest + 4, t);
    SwapOut(w2, t, t + 2, 2, IpDest + 4, t);
  }

  /** The ports exchanged, and the rest of the TCP header as it was, so that
      the fields the acknowledgement is computed from are intact. */
  lemma SwapAddressesPorts(s: seq<bv8>)
    requires WellFormed(s)
    ensures var t := Transport(s);
            var w := SwapAddresses(s);
            AnswersPorts(w, s, t) && w[t + 4..] == s[t + 4..]
            && Transport(w) == t && Flags(w) == Flags(s) && SequenceNumber(w) == SequenceNumber(s)
  {
    var t := Transport(s);
    var w1 := Swap(s, EtherDest, EtherSource, HwAddLength);
    var w2 := Swap(w1, IpSource, IpDest, IpAddLength);
    var w := Swap(w2, t, t + 2, 2);
    SwapOut(s, EtherDest, EtherSource, HwAddLength, t, |s|);
    SwapOut(w1, IpSource, IpDest, IpAddLength, t, |s|);
    SwapSpansMoved(w2, t, t + 2, 2);
    SwapOut(w2, t, t + 2, 2, t + 4, |s|);
    SliceOfSlice(w, t, |s|, 0, 2);
    SliceOfSlice(s, t, |s|, 2, 4);
    SliceOfSlice(w, t, |s|, 2, 4);
    SliceOfSlice(s, t, |s|, 0, 2);
    assert w[t + 4..t + 8] == w[t + 4..][..4] && s[t + 4..t + 8] == s[t + 4..][..4];
    assert w[t + 13] == w[t + 4..][9] && s[t + 13] == s[t + 4..][9];
  }

  /** The reply's buffer before Finish: addresses exchanged, the TCP header
      from byte 4 on and the IP length rewritten. */
  function ReplyHeader(s: seq<bv8>, n: nat, seqn: nat, ack: nat, flags: bv8): (b: seq<bv8>)
    requires WellFormed(s) && n < 0x100
    ensures WellFormed(b) && b[IpRevSize] == s[IpRevSize]
  {
    var t := Transport(s);
    Put(Put(SwapAddresses(s), t + 4, HeaderTail(seqn, ack, flags)), IpLength, BE16N(4 * Ihl(s) + 20 + n))
  }

  /** What the header step writes, and that it is ready for Finish. */
  lemma ReplyHeaderFields(s: seq<bv8>, n: nat, seqn: nat, ack: nat, flags: bv8)
    requires WellFormed(s) && n < 0x100
    ensures var b := ReplyHeader(s, n, seqn, ack, flags);
            Transport(b) == Transport(s) && HeaderFields(b, Transport(s), HeaderTail(seqn, ack, flags))
            && Num16(b[IpLength..IpLength + 2]) == 4 * Ihl(b) + 20 + n
  {
    var t := Transport(s);
    var w := SwapAddresses(s);
    var h := HeaderTail(seqn, ack, flags);
    var len := 4 * Ihl(s) + 20 + n;
    var b1 := Put(w, t + 4, h);
    var b := Put(b1, IpLength, BE16N(len));
    PutHeaderFields(w, t, h);
    PutOut(b1, IpLength, BE16N(len), t + 4, t + 16);
    PutOut(b1, IpLength, BE16N(len), t + 18, t + 20);
    PutPart(b1, IpLength, BE16N(len), IpLength, IpLength + 2);
    Num16Inverse(len);
  }

  /** The header step leaves the bytes outside the TCP header's bytes 4-19 and
      the IP length as SwapAddresses left them. */
  lemma ReplyHeaderKeeps(s: seq<bv8>, n: nat, seqn: nat, ack: nat, flags: bv8, i: nat, j: nat)
    requires WellFormed(s) && n < 0x100 && i <= j <= |s|
    requires j <= IpLength || IpLength + 2 <= i
    requires j <= Transport(s) + 4 || Transport(s) + 20 <= i
    ensures ReplyHeader(s, n, seqn, ack, flags)[i..j] == SwapAddresses(s)[i..j]
  {
    var t := Transport(s);
    var w := SwapAddresses(s);
    var h := HeaderTail(seqn, ack, flags);
    PutOut(w, t + 4, h, i, j);
    PutOut(Put(w, t + 4, h), IpLength, BE16N(4 * Ihl(s) + 20 + n), i, j);
  }

  /** The whole buffer after etherSendTcpResponse with sequence number `seqn`
      and acknowledgement `ack`. */
  function ReplyBuffer(s: seq<bv8>, data: seq<bv8>, seqn: nat, ack: nat, flags: bv8, cks: seq<bv8> -> bv16): (b: seq<bv8>)
    requires WellFormed(s) && |data| < 0x100
    ensures WellFormed(b) && b[IpRevSize] == s[IpRevSize]
  {
    Finish(ReplyHeader(s, |data|, seqn, ack, flags), data, cks)
  }

  /** Ranges up to the TCP header's byte 4 other than the IP length and checksum
      are as SwapAddresses leaves them. */
  lemma ReplyBufferKeeps(s: seq<bv8>, data: seq<bv8>, seqn: nat, ack: nat, flags: bv8, cks: seq<bv8> -> bv16, i: nat, j: nat)
    requires WellFormed(s) && |data| < 0x100 && i <= j <= Transport(s) + 4
    requires j <= IpLength || IpChecksum + 2 <= i || (IpLength + 2 <= i && j <= IpChecksum)
    ensures ReplyBuffer(s, data, seqn, ack, flags, cks)[i..j] == SwapAddresses(s)[i..j]
  {
    ReplyHeaderKeeps(s, |data|, seqn, ack, flags, i, j);
    FinishKeeps(ReplyHeader(s, |data|, seqn, ack, flags), data, cks, i, j);
  }

  /** The reply frame is a Segment with the given numbers. */
  lemma ReplySegment(s: seq<bv8>, data: seq<bv8>, seqn: nat, ack: nat, flags: bv8, cks: seq<bv8> -> bv16)
    requires WellFormed(s) && |data| < 0x100
    ensures Segment(ReplyBuffer(s, data, seqn, ack, flags, cks)[..Transport(s) + 20 + |data|], seqn, ack, flags, data, cks)
  {
    ReplyHeaderFields(s, |data|, seqn, ack, flags);
    FinishedSegment(ReplyHeader(s, |data|, seqn, ack, flags), data, seqn, ack, flags, cks);
  }

  /** The reply buffer says the numbers too, for the next reply to read. */
  lemma ReplyBufferSays(s: seq<bv8>, data: seq<bv8>, seqn: nat, ack: nat, flags: bv8, cks: seq<bv8> -> bv16)
    requires WellFormed(s) && |data| < 0x100
    ensures var b := ReplyBuffer(s, data, seqn, ack, flags, cks);
            Transport(b) == Transport(s) && Says(b, seqn, ack, flags)
  {
    var t := Transport(s);
    var b0 := ReplyHeader(s, |data|, seqn, ack, flags);
    var b := ReplyBuffer(s, data, seqn, ack, flags, cks);
    ReplyHeaderFields(s, |data|, seqn, ack, flags);
    FinishKeeps(b0, data, cks, t + 4, t + 16);
    FinishKeeps(b0, data, cks, t + 18, t + 20);
    HeaderTailSays(b, seqn, ack, flags);
  }

  lemma ReplyAnswersEther(s: seq<bv8>, data: seq<bv8>, seqn: nat, ack: nat, flags: bv8, cks: seq<bv8> -> bv16)
    requires WellFormed(s) && |data| < 0x100
    ensures AnswersEther(ReplyBuffer(s, data, seqn, ack, flags, cks), s)
  {
    SwapAddressesEther(s);
    ReplyBufferKeeps(s, data, seqn, ack, flags, cks, EtherDest, EtherDest + 6);
    ReplyBufferKeeps(s, data, seqn, ack, flags, cks, EtherSource, EtherSource + 6);
    ReplyBufferKeeps(s, data, seqn, ack, flags, cks, EtherType, IpLength);
    ReplyBufferKeeps(s, data, seqn, ack, flags, cks, IpId, IpChecksum);
  }

  lemma ReplyAnswersIp(s: seq<bv8>, data: seq<bv8>, seqn: nat, ack: nat, flags: bv8, cks: seq<bv8> -> bv16)
    requires WellFormed(s) && |data| < 0x100
    ensures AnswersIp(ReplyBuffer(s, data, seqn, ack, flags, cks), s, Transport(s))
  {
    var t := Transport(s);
    SwapAddressesIp(s);
    ReplyBufferKeeps(s, data, seqn, ack, flags, cks, IpSource, IpSource + 4);
    ReplyBufferKeeps(s, data, seqn, ack, flags, cks, IpDest, IpDest + 4);
    ReplyBufferKeeps(s, data, seqn, ack, flags, cks, IpDest + 4, t);
  }

  lemma ReplyAnswersPorts(s: seq<bv8>, data: seq<bv8>, seqn: nat, ack: nat, flags: bv8, cks: seq<bv8> -> bv16)
    requires WellFormed(s) && |data| < 0x100
    ensures AnswersPorts(ReplyBuffer(s, data, seqn, ack, flags, cks), s, Transport(s))
  {
    var t := Transport(s);
    SwapAddressesPorts(s);
    ReplyBufferKeeps(s, data, seqn, ack, flags, cks, t, t + 2);
    ReplyBufferKeeps(s, data, seqn, ack, flags, cks, t + 2, t + 4);
  }

  /** Answers survives cutting the buffer to the frame's length. */
  lemma AnswersPrefix(b: seq<bv8>, s: seq<bv8>, n: nat)
    requires WellFormed(s) && Transport(s) + 4 <= n <= |b| && Answers(b, s)
    ensures Answers(b[..n], s)
  {
    var t := Transport(s);
    SliceOfPrefix(b, n, EtherDest, EtherDest + 6);
    SliceOfPrefix(b, n, EtherSource, EtherSource + 6);
    SliceOfPrefix(b, n, EtherType, IpLength);
    SliceOfPrefix(b, n, IpId, IpChecksum);
    SliceOfPrefix(b, n, IpSource, IpSource + 4);
    SliceOfPrefix(b, n, IpDest, IpDest + 4);
    SliceOfPrefix(b, n, IpDest + 4, t);
    SliceOfPrefix(b, n, t, t + 2);
    SliceOfPrefix(b, n, t + 2, t + 4);
  }

  datatype Reply = Reply(conn: Conn, buf: seq<bv8>, frame: seq<bv8>)

  /** The reply to the frame `s` carrying `data` with `flags`: the new
      connection state, the rewritten buffer and the frame handed to the driver. */
  function Respond(c: Conn, s: seq<bv8>, data: seq<bv8>, flags: bv8, cks: seq<bv8> -> bv16): (r: Reply)
    requires WellFormed(s) && |data| < 0x100
    ensures WellFormed(r.buf) && r.buf[IpRevSize] == s[IpRevSize]
    ensures |r.frame| == Transport(s) + 20 + |data|
  {
    var ack := InboundAck(s, c.ackToSend);
    var (sent, next) := OutboundSeq(flags, |data|, c.runningSeqn);
    var buf := ReplyBuffer(s, data, sent, ack, flags, cks);
    Reply(c.(runningSeqn := next, ackToSend := ack), buf, buf[..Transport(s) + 20 + |data|])
  }

  /** The reply is a Segment carrying the running sequence number and the
      acknowledgement InboundAck computes, and the connection moves on by
      OutboundSeq. */
  lemma RespondSegment(c: Conn, s: seq<bv8>, data: seq<bv8>, flags: bv8, cks: seq<bv8> -> bv16)
    requires WellFormed(s) && |data| < 0x100
    ensures var r := Respond(c, s, data, flags, cks);
            Segment(r.frame, c.runningSeqn, r.conn.ackToSend, flags, data, cks)
            && r.conn == c.(runningSeqn := OutboundSeq(flags, |data|, c.runningSeqn).1, ackToSend := InboundAck(s, c.ackToSend))
  {
    ReplySegment(s, data, c.runningSeqn, InboundAck(s, c.ackToSend), flags, cks);
  }

  /** The reply goes back to the sender's Ethernet and IP addresses and port,
      from ours, and keeps the other IP fields of `s` except length and checksum. */
  lemma RespondAnswers(c: Conn, s: seq<bv8>, data: seq<bv8>, flags: bv8, cks: seq<bv8> -> bv16)
    requires WellFormed(s) && |data| < 0x100
    ensures Answers(Respond(c, s, data, flags, cks).buf, s) && Answers(Respond(c, s, data, flags, cks).frame, s)
  {
    var ack := InboundAck(s, c.ackToSend);
    ReplyAnswersEther(s, data, c.runningSeqn, ack, flags, cks);
    ReplyAnswersIp(s, data, c.runningSeqn, ack, flags, cks);
    ReplyAnswersPorts(s, data, c.runningSeqn, ack, flags, cks);
    AnswersPrefix(ReplyBuffer(s, data, c.runningSeqn, ack, flags, cks), s, Transport(s) + 20 + |data|);
  }

  /** The rewritten buffer carries the reply's flags and sequence number where
      the next test and the next reply read them. */
  lemma RespondBuffer(c: Conn, s: seq<bv8>, flags: bv8, cks: seq<bv8> -> bv16)
    requires WellFormed(s) && ValidConn(c)
    ensures var r := Respond(c, s, [], flags, cks);
            Transport(r.buf) == Transport(s) && Flags(r.buf) == flags && SequenceNumber(r.buf) == c.runningSeqn
  {
    var b := ReplyBuffer(s, [], c.runningSeqn, InboundAck(s, c.ackToSend), flags, cks);
    ReplyBufferSays(s, [], c.runningSeqn, InboundAck(s, c.ackToSend), flags, cks);
    Num32Inverse(c.runningSeqn);
  }

  /** Answering a reply sends the frame back where the original came from. */
  lemma ReplyToReply(c: Conn, s: seq<bv8>, flags1: bv8, flags2: bv8, cks: seq<bv8> -> bv16)
    requires WellFormed(s)
    ensures var r1 := Respond(c, s, [], flags1, cks);
            var r2 := Respond(r1.conn, r1.buf, [], flags2, cks);
            r2.frame[EtherDest..EtherDest + 6] == s[EtherDest..EtherDest + 6]
            && r2.frame[EtherSource..EtherSource + 6] == s[EtherSource..EtherSource + 6]
  {
    var r1 := Respond(c, s, [], flags1, cks);
    RespondAnswers(c, s, [], flags1, cks);
    RespondAnswers(r1.conn, r1.buf, [], flags2, cks);
  }

  // ---------------------------------------------------------------------
  // processTcpMessage (tcp.c:41-115)
  // ---------------------------------------------------------------------

  /** The state after a received frame: the connection, the buffer (rewritten
      by every reply), the replies sent in order, and whether the frame is
      passed on to the MQTT client. */
  datatype Outcome = Outcome(conn: Conn, buf: seq<bv8>, replies: seq<seq<bv8>>, mqtt: bool)

  /** One more etherSendTcpResponse(packet, 0, 0, flags). */
  function Answer(o: Outcome, flags: bv8, cks: seq<bv8> -> bv16): (r: Outcome)
    requires WellFormed(o.buf)
    ensures WellFormed(r.buf) && r.buf[IpRevSize] == o.buf[IpRevSize] && |r.replies| == |o.replies| + 1
  {
    var r := Respond(o.conn, o.buf, [], flags, cks);
    o.(conn := r.conn, buf := r.buf, replies := o.replies + [r.frame])
  }

  function WithState(o: Outcome, state: bv8): Outcome
  {
    o.(conn := o.conn.(state := state))
  }

  /** processTcpMessage. Each test reads the flags from the buffer as it is at
      that point, so a reply the handler has just written is seen by the next
      test. */
  function Process(c: Conn, s: seq<bv8>, rnd: nat, cks: seq<bv8> -> bv16): (o: Outcome)
    requires WellFormed(s)
    ensures WellFormed(o.buf)
  {
    if c.state == Listen then ProcessListen(s, rnd, cks)
    else if c.state == SynSent then ProcessSynSent(c, s, cks)
    else if c.state == Established then ProcessEstablished(c, s, cks)
    else Outcome(c, s, [], false)
  }

  /** The LISTEN case (tcp.c:50-64): the connection is reset first, whatever
      it held. */
  function ProcessListen(s: seq<bv8>, rnd: nat, cks: seq<bv8> -> bv16): (o: Outcome)
    requires WellFormed(s)
    ensures WellFormed(o.buf)
  {
    var o1 := Outcome(Reset(rnd), s, [], false);
    var o2 := if HasFlag(o1.buf, Syn) then WithState(Answer(o1, Syn | Ack, cks), Established) else o1;
    if HasFlag(o2.buf, Syn) && HasFlag(o2.buf, Ack) then WithState(Answer(o2, Ack, cks), Established) else o2
  }

  /** The SYN_SENT case (tcp.c:65-72). */
  function ProcessSynSent(c: Conn, s: seq<bv8>, cks: seq<bv8> -> bv16): (o: Outcome)
    requires WellFormed(s)
    ensures WellFormed(o.buf)
  {
    var o := Outcome(c, s, [], false);
    if HasFlag(s, Syn) && HasFlag(s, Ack) then WithState(Answer(o, Ack, cks), Established) else o
  }

  /** The ESTABLISHED case (tcp.c:73-104). */
  function ProcessEstablished(c: Conn, s: seq<bv8>, cks: seq<bv8> -> bv16): (o: Outcome)
    requires WellFormed(s)
    ensures WellFormed(o.buf)
  {
    var o := Outcome(c, s, [], false);
    var o1 := if HasFlag(s, Fin) && HasFlag(s, Ack) then Answer(WithState(o, Listen), Ack, cks) else o;
    var o2 := if HasFlag(o1.buf, Fin) then Answer(WithState(o1, Listen), Fin | Ack, cks) else o1;
    if HasFlag(o2.buf, Push) then
      var m := EtherIsMqtt(o2.buf) && PayloadSize(o2.buf) != 0;
      Answer(o2, Ack, cks).(mqtt := m)
    else o2
  }

  /** The two replies to a SYN in LISTEN, spelled out. */
  lemma ListenSynOutcome(c: Conn, s: seq<bv8>, rnd: nat, cks: seq<bv8> -> bv16)
    requires WellFormed(s) && c.state == Listen && HasFlag(s, Syn)
    ensures var r1 := Respond(Reset(rnd), s, [], Syn | Ack, cks);
            var r2 := Respond(r1.conn.(state := Established), r1.buf, [], Ack, cks);
            Process(c, s, rnd, cks) == Outcome(r2.conn.(state := Established), r2.buf, [r1.frame, r2.frame], false)
  {
    RespondBuffer(Reset(rnd), s, Syn | Ack, cks);
  }

  /** A SYN in LISTEN is answered twice (ListenSynOutcome). The first reply is
      a SYN|ACK with sequence number 0 acknowledging the SYN, sent back to its
      sender. */
  lemma ListenSynFirst(s: seq<bv8>, rnd: nat, cks: seq<bv8> -> bv16)
    requires WellFormed(s) && HasFlag(s, Syn)
    ensures var r1 := Respond(Reset(rnd), s, [], Syn | Ack, cks);
            Segment(r1.frame, 0, InboundAck(s, 0), Syn | Ack, [], cks) && Answers(r1.frame, s)
  {
    RespondSegment(Reset(rnd), s, [], Syn | Ack, cks);
    RespondAnswers(Reset(rnd), s, [], Syn | Ack, cks);
  }

  /** The second reply, because the second test reads the SYN|ACK just
      written, is an ACK built from that reply: sequence number 1, and it
      acknowledges the SYN|ACK's own sequence number 0. The connection ends up
      ESTABLISHED with both numbers at their values after that ACK. */
  lemma ListenSynSecond(s: seq<bv8>, rnd: nat, cks: seq<bv8> -> bv16)
    requires WellFormed(s) && HasFlag(s, Syn)
    ensures var r1 := Respond(Reset(rnd), s, [], Syn | Ack, cks);
            var r2 := Respond(r1.conn.(state := Established), r1.buf, [], Ack, cks);
            Segment(r2.frame, 1, 1, Ack, [], cks)
            && r2.conn.(state := Established) == Conn(Established, 1, rnd % Mod16, MqttServerPort, 1)
  {
    var r1 := Respond(Reset(rnd), s, [], Syn | Ack, cks);
    RespondBuffer(Reset(rnd), s, Syn | Ack, cks);
    AckOfSynAck(r1.conn.(state := Established), r1.buf, cks);
  }

  /** An ACK answering a buffer that holds a SYN|ACK with sequence number 0
      acknowledges 1 and leaves the running sequence number alone. */
  lemma AckOfSynAck(c: Conn, b: seq<bv8>, cks: seq<bv8> -> bv16)
    requires WellFormed(b) && Flags(b) == Syn | Ack && SequenceNumber(b) == 0
    ensures var r := Respond(c, b, [], Ack, cks);
            Segment(r.frame, c.runningSeqn, 1, Ack, [], cks) && r.conn == c.(ackToSend := 1)
  {
    assert InboundAck(b, c.ackToSend) == 1;
    RespondSegment(c, b, [], Ack, cks);
  }

  /** With its addresses exchanged once more, the ACK goes to the destination
      of the received frame, that is back to this host. */
  lemma ListenSynBack(s: seq<bv8>, rnd: nat, cks: seq<bv8> -> bv16)
    requires WellFormed(s)
    ensures var r1 := Respond(Reset(rnd), s, [], Syn | Ack, cks);
            var r2 := Respond(r1.conn.(state := Established), r1.buf, [], Ack, cks);
            r2.frame[EtherDest..EtherDest + 6] == s[EtherDest..EtherDest + 6]
  {
    ReplyToReply(Reset(rnd), s, Syn | Ack, Ack, cks);
  }

  /** Anything else in LISTEN only resets the connection. */
  lemma ListenWithoutSyn(c: Conn, s: seq<bv8>, rnd: nat, cks: seq<bv8> -> bv16)
    requires WellFormed(s) && c.state == Listen && !HasFlag(s, Syn)
    ensures Process(c, s, rnd, cks) == Outcome(Reset(rnd), s, [], false)
  {
  }

  /** In SYN_SENT the broker's SYN|ACK is acknowledged and the connection is
      ESTABLISHED; anything else is ignored. */
  lemma SynSentHandshake(c: Conn, s: seq<bv8>, rnd: nat, cks: seq<bv8> -> bv16)
    requires WellFormed(s) && ValidConn(c) && c.state == SynSent
    ensures var o := Process(c, s, rnd, cks);
            if HasFlag(s, Syn) && HasFlag(s, Ack) then
              |o.replies| == 1 && !o.mqtt && Segment(o.replies[0], c.runningSeqn, InboundAck(s, c.ackToSend), Ack, [], cks)
              && o.conn == c.(state := Established, ackToSend := InboundAck(s, c.ackToSend))
            else o == Outcome(c, s, [], false)
  {
    if HasFlag(s, Syn) && HasFlag(s, Ack) {
      RespondSegment(c, s, [], Ack, cks);
    }
  }

  /** In ESTABLISHED a FIN closes the connection back to LISTEN with exactly
      one reply: ACK when the FIN came with ACK, FIN|ACK otherwise. The second
      test never fires after the first, because it reads the ACK just written. */
  lemma EstablishedFin(c: Conn, s: seq<bv8>, rnd: nat, cks: seq<bv8> -> bv16)
    requires WellFormed(s) && ValidConn(c) && c.state == Established && HasFlag(s, Fin)
    ensures var o := Process(c, s, rnd, cks);
            var flags := if HasFlag(s, Ack) then Ack else Fin | Ack;
            |o.replies| == 1 && !o.mqtt && Segment(o.replies[0], c.runningSeqn, InboundAck(s, c.ackToSend), flags, [], cks)
            && o.conn == c.(state := Listen, runningSeqn := OutboundSeq(flags, 0, c.runningSeqn).1, ackToSend := InboundAck(s, c.ackToSend))
  {
    var flags := if HasFlag(s, Ack) then Ack else Fin | Ack;
    var c1 := c.(state := Listen);
    RespondSegment(c1, s, [], flags, cks);
    RespondBuffer(c1, s, flags, cks);
  }

  /** In ESTABLISHED a PUSH without FIN is acknowledged, and the frame goes on
      to the MQTT client when it comes from the broker port over TCP and its
      payload size is not zero. */
  lemma EstablishedPush(c: Conn, s: seq<bv8>, rnd: nat, cks: seq<bv8> -> bv16)
    requires WellFormed(s) && ValidConn(c) && c.state == Established && !HasFlag(s, Fin) && HasFlag(s, Push)
    ensures var o := Process(c, s, rnd, cks);
            |o.replies| == 1 && o.mqtt == (EtherIsMqtt(s) && PayloadSize(s) != 0)
            && Segment(o.replies[0], c.runningSeqn, (SequenceNumber(s) + PayloadSize(s)) % Mod32, Ack, [], cks)
            && o.conn == c.(ackToSend := (SequenceNumber(s) + PayloadSize(s)) % Mod32)
  {
    RespondSegment(c, s, [], Ack, cks);
  }

  /** In ESTABLISHED a segment with neither FIN nor PUSH (a bare ACK) changes nothing. */
  lemma EstablishedOther(c: Conn, s: seq<bv8>, rnd: nat, cks: seq<bv8> -> bv16)
    requires WellFormed(s) && c.state == Established && !HasFlag(s, Fin) && !HasFlag(s, Push)
    ensures Process(c, s, rnd, cks) == Outcome(c, s, [], false)
  {
  }

  /** A received frame keeps the connection within its three states and its
      fields within their C ranges. */
  lemma ProcessKeepsValid(c: Conn, s: seq<bv8>, rnd: nat, cks: seq<bv8> -> bv16)
    requires WellFormed(s) && ValidConn(c)
    ensures ValidConn(Process(c, s, rnd, cks).conn)
  {
    if c.state == Listen {
      if HasFlag(s, Syn) {
        ListenSynOutcome(c, s, rnd, cks);
        ListenSynSecond(s, rnd, cks);
      }
    } else if c.state == SynSent {
      SynSentHandshake(c, s, rnd, cks);
    } else if HasFlag(s, Fin) {
      EstablishedFin(c, s, rnd, cks);
    } else if HasFlag(s, Push) {
      EstablishedPush(c, s, rnd, cks);
    }
  }

  // ---------------------------------------------------------------------
  // New segments: sendTcpPacket (tcp.c:228-334)
  // ---------------------------------------------------------------------

  /** The addressing of a segment sent to `serverMac`/`serverIp`:`destPort`
      from this host's `mac`/`ip`:`myPort`, with the fixed IPv4 fields
      sendTcpPacket writes (frame type IPv4, version 4 and a 20-byte header,
      TOS 0, no fragmentation, TTL 128, protocol TCP). The identification
      field is never written. */
  predicate Addressed(f: seq<bv8>, serverMac: seq<bv8>, mac: seq<bv8>, ip: seq<bv8>, serverIp: seq<bv8>, myPort: nat, destPort: nat)
  {
    |f| >= 38
    && f[EtherDest..EtherDest + 6] == serverMac && f[EtherSource..EtherSource + 6] == mac && f[EtherType..IpStart] == [8, 0]
    && f[IpRevSize] == 0x45 && f[IpTypeOfService] == 0 && f[IpFlagsAndOffset..IpChecksum] == [0, 0, 128, 6]
    && f[IpSource..IpSource + 4] == ip && f[IpDest..IpDest + 4] == serverIp
    && Num16(f[34..36]) == myPort && Num16(f[36..38]) == destPort
  }

  /** The first 18 bytes sendTcpPacket writes: the Ethernet header, version
      and header length, TOS and the IP total length. */
  function NewEther(serverMac: seq<bv8>, mac: seq<bv8>, n: nat): (h: seq<bv8>)
    requires |serverMac| == HwAddLength && |mac| == HwAddLength
    ensures |h| == 18
  {
    serverMac + mac + [8, 0, 0x45, 0] + BE16N(40 + n)
  }

  /** The 28 bytes from the IP source address to the end of the TCP header. */
  function NewTail(ip: seq<bv8>, serverIp: seq<bv8>, myPort: nat, destPort: nat, seqn: nat, ack: nat, flags: bv8): (h: seq<bv8>)
    requires |ip| == IpAddLength && |serverIp| == IpAddLength
    ensures |h| == 28
  {
    ip + serverIp + BE16N(myPort) + BE16N(destPort) + HeaderTail(seqn, ack, flags)
  }

  /** The header sendTcpPacket writes over its buffer, grouped by position:
      Ethernet header with the first IP bytes, then the fragment field, TTL
      and protocol, then the addresses and the whole TCP header. */
  function NewHeader(junk: seq<bv8>, serverMac: seq<bv8>, mac: seq<bv8>, ip: seq<bv8>, serverIp: seq<bv8>,
                     myPort: nat, destPort: nat, seqn: nat, ack: nat, flags: bv8, n: nat): (b: seq<bv8>)
    requires IsFrame(junk) && |serverMac| == HwAddLength && |mac| == HwAddLength && |ip| == IpAddLength && |serverIp| == IpAddLength
    ensures IsFrame(b) && b[IpRevSize] == 0x45 && Ihl(b) == 5 && Transport(b) == 34
  {
    var h1 := NewEther(serverMac, mac, n);
    var b1 := Put(junk, EtherDest, h1);
    var b2 := Put(b1, IpFlagsAndOffset, [0, 0, 128, 6]);
    var h3 := NewTail(ip, serverIp, myPort, destPort, seqn, ack, flags);
    Put(b2, IpSource, h3)
  }

  /** Where the three groups of NewHeader end up. */
  lemma NewHeaderParts(junk: seq<bv8>, serverMac: seq<bv8>, mac: seq<bv8>, ip: seq<bv8>, serverIp: seq<bv8>,
                       myPort: nat, destPort: nat, seqn: nat, ack: nat, flags: bv8, n: nat)
    requires IsFrame(junk) && |serverMac| == HwAddLength && |mac| == HwAddLength && |ip| == IpAddLength && |serverIp| == IpAddLength
    ensures var b := NewHeader(junk, serverMac, mac, ip, serverIp, myPort, destPort, seqn, ack, flags, n);
            b[..18] == NewEther(serverMac, mac, n) && b[IpFlagsAndOffset..IpChecksum] == [0, 0, 128, 6]
            && b[IpSource..54] == NewTail(ip, serverIp, myPort, destPort, seqn, ack, flags)
  {
    var h1 := NewEther(serverMac, mac, n);
    var b1 := Put(junk, EtherDest, h1);
    var h2: seq<bv8> := [0, 0, 128, 6];
    var b2 := Put(b1, IpFlagsAndOffset, h2);
    var h3 := NewTail(ip, serverIp, myPort, destPort, seqn, ack, flags);
    PutPart(junk, EtherDest, h1, 0, 18);
    PutOut(b1, IpFlagsAndOffset, h2, 0, 18);
    PutOut(b2, IpSource, h3, 0, 18);
    PutPart(b1, IpFlagsAndOffset, h2, IpFlagsAndOffset, IpChecksum);
    PutOut(b2, IpSource, h3, IpFlagsAndOffset, IpChecksum);
    PutPart(b2, IpSource, h3, IpSource, 54);
  }

  /** What sendTcpPacket writes, field by field. */
  lemma NewHeaderFields(junk: seq<bv8>, serverMac: seq<bv8>, mac: seq<bv8>, ip: seq<bv8>, serverIp: seq<bv8>,
                        myPort: nat, destPort: nat, seqn: nat, ack: nat, flags: bv8, n: nat)
    requires IsFrame(junk) && |serverMac| == HwAddLength && |mac| == HwAddLength && |ip| == IpAddLength && |serverIp| == IpAddLength
    requires myPort < Mod16 && destPort < Mod16 && n < 0x100
    ensures var b := NewHeader(junk, serverMac, mac, ip, serverIp, myPort, destPort, seqn, ack, flags, n);
            Addressed(b, serverMac, mac, ip, serverIp, myPort, destPort)
            && Num16(b[IpLength..IpLength + 2]) == 4 * Ihl(b) + 20 + n && HeaderFields(b, 34, HeaderTail(seqn, ack, flags))
  {
    var b := NewHeader(junk, serverMac, mac, ip, serverIp, myPort, destPort, seqn, ack, flags, n);
    NewHeaderParts(junk, serverMac, mac, ip, serverIp, myPort, destPort, seqn, ack, flags, n);
    NewEtherFields(b, serverMac, mac, n);
    NewTailFields(b, ip, serverIp, myPort, destPort, seqn, ack, flags);
    Num16Inverse(40 + n);
    Num16Inverse(myPort);
    Num16Inverse(destPort);
  }

  /** The fields of a buffer that starts with NewEther. */
  lemma NewEtherFields(b: seq<bv8>, serverMac: seq<bv8>, mac: seq<bv8>, n: nat)
    requires |serverMac| == HwAddLength && |mac| == HwAddLength && |b| >= 18 && b[..18] == NewEther(serverMac, mac, n)
    ensures b[EtherDest..EtherDest + 6] == serverMac && b[EtherSource..EtherSource + 6] == mac && b[EtherType..IpStart] == [8, 0]
    ensures b[IpRevSize] == 0x45 && b[IpTypeOfService] == 0 && b[IpLength..IpLength + 2] == BE16N(40 + n)
  {
    var h := NewEther(serverMac, mac, n);
    assert h[0..6] == serverMac && h[6..12] == mac && h[12..14] == [8, 0] && h[14] == 0x45 && h[15] == 0 && h[16..18] == BE16N(40 + n);
    SliceOfPrefix(b, 18, 0, 6);
    SliceOfPrefix(b, 18, 6, 12);
    SliceOfPrefix(b, 18, 12, 14);
    SliceOfPrefix(b, 18, 16, 18);
    assert b[14] == b[..18][14] && b[15] == b[..18][15];
  }

  /** The fields of a buffer holding NewTail from the IP source address on. */
  lemma NewTailFields(b: seq<bv8>, ip: seq<bv8>, serverIp: seq<bv8>, myPort: nat, destPort: nat, seqn: nat, ack: nat, flags: bv8)
    requires |ip| == IpAddLength && |serverIp| == IpAddLength && |b| >= 54
    requires b[IpSource..54] == NewTail(ip, serverIp, myPort, destPort, seqn, ack, flags)
    ensures b[IpSource..IpSource + 4] == ip && b[IpDest..IpDest + 4] == serverIp
    ensures b[34..36] == BE16N(myPort) && b[36..38] == BE16N(destPort)
    ensures HeaderFields(b, 34, HeaderTail(seqn, ack, flags))
  {
    var h := NewTail(ip, serverIp, myPort, destPort, seqn, ack, flags);
    var x := HeaderTail(seqn, ack, flags);
    assert h[0..4] == ip && h[4..8] == serverIp && h[8..10] == BE16N(myPort) && h[10..12] == BE16N(destPort);
    assert h[12..24] == x[..12] && h[26..28] == x[14..];
    SliceOfSlice(b, 26, 54, 0, 4);
    SliceOfSlice(b, 26, 54, 4, 8);
    SliceOfSlice(b, 26, 54, 8, 10);
    SliceOfSlice(b, 26, 54, 10, 12);
    SliceOfSlice(b, 26, 54, 12, 24);
    SliceOfSlice(b, 26, 54, 26, 28);
  }

  /** A frame sendTcpPacket builds, whatever its buffer held, is a Segment
      addressed to the server. */
  lemma NewSegment(junk: seq<bv8>, serverMac: seq<bv8>, mac: seq<bv8>, ip: seq<bv8>, serverIp: seq<bv8>,
                   myPort: nat, destPort: nat, seqn: nat, ack: nat, flags: bv8, data: seq<bv8>, cks: seq<bv8> -> bv16)
    requires IsFrame(junk) && |serverMac| == HwAddLength && |mac| == HwAddLength && |ip| == IpAddLength && |serverIp| == IpAddLength
    requires myPort < Mod16 && destPort < Mod16 && |data| < 0x100 && seqn < Mod32 && ack < Mod32
    ensures var b := NewHeader(junk, serverMac, mac, ip, serverIp, myPort, destPort, seqn, ack, flags, |data|);
            var f := Finish(b, data, cks)[..54 + |data|];
            Segment(f, seqn, ack, flags, data, cks) && Addressed(f, serverMac, mac, ip, serverIp, myPort, destPort)
  {
    var b := NewHeader(junk, serverMac, mac, ip, serverIp, myPort, destPort, seqn, ack, flags, |data|);
    NewHeaderFields(junk, serverMac, mac, ip, serverIp, myPort, destPort, seqn, ack, flags, |data|);
    FinishedSegment(b, data, seqn, ack, flags, cks);
    FinishedAddressed(b, data, cks, serverMac, mac, ip, serverIp, myPort, destPort);
  }

  /** Finishing a 20-byte-header frame keeps its addressing. */
  lemma FinishedAddressed(b: seq<bv8>, data: seq<bv8>, cks: seq<bv8> -> bv16,
                          serverMac: seq<bv8>, mac: seq<bv8>, ip: seq<bv8>, serverIp: seq<bv8>, myPort: nat, destPort: nat)
    requires |b| > IpRevSize && Ihl(b) == 5 && 54 + |data| <= |b|
    requires Addressed(b, serverMac, mac, ip, serverIp, myPort, destPort)
    ensures Addressed(Finish(b, data, cks)[..54 + |data|], serverMac, mac, ip, serverIp, myPort, destPort)
  {
    var r := Finish(b, data, cks);
    var f := r[..54 + |data|];
    FinishKeeps(b, data, cks, 0, IpChecksum);
    FinishKeeps(b, data, cks, IpSource, 38);
    SliceOfPrefix(r, 54 + |data|, 0, IpChecksum);
    SliceOfPrefix(r, 54 + |data|, IpSource, 38);
    NewAddressedStays(b, f, serverMac, mac, ip, serverIp, myPort, destPort);
  }

  /** The fields Addressed reads, as slices of the two spans that hold them. */
  lemma AddressedSlices(x: seq<bv8>)
    requires |x| >= 38
    ensures x[..IpChecksum][EtherDest..EtherDest + 6] == x[EtherDest..EtherDest + 6]
    ensures x[..IpChecksum][EtherSource..EtherSource + 6] == x[EtherSource..EtherSource + 6]
    ensures x[..IpChecksum][EtherType..IpStart] == x[EtherType..IpStart]
    ensures x[..IpChecksum][IpFlagsAndOffset..IpChecksum] == x[IpFlagsAndOffset..IpChecksum]
    ensures x[IpSource..38][0..4] == x[IpSource..IpSource + 4] && x[IpSource..38][4..8] == x[IpDest..IpDest + 4]
    ensures x[IpSource..38][8..10] == x[34..36] && x[IpSource..38][10..12] == x[36..38]
  {
    SliceOfPrefix(x, IpChecksum, EtherDest, EtherDest + 6);
    SliceOfPrefix(x, IpChecksum, EtherSource, EtherSource + 6);
    SliceOfPrefix(x, IpChecksum, EtherType, IpStart);
    SliceOfPrefix(x, IpChecksum, IpFlagsAndOffset, IpChecksum);
    SliceOfSlice(x, IpSource, 38, 0, 4);
    SliceOfSlice(x, IpSource, 38, 4, 8);
    SliceOfSlice(x, IpSource, 38, 8, 10);
    SliceOfSlice(x, IpSource, 38, 10, 12);
  }

  /** Addressed reads only bytes 0-23 and 26-37. */
  lemma NewAddressedStays(b: seq<bv8>, f: seq<bv8>, serverMac: seq<bv8>, mac: seq<bv8>, ip: seq<bv8>, serverIp: seq<bv8>, myPort: nat, destPort: nat)
    requires |b| >= 38 && |f| >= 38 && f[..IpChecksum] == b[..IpChecksum] && f[IpSource..38] == b[IpSource..38]
    requires Addressed(b, serverMac, mac, ip, serverIp, myPort, destPort)
    ensures Addressed(f, serverMac, mac, ip, serverIp, myPort, destPort)
  {
    AddressedSlices(b);
    AddressedSlices(f);
    assert f[IpRevSize] == f[..IpChecksum][IpRevSize] && f[IpTypeOfService] == f[..IpChecksum][IpTypeOfService];
  }

  /** The writes of sendTcpPacket into its frame buffer, in the order of
      NewHeader and Finish. */
  method WriteNewSegment(packet: array<bv8>, serverMac: seq<bv8>, mac: seq<bv8>, ip: seq<bv8>, serverIp: seq<bv8>,
                         myPort: nat, destPort: nat, seqn: nat, ack: nat, flags: bv8, data: seq<bv8>, cks: seq<bv8> -> bv16)
    requires IsFrame(packet[..]) && |serverMac| == HwAddLength && |mac| == HwAddLength && |ip| == IpAddLength && |serverIp| == IpAddLength
    requires |data| < 0x100
    requires myPort < Mod16 && destPort < Mod16 && seqn < Mod32 && ack < Mod32
    modifies packet
    ensures var f := packet[..54 + |data|];
            Segment(f, seqn, ack, flags, data, cks) && Addressed(f, serverMac, mac, ip, serverIp, myPort, destPort)
  {
    ghost var junk := packet[..];
    Write(packet, EtherDest, NewEther(serverMac, mac, |data|));
    Write(packet, IpFlagsAndOffset, [0, 0, 128, 6]);
    Write(packet, IpSource, NewTail(ip, serverIp, myPort, destPort, seqn, ack, flags));
    assert packet[..] == NewHeader(junk, serverMac, mac, ip, serverIp, myPort, destPort, seqn, ack, flags, |data|);
    WriteChecksumsAndData(packet, data, cks);
    NewSegment(junk, serverMac, mac, ip, serverIp, myPort, destPort, seqn, ack, flags, data, cks);
  }

  /** The address-exchange loops of etherSendTcpResponse (tcp.c:130-144). */
  method SwapAddressFields(packet: array<bv8>)
    requires WellFormed(packet[..])
    modifies packet
    ensures packet[..] == SwapAddresses(old(packet[..]))
  {
    var t := Transport(packet[..]);
    SwapSpans(packet, EtherDest, EtherSource, HwAddLength);
    SwapSpans(packet, IpSource, IpDest, IpAddLength);
    SwapSpans(packet, t, t + 2, 2);
  }

  /** The exchange moves none of the fields InboundAck reads. */
  lemma SwapKeepsInboundAck(s: seq<bv8>, ackToSend: nat)
    requires WellFormed(s)
    ensures PayloadSize(SwapAddresses(s)) == PayloadSize(s)
    ensures InboundAck(SwapAddresses(s), ackToSend) == InboundAck(s, ackToSend)
  {
    var w := SwapAddresses(s);
    var t := Transport(s);
    SwapAddressesPorts(s);
    SwapAddressesAt(s, IpLength);
    SwapAddressesAt(s, IpLength + 1);
    assert w[IpLength..IpLength + 2] == s[IpLength..IpLength + 2];
    assert w[t + 12] == w[t + 4..][8] && s[t + 12] == s[t + 4..][8];
  }

  /** The acknowledgement tests of etherSendTcpResponse (tcp.c:147-158), on
      the frame in the buffer; `received` is the payload size taken before
      the exchange. */
  method ReadInboundAck(packet: array<bv8>, received: nat, ackToSend: nat) returns (ack: nat)
    requires WellFormed(packet[..]) && received == PayloadSize(packet[..])
    ensures ack == InboundAck(packet[..], ackToSend)
  {
    var t := Transport(packet[..]);
    var incoming := packet[t + 13];
    var seqn := Num32(packet[t + 4..t + 8]);
    ack := ackToSend;
    if incoming & Push != 0 {
      ack := (seqn + received) % Mod32;
    } else if incoming & Syn != 0 {
      ack := (seqn + 1) % Mod32;
    } else if incoming & Fin != 0 {
      ack := (seqn + 1) % Mod32;
    }
  }

  /** The sequence-number tests shared by both send paths (tcp.c:160-176 and
      245-261): the number the segment carries and the new running number. */
  method NextSeqn(flags: bv8, n: nat, running: nat) returns (sent: nat, next: nat)
    ensures (sent, next) == OutboundSeq(flags, n, running)
  {
    sent := running;
    next := running;
    if flags & Push != 0 {
      next := (running + n) % Mod32;
    } else if flags & Syn != 0 {
      next := (running + 1) % Mod32;
    } else if flags & Fin != 0 {
      next := (running + 1) % Mod32;
    }
  }

  /** The work of etherSendTcpResponse on the buffer and on the connection
      `c` (tcp.c:117-221): the frame it hands to the driver, and the
      connection's new sequence and acknowledgement numbers. */
  method RespondInPlace(packet: array<bv8>, c: Conn, data: seq<bv8>, flags: bv8, cks: seq<bv8> -> bv16) returns (next: Conn, frame: seq<bv8>)
    requires WellFormed(packet[..]) && ValidConn(c) && |data| < 0x100
    modifies packet
    ensures Reply(next, packet[..], frame) == Respond(c, old(packet[..]), data, flags, cks)
    ensures ValidConn(next)
  {
    ghost var s := packet[..];
    var t := Transport(packet[..]);
    var received := PayloadSize(packet[..]);
    SwapAddressFields(packet);
    SwapKeepsInboundAck(s, c.ackToSend);
    var ack := ReadInboundAck(packet, received, c.ackToSend);
    var sent, running := NextSeqn(flags, |data|, c.runningSeqn);
    WriteReply(packet, s, data, sent, ack, flags, cks);
    next := c.(runningSeqn := running, ackToSend := ack);
    frame := packet[..t + 20 + |data|];
  }

  /** The writes of etherSendTcpResponse after the exchange (tcp.c:178-224):
      the TCP header from byte 4 on, the IP length, then Finish. */
  method WriteReply(packet: array<bv8>, ghost s: seq<bv8>, data: seq<bv8>, seqn: nat, ack: nat, flags: bv8, cks: seq<bv8> -> bv16)
    requires WellFormed(s) && packet[..] == SwapAddresses(s) && |data| < 0x100
    modifies packet
    ensures packet[..] == ReplyBuffer(s, data, seqn, ack, flags, cks)
  {
    var t := Transport(packet[..]);
    var ihl := Ihl(packet[..]);
    Write(packet, t + 4, HeaderTail(seqn, ack, flags));
    Write(packet, IpLength, BE16N(4 * ihl + 20 + |data|));
    assert packet[..] == ReplyHeader(s, |data|, seqn, ack, flags);
    WriteChecksumsAndData(packet, data, cks);
  }

  // ---------------------------------------------------------------------
  // The endpoint
  // ---------------------------------------------------------------------

  /** The global tcpState together with the interface it sends through. */
  class TcpEngine {
    var state: bv8
    var runningSeqn: nat
    var myPort: nat
    var serverPort: nat
    var ackToSend: nat
    const link: Link

    function Current(): Conn
      reads this
    {
      Conn(state, runningSeqn, myPort, serverPort, ackToSend)
    }

    ghost predicate Valid()
      reads this, link
    {
      ValidConn(Current()) && link.Valid()
    }

    /** The initial tcpState (tcp.c:11-12). */
    constructor (link: Link)
      requires link.Valid()
      ensures Valid() && this.link == link
      ensures Current() == Conn(Listen, 0, InitialPort, 0, 0)
    {
      state := Listen;
      runningSeqn := 0;
      myPort := InitialPort;
      serverPort := 0;
      ackToSend := 0;
      this.link := link;
    }

    /** getTcpConnectionState (tcp.c:336-339). */
    function GetTcpConnectionState(): (r: bv8)
      requires Valid()
      reads this, link
      ensures r == Listen || r == SynSent || r == Established
    {
      state
    }

    /** resetTcpStateTimer (tcp.c:14-21). */
    method ResetTcpStateTimer(rnd: nat)
      requires Valid()
      modifies this
      ensures Valid() && Current() == Reset(rnd)
    {
      runningSeqn := 0;
      myPort := rnd % Mod16;
      serverPort := MqttServerPort;
      ackToSend := 0;
      state := Listen;
    }

    /** etherSendTcpResponse (tcp.c:117-226): rewrites the received frame into
        the reply in place and sends it. */
    method EtherSendTcpResponse(packet: array<bv8>, data: seq<bv8>, flags: bv8)
      requires Valid() && WellFormed(packet[..]) && |data| < 0x100
      modifies this, packet, link`sent
      ensures Valid()
      ensures var r := Respond(old(Current()), old(packet[..]), data, flags, link.checksum);
              Current() == r.conn && packet[..] == r.buf && link.sent == old(link.sent) + [r.frame]
    {
      var c, frame := RespondInPlace(packet, Current(), data, flags, link.checksum);
      runningSeqn := c.runningSeqn;
      ackToSend := c.ackToSend;
      link.PutPacket(frame);
    }

    /** The handler's progress through processTcpMessage: the fields, the
        buffer and the frames sent since `sent0` are those of `o`. */
    ghost predicate Tracks(o: Outcome, packet: array<bv8>, sent0: seq<seq<bv8>>)
      reads this, packet, link
    {
      Current() == o.conn && packet[..] == o.buf && link.sent == sent0 + o.replies
    }

    /** One etherSendTcpResponse(packet, 0, 0, flags) inside the handler. */
    method AnswerStep(packet: array<bv8>, flags: bv8, ghost o: Outcome, ghost sent0: seq<seq<bv8>>) returns (ghost a: Outcome)
      requires Valid() && WellFormed(packet[..]) && Tracks(o, packet, sent0)
      modifies this, packet, link`sent
      ensures Valid() && a == Answer(o, flags, link.checksum) && Tracks(a, packet, sent0)
    {
      ghost var r := Respond(o.conn, o.buf, [], flags, link.checksum);
      EtherSendTcpResponse(packet, [], flags);
      a := o.(conn := r.conn, buf := r.buf, replies := o.replies + [r.frame]);
      assert sent0 + a.replies == (sent0 + o.replies) + [r.frame];
    }

    /** processTcpMessage (tcp.c:41-107). The call into the MQTT client
        (tcp.c:109-112) is left to the caller: `dispatch` says whether it is made. */
    method ProcessTcpMessage(packet: array<bv8>, rnd: nat) returns (dispatch: bool)
      requires Valid() && WellFormed(packet[..])
      modifies this, packet, link`sent
      ensures Valid()
      ensures var o := Process(old(Current()), old(packet[..]), rnd, link.checksum);
              Current() == o.conn && packet[..] == o.buf && link.sent == old(link.sent) + o.replies && dispatch == o.mqtt
    {
      dispatch := false;
      if state == Listen {
        HandleListen(packet, rnd);
      } else if state == SynSent {
        HandleSynSent(packet);
      } else if state == Established {
        dispatch := HandleEstablished(packet);
      }
    }

    /** The LISTEN case of processTcpMessage. */
    method HandleListen(packet: array<bv8>, rnd: nat)
      requires Valid() && WellFormed(packet[..])
      modifies this, packet, link`sent
      ensures Valid()
      ensures var o := ProcessListen(old(packet[..]), rnd, link.checksum);
              Current() == o.conn && packet[..] == o.buf && link.sent == old(link.sent) + o.replies && !o.mqtt
    {
      ghost var sent0 := link.sent;
      ghost var cks := link.checksum;
      ResetTcpStateTimer(rnd);
      ghost var o := Outcome(Reset(rnd), packet[..], [], false);
      if HasFlag(packet[..], Syn) {
        o := AnswerStep(packet, Syn | Ack, o, sent0);
        state := Established;
        o := WithState(o, Established);
      }
      if HasFlag(packet[..], Syn) && HasFlag(packet[..], Ack) {
        o := AnswerStep(packet, Ack, o, sent0);
        state := Established;
        o := WithState(o, Established);
      }
    }

    /** The SYN_SENT case of processTcpMessage. */
    method HandleSynSent(packet: array<bv8>)
      requires Valid() && WellFormed(packet[..])
      modifies this, packet, link`sent
      ensures Valid()
      ensures var o := ProcessSynSent(old(Current()), old(packet[..]), link.checksum);
              Current() == o.conn && packet[..] == o.buf && link.sent == old(link.sent) + o.replies && !o.mqtt
    {
      ghost var o := Outcome(Current(), packet[..], [], false);
      if HasFlag(packet[..], Syn) && HasFlag(packet[..], Ack) {
        o := AnswerStep(packet, Ack, o, link.sent);
        state := Established;
        o := WithState(o, Established);
      }
    }

    /** The ESTABLISHED case of processTcpMessage. */
    method HandleEstablished(packet: array<bv8>) returns (dispatch: bool)
      requires Valid() && WellFormed(packet[..])
      modifies this, packet, link`sent
      ensures Valid()
      ensures var o := ProcessEstablished(old(Current()), old(packet[..]), link.checksum);
              Current() == o.conn && packet[..] == o.buf && link.sent == old(link.sent) + o.replies && dispatch == o.mqtt
    {
      ghost var sent0 := link.sent;
      ghost var o := Outcome(Current(), packet[..], [], false);
      dispatch := false;
      if HasFlag(packet[..], Fin) && HasFlag(packet[..], Ack) {
        state := Listen;
        o := WithState(o, Listen);
        o := AnswerStep(packet, Ack, o, sent0);
      }
      if HasFlag(packet[..], Fin) {
        state := Listen;
        o := WithState(o, Listen);
        o := AnswerStep(packet, Fin | Ack, o, sent0);
      }
      if HasFlag(packet[..], Push) {
        var m := EtherIsMqtt(packet[..]) && PayloadSize(packet[..]) != 0;
        if m {
          dispatch := true;
        }
        o := AnswerStep(packet, Ack, o, sent0);
        o := o.(mqtt := m);
      }
    }

    /** sendTcpPacket (tcp.c:228-334): builds a new segment in a fresh frame
        buffer, whose contents start out unspecified, and sends it. */
    method SendTcpPacket(data: seq<bv8>, flags: bv8, serverMac: seq<bv8>, serverIp: seq<bv8>, destPort: nat)
      requires Valid() && |data| < 0x100 && |serverMac| == HwAddLength && |serverIp| == IpAddLength && destPort < Mod16
      modifies this, link`sent
      ensures Valid()
      ensures Current() == old(Current()).(runningSeqn := OutboundSeq(flags, |data|, old(runningSeqn)).1)
      ensures |link.sent| == |old(link.sent)| + 1 && link.sent[..|old(link.sent)|] == old(link.sent)
      ensures var f := link.sent[|old(link.sent)|];
              Segment(f, old(runningSeqn), ackToSend, flags, data, link.checksum)
              && Addressed(f, serverMac, link.macAddress, link.ipAddress, serverIp, myPort, destPort)
    {
      var packet := new bv8[MaxPacketSize];
      var n := |data|;
      var sent, next := NextSeqn(flags, n, runningSeqn);
      runningSeqn := next;
      WriteNewSegment(packet, serverMac, link.macAddress, link.ipAddress, serverIp, myPort, destPort, sent, ackToSend, flags, data, link.checksum);
      var frame := packet[..54 + n];
      link.PutPacket(frame);
      assert link.sent[|old(link.sent)|] == frame;
    }

    /** establishConnection (tcp.c:342-349): a fresh connection in SYN_SENT
        whose SYN carries sequence number 0. */
    method EstablishConnection(serverMac: seq<bv8>, serverIp: seq<bv8>, destPort: nat, rnd: nat)
      requires Valid() && |serverMac| == HwAddLength && |serverIp| == IpAddLength && destPort < Mod16
      modifies this, link`sent
      ensures Valid() && Current() == Conn(SynSent, 1, rnd % Mod16, destPort, 0)
      ensures |link.sent| == |old(link.sent)| + 1 && link.sent[..|old(link.sent)|] == old(link.sent)
      ensures var f := link.sent[|old(link.sent)|];
              Segment(f, 0, 0, Syn, [], link.checksum)
              && Addressed(f, serverMac, link.macAddress, link.ipAddress, serverIp, rnd % Mod16, destPort)
    {
      ResetTcpStateTimer(rnd);
      state := SynSent;
      serverPort := destPort;
      SendTcpPacket([], Syn, serverMac, serverIp, destPort);
    }
  }
}

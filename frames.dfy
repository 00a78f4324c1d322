/** The fixed-layout overlays of common.h:37-89 read off a raw Ethernet frame:
    the 14-byte Ethernet header, the IP header that follows it (its length in
    32-bit words is the low nibble of its first byte) and the transport header
    (TCP or UDP) that starts right after the IP header. Multi-byte fields are
    big-endian on the wire. */
module Frames {
  import opened Bytes

  // Ethernet header (etherFrame)
  const EtherDest: nat := 0
  const EtherSource: nat := 6
  const EtherType: nat := 12
  const IpStart: nat := 14

  // IP header (ipFrame), as absolute offsets into the frame
  const IpRevSize: nat := 14
  const IpTypeOfService: nat := 15
  const IpLength: nat := 16
  const IpId: nat := 18
  const IpFlagsAndOffset: nat := 20
  const IpTtl: nat := 22
  const IpProtocol: nat := 23
  const IpChecksum: nat := 24
  const IpSource: nat := 26
  const IpDest: nat := 30

  const ProtocolTcp: bv8 := 6
  const ProtocolUdp: bv8 := 17

  /** A packet buffer as the receive and send paths use it. */
  predicate IsFrame(s: seq<bv8>)
  {
    |s| == MaxPacketSize
  }

  /** The IP header length in 32-bit words (ip->revSize & 0xF). */
  function Ihl(s: seq<bv8>): (n: nat)
    requires |s| > IpRevSize
    ensures n < 16
  {
    (s[IpRevSize] & 0xF) as nat
  }

  /** Where the transport header starts: ip + (revSize & 0xF) * 4. */
  function Transport(s: seq<bv8>): (t: nat)
    requires |s| > IpRevSize
    ensures IpStart <= t <= IpStart + 60
  {
    IpStart + 4 * Ihl(s)
  }

  /** A frame whose IP header is at least the 20 bytes of ipFrame, so that no
      transport field overlaps an IP field. */
  predicate WellFormed(s: seq<bv8>)
  {
    IsFrame(s) && Ihl(s) >= 5
  }

  /** The bytes the IP header checksum sums: the ten bytes from revSize up to
      the checksum field, then everything from the source address to the end
      of the header (etherSumWords(&ip->revSize, 10) and
      etherSumWords(ip->sourceIp, ihl * 4 - 12)). */
  function IpHeaderSpan(s: seq<bv8>): seq<bv8>
    requires |s| > IpRevSize && Ihl(s) >= 5 && Transport(s) <= |s|
  {
    s[IpRevSize..IpChecksum] + s[IpSource..Transport(s)]
  }

  function Field16(s: seq<bv8>, off: nat): bv16
    requires off + 2 <= |s|
  {
    U16(s[off..off + 2])
  }

  function Field32(s: seq<bv8>, off: nat): bv32
    requires off + 4 <= |s|
  {
    U32(s[off..off + 4])
  }

  function Protocol(s: seq<bv8>): bv8
    requires IsFrame(s)
  {
    s[IpProtocol]
  }

  /** ntohs(ip->length). */
  function IpTotalLength(s: seq<bv8>): bv16
    requires IsFrame(s)
  {
    Field16(s, IpLength)
  }

  /** ntohs(tcp->sourcePort), equally udp->sourcePort. */
  function SourcePort(s: seq<bv8>): bv16
    requires IsFrame(s)
  {
    Field16(s, Transport(s))
  }

  /** ntohs(tcp->destPort), equally udp->destPort. */
  function DestPort(s: seq<bv8>): bv16
    requires IsFrame(s)
  {
    Field16(s, Transport(s) + 2)
  }
}

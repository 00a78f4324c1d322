/** The DHCP client of dhcp.c: the client side of the state machine of
    section 4.4 of RFC 2131 (INIT, SELECTING, REQUESTING, IPVALIDATING,
    BOUND, RENEWING, REBINDING), the option walk over a received message,
    the builder of DISCOVER, REQUEST, RELEASE and DECLINE, and the timers the
    client arms. */
module Dhcp {
  import opened Bytes
  import opened Platform
  import opened Frames
  import Tcp

  // Client states (dhcp.h:10-16)
  const Init: bv8 := 1
  const Selecting: bv8 := 2
  const Requesting: bv8 := 3
  const Bound: bv8 := 4
  const Rebinding: bv8 := 5
  const Renewing: bv8 := 6
  const IpValidating: bv8 := 7

  // Message types (dhcp.c:26-32)
  const DhcpDiscover: bv8 := 1
  const DhcpOffer: bv8 := 2
  const DhcpRequest: bv8 := 3
  const DhcpDecline: bv8 := 4
  const DhcpAck: bv8 := 5
  const DhcpNak: bv8 := 6
  const DhcpRelease: bv8 := 7

  // Option codes (dhcp.c:12-23)
  const OptPad: bv8 := 0
  const OptSubnetMask: bv8 := 1
  const OptRouter: bv8 := 3
  const OptDns: bv8 := 6
  const OptHostName: bv8 := 12
  const OptDomainName: bv8 := 15
  const OptRequestedIp: bv8 := 50
  const OptLeaseTime: bv8 := 51
  const OptMessageType: bv8 := 53
  const OptServerIdentifier: bv8 := 54
  const OptParameterList: bv8 := 55
  const OptClientIdentifier: bv8 := 61
  const OptEnd: bv8 := 255

  const MagicCookie: bv32 := 0x63825363
  const TransactionId: bv32 := 0x21274a1d
  /** The options field as RFC 2132 sizes it; the walk never starts an option at or past it. */
  const MaxOptionsSize: nat := 312
  const ClientPort: bv16 := 68
  const ServerPort: bv16 := 67
  /** sizeof(dhcpFrame): the fixed part up to and including the magic cookie. */
  const FixedSize: nat := 240

  const DiscoverPeriod: Seconds := 20
  const RequestPeriod: Seconds := 20
  const ProbePeriod: Seconds := 5
  const ProbeTime: Seconds := 15

  /** offerData (dhcp.c:74-90): what the last received message offered. */
  datatype Offer = Offer(
    leaseTime: bv32,
    offeredIp: IpAddress,
    serverIdentifier: IpAddress,
    serverHWAddress: MacAddress,
    subnet: IpAddress,
    router: IpAddress,
    dns: IpAddress,
    ipInUse: bool)

  /** The initial offerData. */
  function InitialOffer(): Offer
  {
    Offer(0, [0, 0, 0, 0], [0, 0, 0, 0], [0xFF, 0xFF, 0xFF, 0xFF, 0xFF, 0xFF], [0, 0, 0, 0], [0, 0, 0, 0], [0, 0, 0, 0], false)
  }

  /** What the option walk reports: the message type and the updated offer. */
  datatype Parsed = Parsed(msgType: bv8, offer: Offer)

  // ---------------------------------------------------------------------
  // Receiving
  // ---------------------------------------------------------------------

  /** Where the DHCP message of a received frame starts (udp->data). */
  function DhcpStart(s: seq<bv8>): (d: nat)
    requires IsFrame(s)
    ensures d == Transport(s) + 8 && d + FixedSize + MaxOptionsSize + 6 <= |s|
  {
    Transport(s) + 8
  }

  /** The bytes from the options field of a received frame to its end. */
  function OptionsOf(s: seq<bv8>): (o: seq<bv8>)
    requires IsFrame(s)
    ensures |o| >= MaxOptionsSize + 6
  {
    s[DhcpStart(s) + FixedSize..]
  }

  /** etherIsDhcp (dhcp.c:387-403): UDP, from the server port, carrying the
      client's transaction id. */
  predicate EtherIsDhcp(s: seq<bv8>)
    requires IsFrame(s)
  {
    Protocol(s) == ProtocolUdp && SourcePort(s) == ServerPort
    && Field32(s, DhcpStart(s) + 4) == TransactionId
  }

  /** The DHCP and the TCP classifier never both claim a frame. */
  lemma DhcpIsNotTcp(s: seq<bv8>)
    requires IsFrame(s) && EtherIsDhcp(s)
    ensures !Tcp.EtherIsTcp(s)
  {
  }

  /** One option as the walk applies it: `v` is the four bytes after the
      code and length (dhcp.c:148-177). Only the message type, server
      identifier, lease time, subnet mask, router and DNS options are copied;
      the copy is four bytes (one for the type) whatever the option's length. */
  function ApplyOption(code: bv8, v: seq<bv8>, p: Parsed): (r: Parsed)
    requires |v| == 4
  {
    if code == OptMessageType then p.(msgType := v[0])
    else if code == OptServerIdentifier then p.(offer := p.offer.(serverIdentifier := v))
    else if code == OptLeaseTime then p.(offer := p.offer.(leaseTime := U32(v)))
    else if code == OptSubnetMask then p.(offer := p.offer.(subnet := v))
    else if code == OptRouter then p.(offer := p.offer.(router := v))
    else if code == OptDns then p.(offer := p.offer.(dns := v))
    else p
  }

  /** The option walk of processReceivedDhcpPacket from index `i` of the
      options field (dhcp.c:138-178): it stops at code 255 or 0, or once the
      index reaches 312, and otherwise applies the option and skips its
      code, length and value. */
  function Walk(o: seq<bv8>, i: nat, p: Parsed): Parsed
    requires |o| >= MaxOptionsSize + 6
    decreases MaxOptionsSize - i
  {
    if i >= MaxOptionsSize || o[i] == OptEnd || o[i] == OptPad then p
    else Walk(o, i + 2 + o[i + 1] as nat, ApplyOption(o[i], o[i + 2..i + 6], p))
  }

  /** processReceivedDhcpPacket (dhcp.c:126-184): the walk starts from
      message type 0, then the offered address and the server's hardware
      address are taken from the frame and the address counts as not in use. */
  function Parse(s: seq<bv8>, offer: Offer): (r: Parsed)
    requires IsFrame(s)
    ensures r.offer.offeredIp == s[DhcpStart(s) + 16..DhcpStart(s) + 20]
    ensures r.offer.serverHWAddress == s[EtherSource..EtherSource + 6] && !r.offer.ipInUse
  {
    var d := DhcpStart(s);
    var p := Walk(OptionsOf(s), 0, Parsed(0, offer));
    p.(offer := p.offer.(offeredIp := s[d + 16..d + 20], serverHWAddress := s[EtherSource..EtherSource + 6], ipInUse := false))
  }

  // ---------------------------------------------------------------------
  // Options as values
  // ---------------------------------------------------------------------

  /** One option: its code and its value. */
  datatype DhcpOption = DhcpOption(code: bv8, data: seq<bv8>)

  /** The bytes appendDhcpOption writes for `o`: code, length, value. */
  function OptionBytes(o: DhcpOption): (r: seq<bv8>)
    requires |o.data| < 0x100
    ensures |r| == |o.data| + 2
  {
    [o.code, Byte(|o.data|)] + o.data
  }

  /** Every value fits the one-byte length field. */
  predicate Encodable(os: seq<DhcpOption>)
  {
    os == [] || (|os[0].data| < 0x100 && Encodable(os[1..]))
  }

  /** The options one after the other. */
  function Encode(os: seq<DhcpOption>): (r: seq<bv8>)
    requires Encodable(os)
  {
    if os == [] then [] else OptionBytes(os[0]) + Encode(os[1..])
  }

  lemma {:induction false} EncodeAppend(os: seq<DhcpOption>, o: DhcpOption)
    requires Encodable(os) && |o.data| < 0x100
    ensures Encodable(os + [o]) && Encode(os + [o]) == Encode(os) + OptionBytes(o)
  {
    if os != [] {
      assert (os + [o])[1..] == os[1..] + [o];
      EncodeAppend(os[1..], o);
    }
  }

  /** How many value bytes the walk copies for an option code. */
  function Width(code: bv8): nat
  {
    if code == OptMessageType then 1
    else if code == OptServerIdentifier || code == OptLeaseTime || code == OptSubnetMask || code == OptRouter || code == OptDns then 4
    else 0
  }

  /** An option the walk reads as RFC 2132 lays it out: it is not END or
      PAD, and it is at least as long as the copy the walk makes. */
  predicate Readable(o: DhcpOption)
  {
    o.code != OptEnd && o.code != OptPad && Width(o.code) <= |o.data| < 0x100
  }

  predicate AllReadable(os: seq<DhcpOption>)
  {
    os == [] || (Readable(os[0]) && AllReadable(os[1..]))
  }

  lemma {:induction false} ReadableEncodable(os: seq<DhcpOption>)
    requires AllReadable(os)
    ensures Encodable(os)
    decreases |os|
  {
    if os != [] {
      ReadableEncodable(os[1..]);
    }
  }

  /** The four bytes the walk copies out of an option's value. */
  function Pad4(data: seq<bv8>): (w: seq<bv8>)
    ensures |w| == 4 && (|data| >= 4 ==> w == data[..4]) && (|data| >= 1 ==> w[0] == data[0])
  {
    (data + [0, 0, 0, 0])[..4]
  }

  /** The meaning of an option list: each option in turn sets the field it
      carries. */
  function Fold(os: seq<DhcpOption>, p: Parsed): Parsed
    requires AllReadable(os)
  {
    if os == [] then p
    else Fold(os[1..], ApplyOption(os[0].code, Pad4(os[0].data), p))
  }

  /** Which bytes of the walk's result the option code `code` sets. */
  function FieldOf(code: bv8, p: Parsed): seq<bv8>
  {
    if code == OptMessageType then [p.msgType]
    else if code == OptServerIdentifier then p.offer.serverIdentifier
    else if code == OptLeaseTime then BE32(p.offer.leaseTime)
    else if code == OptSubnetMask then p.offer.subnet
    else if code == OptRouter then p.offer.router
    else if code == OptDns then p.offer.dns
    else []
  }

  /** The value the last option with code `code` carries, `dflt` when none does. */
  function LastValue(os: seq<DhcpOption>, code: bv8, dflt: seq<bv8>): seq<bv8>
    requires AllReadable(os)
  {
    if os == [] then dflt
    else LastValue(os[1..], code, if os[0].code == code then os[0].data[..Width(code)] else dflt)
  }

  /** One option sets exactly the field of its own code to its value. */
  lemma ApplySets(o: DhcpOption, p: Parsed, code: bv8)
    requires Readable(o) && Width(code) > 0
    ensures var r := ApplyOption(o.code, Pad4(o.data), p);
            FieldOf(code, r) == if o.code == code then o.data[..Width(code)] else FieldOf(code, p)
  {
    var v := Pad4(o.data);
    if o.code == code && code == OptLeaseTime {
      assert v == o.data[..4];
      U32Inverse(v);
    }
  }

  /** Every copied field ends up as the value of the last option carrying
      it, and keeps its previous value when no option does. */
  lemma {:induction false} FoldIsLastValue(os: seq<DhcpOption>, p: Parsed, code: bv8)
    requires AllReadable(os)
    requires Width(code) > 0
    ensures FieldOf(code, Fold(os, p)) == LastValue(os, code, FieldOf(code, p))
  {
    if os != [] {
      var q := ApplyOption(os[0].code, Pad4(os[0].data), p);
      ApplySets(os[0], p, code);
      FoldIsLastValue(os[1..], q, code);
    }
  }

  /** One option at index `i` of the options field: the walk applies it and
      resumes right after it. */
  lemma WalkStep(o: seq<bv8>, i: nat, op: DhcpOption, p: Parsed)
    requires |o| >= MaxOptionsSize + 6 && i < MaxOptionsSize && Readable(op)
    requires i + |op.data| + 2 <= |o| && o[i..i + |op.data| + 2] == OptionBytes(op)
    ensures Walk(o, i, p) == Walk(o, i + |op.data| + 2, ApplyOption(op.code, Pad4(op.data), p))
  {
    var b := OptionBytes(op);
    assert o[i] == b[0] && o[i + 1] == b[1];
    ByteValue(|op.data|);
    var v := o[i + 2..i + 6];
    forall k | 0 <= k < Width(op.code) ensures v[k] == op.data[k] {
      assert v[k] == o[i + 2 + k] == b[2 + k];
    }
    assert v[..Width(op.code)] == op.data[..Width(op.code)];
    ApplyWindow(op, v, Pad4(op.data), p);
  }

  /** The walk over options laid out one after another from index `i` and
      closed by END or PAD applies them all in order, provided the closing
      code lies inside the 312 bytes the walk looks at. */
  lemma {:induction false} WalkEncoded(o: seq<bv8>, i: nat, os: seq<DhcpOption>, p: Parsed)
    requires AllReadable(os)
    requires Encodable(os) && |o| >= MaxOptionsSize + 6 && i + |Encode(os)| < MaxOptionsSize
    requires o[i..i + |Encode(os)|] == Encode(os)
    requires o[i + |Encode(os)|] == OptEnd || o[i + |Encode(os)|] == OptPad
    ensures Walk(o, i, p) == Fold(os, p)
    decreases |os|
  {
    if os != [] {
      SplitEncoded(o, i, os);
      WalkStep(o, i, os[0], p);
      WalkEncoded(o, i + |os[0].data| + 2, os[1..], ApplyOption(os[0].code, Pad4(os[0].data), p));
    }
  }

  /** The bytes of an option list in the options field are the bytes of its
      first option followed by the bytes of the rest. */
  lemma SplitEncoded(o: seq<bv8>, i: nat, os: seq<DhcpOption>)
    requires os != [] && Encodable(os) && i + |Encode(os)| <= |o|
    requires o[i..i + |Encode(os)|] == Encode(os)
    ensures Encodable(os[1..]) && |os[0].data| < 0x100
    ensures |Encode(os)| == |os[0].data| + 2 + |Encode(os[1..])|
    ensures o[i..i + |os[0].data| + 2] == OptionBytes(os[0])
    ensures o[i + |os[0].data| + 2..i + |Encode(os)|] == Encode(os[1..])
  {
    var b := OptionBytes(os[0]);
    var e := Encode(os[1..]);
    assert Encode(os) == b + e;
    SplitSlice(o, i, b, e);
  }

  /** Two pieces lying one after the other in `o` from index `i`. */
  lemma SplitSlice(o: seq<bv8>, i: nat, b: seq<bv8>, e: seq<bv8>)
    requires i + |b| + |e| <= |o| && o[i..i + |b| + |e|] == b + e
    ensures o[i..i + |b|] == b && o[i + |b|..i + |b| + |e|] == e
  {
    SliceOfSlice(o, i, i + |b| + |e|, 0, |b|);
    SliceOfSlice(o, i, i + |b| + |e|, |b|, |b| + |e|);
  }

  /** The walk's four-byte window and the option's padded value agree on
      every byte the option's code copies. */
  lemma ApplyWindow(o: DhcpOption, v: seq<bv8>, w: seq<bv8>, p: Parsed)
    requires Readable(o) && |v| == 4 && |w| == 4
    requires v[..Width(o.code)] == o.data[..Width(o.code)] && w[..Width(o.code)] == o.data[..Width(o.code)]
    ensures ApplyOption(o.code, v, p) == ApplyOption(o.code, w, p)
  {
    if Width(o.code) == 1 {
      assert v[0] == v[..1][0] && w[0] == w[..1][0];
    } else if Width(o.code) == 4 {
      assert v == v[..4] && w == w[..4];
    }
  }

  /** A received frame whose options field holds `os` closed by END or PAD
      parses to the fold of `os` (for the message type and the copied
      fields) with the offered address and the server's hardware address
      read from the frame. */
  lemma ParseEncoded(s: seq<bv8>, os: seq<DhcpOption>, offer: Offer)
    requires IsFrame(s) && AllReadable(os) && Encodable(os) && |Encode(os)| < MaxOptionsSize
    requires OptionsOf(s)[..|Encode(os)|] == Encode(os)
    requires OptionsOf(s)[|Encode(os)|] == OptEnd || OptionsOf(s)[|Encode(os)|] == OptPad
    ensures var r := Fold(os, Parsed(0, offer));
            Parse(s, offer) == r.(offer := r.offer.(offeredIp := s[DhcpStart(s) + 16..DhcpStart(s) + 20],
                                                   serverHWAddress := s[EtherSource..EtherSource + 6], ipInUse := false))
  {
    var o := OptionsOf(s);
    assert o[0..|Encode(os)|] == Encode(os);
    WalkEncoded(o, 0, os, Parsed(0, offer));
  }

  // ---------------------------------------------------------------------
  // Sending: sendDhcpMessage (dhcp.c:187-361)
  // ---------------------------------------------------------------------

  // Frame offsets of the UDP header and the DHCP message (20-byte IP header)
  const UdpStart: nat := 34
  const UdpLength: nat := 38
  const UdpChecksum: nat := 40
  const DhcpData: nat := 42
  const OptionsStart: nat := 282

  const ClientIdentifier: seq<bv8> := [1, 2, 3, 4, 5, 6, 131]
  /** req_ip: the fixed address DISCOVER and DECLINE carry as requested address. */
  const FixedRequestedIp: seq<bv8> := [192, 168, 0, 131]
  const ParameterRequestList: seq<bv8> := [OptSubnetMask, OptRouter, OptDns, OptDomainName]
  /** "IoT Node" as ASCII. */
  const HostName: seq<bv8> := [0x49, 0x6f, 0x54, 0x20, 0x4e, 0x6f, 0x64, 0x65]
  /** The END option as appendDhcpOption writes it: code 255, length 1, value 0. */
  const EndOption: DhcpOption := DhcpOption(OptEnd, [0])

  /** The options before END that each message type carries (dhcp.c:243-320).
      The server identifier condition of REQUEST (dhcp.c:271-272) holds in
      every state, so REQUEST always carries it. */
  function MessageContent(kind: bv8, offer: Offer): (os: seq<DhcpOption>)
    ensures AllReadable(os) && Encodable(os) && |Encode(os)| <= 60
  {
    var typ := DhcpOption(OptMessageType, [kind]);
    var client := DhcpOption(OptClientIdentifier, ClientIdentifier);
    var server := DhcpOption(OptServerIdentifier, offer.serverIdentifier);
    var params := DhcpOption(OptParameterList, ParameterRequestList);
    var os :=
      if kind == DhcpDiscover then [typ, client, DhcpOption(OptRequestedIp, FixedRequestedIp), params]
      else if kind == DhcpRequest then [typ, client, DhcpOption(OptRequestedIp, offer.offeredIp), server, DhcpOption(OptHostName, HostName), params]
      else if kind == DhcpRelease then [typ, server, client]
      else if kind == DhcpDecline then [DhcpOption(OptRequestedIp, FixedRequestedIp), server]
      else [];
    SmallLists(os);
    os
  }

  /** Lists of at most six readable options of at most eight value bytes
      are readable, encodable and at most 60 bytes long. */
  lemma SmallLists(os: seq<DhcpOption>)
    requires |os| <= 6 && forall k :: 0 <= k < |os| ==> Readable(os[k]) && |os[k].data| <= 8
    ensures AllReadable(os) && Encodable(os) && |Encode(os)| <= 60
  {
    ReadableFromIndex(os);
    ReadableEncodable(os);
    OptionsSize(os);
    SizeBound(os);
  }

  lemma {:induction false} ReadableFromIndex(os: seq<DhcpOption>)
    requires forall k :: 0 <= k < |os| ==> Readable(os[k])
    ensures AllReadable(os)
    decreases |os|
  {
    if os != [] {
      assert forall k :: 0 <= k < |os[1..]| ==> os[1..][k] == os[k + 1];
      ReadableFromIndex(os[1..]);
    }
  }

  /** Every option list the client sends, END included. */
  function MessageOptions(kind: bv8, offer: Offer): (os: seq<DhcpOption>)
    ensures Encodable(os) && Encode(os) == Encode(MessageContent(kind, offer)) + [OptEnd, 1, 0]
  {
    var c := MessageContent(kind, offer);
    EncodeAppend(c, EndOption);
    ByteValue(1);
    c + [EndOption]
  }

  lemma {:induction false} SizeBound(os: seq<DhcpOption>)
    requires forall k :: 0 <= k < |os| ==> |os[k].data| <= 8
    ensures TotalSize(os) <= 10 * |os|
    decreases |os|
  {
    if os != [] {
      assert forall k :: 0 <= k < |os[1..]| ==> os[1..][k] == os[k + 1];
      SizeBound(os[1..]);
    }
  }

  /** The encoded length of a list: the sum of value lengths plus two per option. */
  function TotalSize(os: seq<DhcpOption>): nat
  {
    if os == [] then 0 else |os[0].data| + 2 + TotalSize(os[1..])
  }

  lemma {:induction false} OptionsSize(os: seq<DhcpOption>)
    requires Encodable(os)
    ensures |Encode(os)| == TotalSize(os)
    decreases |os|
  {
    if os != [] {
      OptionsSize(os[1..]);
    }
  }

  // ---------------------------------------------------------------------
  // Writing options: appendDhcpOption and the message switch
  // ---------------------------------------------------------------------

  /** appendDhcpOption (dhcp.c:117-124): writes code, length and value at
      `off` and returns the number of bytes written, as a uint8_t. */
  method AppendDhcpOption(packet: array<bv8>, off: nat, code: bv8, data: seq<bv8>) returns (n: nat)
    requires |data| < 0x100 && off + |data| + 2 <= packet.Length
    modifies packet
    ensures packet[..] == Put(old(packet[..]), off, OptionBytes(DhcpOption(code, data)))
    ensures n == (|data| + 2) % 0x100
  {
    Write(packet, off, [code, Byte(|data|)] + data);
    n := |data| + 2;
    if n >= 0x100 {
      n := n - 0x100;
    }
  }

  /** One `len += appendDhcpOption(&dhcp->options[len], ...)` step: the
      options field, which holds the first `i` options of `all`, grows by
      option `i`. */
  method AddOption(packet: array<bv8>, ghost s0: seq<bv8>, ghost all: seq<DhcpOption>, ghost i: nat, o: DhcpOption, len: nat)
    returns (len': nat)
    requires |s0| == MaxPacketSize && packet.Length == MaxPacketSize
    requires i < |all| && o == all[i] && |o.data| < 0x100 - 2 && Encodable(all[..i])
    requires len == |Encode(all[..i])| && OptionsStart + len + |o.data| + 2 <= MaxPacketSize
    requires packet[..] == Put(s0, OptionsStart, Encode(all[..i]))
    modifies packet
    ensures Encodable(all[..i + 1]) && len' == |Encode(all[..i + 1])| == len + |o.data| + 2
    ensures packet[..] == Put(s0, OptionsStart, Encode(all[..i + 1]))
  {
    var k := AppendDhcpOption(packet, OptionsStart + len, o.code, o.data);
    len' := len + k;
    assert all[..i + 1] == all[..i] + [o];
    EncodeAppend(all[..i], o);
    PutAfterAt(s0, OptionsStart, Encode(all[..i]), OptionBytes(o));
  }

  lemma {:induction false} EncodablePrefix(os: seq<DhcpOption>, i: nat)
    requires Encodable(os) && i <= |os|
    ensures Encodable(os[..i])
    decreases i
  {
    if i > 0 {
      assert os[..i][1..] == os[1..][..i - 1];
      EncodablePrefix(os[1..], i - 1);
    }
  }

  /** The option switch of sendDhcpMessage (dhcp.c:241-320): the options of
      message `kind`, END included, from the start of the options field;
      `len` is the number of bytes written. */
  method WriteOptions(packet: array<bv8>, kind: bv8, offer: Offer) returns (len: nat)
    requires packet.Length == MaxPacketSize
    modifies packet
    ensures packet[..] == Put(old(packet[..]), OptionsStart, Encode(MessageOptions(kind, offer)))
    ensures len == |Encode(MessageOptions(kind, offer))|
  {
    if kind == DhcpDiscover {
      len := WriteDiscoverOptions(packet, offer);
    } else if kind == DhcpRequest {
      len := WriteRequestOptions(packet, offer);
    } else if kind == DhcpRelease {
      len := WriteReleaseOptions(packet, offer);
    } else if kind == DhcpDecline {
      len := WriteDeclineOptions(packet, offer);
    } else {
      ghost var s0 := packet[..];
      ghost var all := MessageOptions(kind, offer);
      assert all == [EndOption] && all[..0] == [];
      var option: bv8 := 0;
      len := AddOption(packet, s0, all, 0, DhcpOption(OptEnd, [option]), 0);
      assert all[..1] == all;
    }
  }

  /** The DHCPDISCOVER case (dhcp.c:245-260). */
  method WriteDiscoverOptions(packet: array<bv8>, offer: Offer) returns (len: nat)
    requires packet.Length == MaxPacketSize
    modifies packet
    ensures packet[..] == Put(old(packet[..]), OptionsStart, Encode(MessageOptions(DhcpDiscover, offer)))
    ensures len == |Encode(MessageOptions(DhcpDiscover, offer))|
  {
    ghost var s0 := packet[..];
    ghost var all := MessageOptions(DhcpDiscover, offer);
    var option := DhcpDiscover;
    var typ := DhcpOption(OptMessageType, [option]);
    assert all == [typ, DhcpOption(OptClientIdentifier, ClientIdentifier), DhcpOption(OptRequestedIp, FixedRequestedIp),
                   DhcpOption(OptParameterList, ParameterRequestList), EndOption] && all[..0] == [];
    len := AddOption(packet, s0, all, 0, typ, 0);
    len := AddOption(packet, s0, all, 1, DhcpOption(OptClientIdentifier, ClientIdentifier), len);
    len := AddOption(packet, s0, all, 2, DhcpOption(OptRequestedIp, FixedRequestedIp), len);
    len := AddOption(packet, s0, all, 3, DhcpOption(OptParameterList, ParameterRequestList), len);
    option := 0;
    len := AddOption(packet, s0, all, 4, DhcpOption(OptEnd, [option]), len);
    assert all[..5] == all;
  }

  /** The DHCPREQUEST case (dhcp.c:262-287): the server identifier goes in
      whatever the state, the condition guarding it being always true. */
  method WriteRequestOptions(packet: array<bv8>, offer: Offer) returns (len: nat)
    requires packet.Length == MaxPacketSize
    modifies packet
    ensures packet[..] == Put(old(packet[..]), OptionsStart, Encode(MessageOptions(DhcpRequest, offer)))
    ensures len == |Encode(MessageOptions(DhcpRequest, offer))|
  {
    ghost var s0 := packet[..];
    ghost var all := MessageOptions(DhcpRequest, offer);
    var option := DhcpRequest;
    var typ := DhcpOption(OptMessageType, [option]);
    var server := DhcpOption(OptServerIdentifier, offer.serverIdentifier);
    assert all == [typ, DhcpOption(OptClientIdentifier, ClientIdentifier), DhcpOption(OptRequestedIp, offer.offeredIp), server,
                   DhcpOption(OptHostName, HostName), DhcpOption(OptParameterList, ParameterRequestList), EndOption] && all[..0] == [];
    len := AddOption(packet, s0, all, 0, typ, 0);
    len := AddOption(packet, s0, all, 1, DhcpOption(OptClientIdentifier, ClientIdentifier), len);
    len := AddOption(packet, s0, all, 2, DhcpOption(OptRequestedIp, offer.offeredIp), len);
    len := AddOption(packet, s0, all, 3, server, len);
    len := AddOption(packet, s0, all, 4, DhcpOption(OptHostName, HostName), len);
    len := AddOption(packet, s0, all, 5, DhcpOption(OptParameterList, ParameterRequestList), len);
    option := 0;
    len := AddOption(packet, s0, all, 6, DhcpOption(OptEnd, [option]), len);
    assert all[..7] == all;
  }

  /** The DHCPRELEASE case (dhcp.c:288-301). */
  method WriteReleaseOptions(packet: array<bv8>, offer: Offer) returns (len: nat)
    requires packet.Length == MaxPacketSize
    modifies packet
    ensures packet[..] == Put(old(packet[..]), OptionsStart, Encode(MessageOptions(DhcpRelease, offer)))
    ensures len == |Encode(MessageOptions(DhcpRelease, offer))|
  {
    ghost var s0 := packet[..];
    ghost var all := MessageOptions(DhcpRelease, offer);
    var option := DhcpRelease;
    var typ := DhcpOption(OptMessageType, [option]);
    var server := DhcpOption(OptServerIdentifier, offer.serverIdentifier);
    assert all == [typ, server, DhcpOption(OptClientIdentifier, ClientIdentifier), EndOption] && all[..0] == [];
    len := AddOption(packet, s0, all, 0, typ, 0);
    len := AddOption(packet, s0, all, 1, server, len);
    len := AddOption(packet, s0, all, 2, DhcpOption(OptClientIdentifier, ClientIdentifier), len);
    option := 0;
    len := AddOption(packet, s0, all, 3, DhcpOption(OptEnd, [option]), len);
    assert all[..4] == all;
  }

  /** The DHCPDECLINE case (dhcp.c:302-311): the requested address is the
      fixed req_ip, not the declined offer. */
  method WriteDeclineOptions(packet: array<bv8>, offer: Offer) returns (len: nat)
    requires packet.Length == MaxPacketSize
    modifies packet
    ensures packet[..] == Put(old(packet[..]), OptionsStart, Encode(MessageOptions(DhcpDecline, offer)))
    ensures len == |Encode(MessageOptions(DhcpDecline, offer))|
  {
    ghost var s0 := packet[..];
    ghost var all := MessageOptions(DhcpDecline, offer);
    var server := DhcpOption(OptServerIdentifier, offer.serverIdentifier);
    assert all == [DhcpOption(OptRequestedIp, FixedRequestedIp), server, EndOption] && all[..0] == [];
    len := AddOption(packet, s0, all, 0, DhcpOption(OptRequestedIp, FixedRequestedIp), 0);
    len := AddOption(packet, s0, all, 1, server, len);
    var option: bv8 := 0;
    len := AddOption(packet, s0, all, 2, DhcpOption(OptEnd, [option]), len);
    assert all[..3] == all;
  }

  // ---------------------------------------------------------------------
  // The frame around the options
  // ---------------------------------------------------------------------

  /** The fixed part of every message (dhcpFrame, dhcp.c:37-54, as
      sendDhcpMessage fills it at dhcp.c:199-229): a BOOTREQUEST for a 6-byte
      Ethernet address, hops 0, the transaction id, secs and flags 0, the
      client address `ciaddr`, zero your/server/gateway addresses, the MAC
      address padded to 16 bytes, 192 zero bytes and the magic cookie. */
  function DhcpHeader(mac: MacAddress, ciaddr: IpAddress): (h: seq<bv8>)
    ensures |h| == FixedSize
  {
    [1, 1, 6, 0] + BE32(TransactionId) + Fill(4, 0) + ciaddr + Fill(12, 0) + mac + Fill(10 + 192, 0) + BE32(MagicCookie)
  }

  /** The UDP payload of message `kind`: the fixed part and the options
      written, less the last two bytes (dhcpdatasize, dhcp.c:322), which
      leaves the END code as the last byte. */
  function DhcpBody(mac: MacAddress, ciaddr: IpAddress, kind: bv8, offer: Offer): (b: seq<bv8>)
    ensures FixedSize < |b| <= FixedSize + 61
  {
    var o := Encode(MessageOptions(kind, offer));
    DhcpHeader(mac, ciaddr) + o[..|o| - 2]
  }

  /** Frame bytes 0-17: the Ethernet header (to `serverMac`, from `mac`,
      IPv4), version 4 with a 20-byte header, TOS 0 and the IP total length
      for `n` payload bytes. */
  function EtherPart(serverMac: MacAddress, mac: MacAddress, n: nat): (e: seq<bv8>)
    ensures |e| == 18
  {
    serverMac + mac + [8, 0, 0x45, 0] + BE16N(28 + n)
  }

  /** Frame bytes 20-23: no fragmentation, TTL 128, protocol UDP. */
  const FixedIpPart: seq<bv8> := [0, 0, 128, ProtocolUdp]

  /** Frame bytes 26-39: the IP addresses, then the UDP ports (68 to 67) and
      the UDP length for `n` payload bytes. */
  function AddressPart(ip: IpAddress, serverIp: IpAddress, n: nat): (a: seq<bv8>)
    ensures |a| == 14
  {
    ip + serverIp + BE16(ClientPort) + BE16(ServerPort) + BE16N(8 + n)
  }

  /** The frame sendDhcpMessage hands to etherPutPacket for UDP payload
      `body`: `id` is the IP identification, which it never writes, and the
      two checksum fields hold the checksums of the IP header and of the UDP
      pseudo-header, header and payload, each without its own field. */
  function DhcpFrame(id: seq<bv8>, serverMac: MacAddress, mac: MacAddress, ip: IpAddress, serverIp: IpAddress,
                     body: seq<bv8>, cks: seq<bv8> -> bv16): (f: seq<bv8>)
    requires |id| == 2
    ensures |f| == DhcpData + |body|
  {
    var n := |body|;
    var e := EtherPart(serverMac, mac, n);
    var a := AddressPart(ip, serverIp, n);
    var ipSpan := e[IpRevSize..] + id + FixedIpPart + a[..8];
    var udpSpan := a[..8] + [0, ProtocolUdp] + a[12..] + a[8..] + body;
    e + id + FixedIpPart + ChecksumField(cks, ipSpan) + a + ChecksumField(cks, udpSpan) + body
  }

  /** The bytes the UDP checksum session of sendDhcpMessage sums over a
      buffer with `n` payload bytes (dhcp.c:350-357): both IP addresses, the
      protocol word, the UDP length, the UDP header without its checksum and
      the payload. */
  function UdpSpan(s: seq<bv8>, n: nat): seq<bv8>
    requires DhcpData + n <= |s|
  {
    s[IpSource..IpSource + 8] + [0, s[IpProtocol]] + s[UdpLength..UdpChecksum] + s[UdpStart..UdpChecksum] + s[DhcpData..DhcpData + n]
  }

  /** The header writes of sendDhcpMessage over a buffer `b` whose payload
      is already in place, then the two checksum fields: the frame is the
      written parts around the untouched identification field, and the two
      checksum sessions sum exactly the spans DhcpFrame names. */
  lemma FrameLayout(b: seq<bv8>, e: seq<bv8>, a: seq<bv8>, c1: seq<bv8>, c2: seq<bv8>, n: nat)
    requires |b| == MaxPacketSize && |e| == 18 && e[IpRevSize] == 0x45 && |a| == 14 && |c1| == 2 && |c2| == 2 && DhcpData + n <= |b|
    ensures var b5 := Put(Put(Put(b, EtherDest, e), IpFlagsAndOffset, FixedIpPart), IpSource, a);
            Ihl(b5) == 5 && IpHeaderSpan(b5) == e[IpRevSize..] + b[IpId..IpId + 2] + FixedIpPart + a[..8]
            && UdpSpan(Put(b5, IpChecksum, c1), n) == a[..8] + [0, ProtocolUdp] + a[12..] + a[8..] + b[DhcpData..DhcpData + n]
            && Put(Put(b5, IpChecksum, c1), UdpChecksum, c2)[..DhcpData + n]
               == e + b[IpId..IpId + 2] + FixedIpPart + c1 + a + c2 + b[DhcpData..DhcpData + n]
  {
    FrameSpans(b, e, a, c1, n);
    FramePrefix(b, e, a, c1, c2, n);
  }

  /** The two checksum spans of FrameLayout. */
  lemma FrameSpans(b: seq<bv8>, e: seq<bv8>, a: seq<bv8>, c1: seq<bv8>, n: nat)
    requires |b| == MaxPacketSize && |e| == 18 && e[IpRevSize] == 0x45 && |a| == 14 && |c1| == 2 && DhcpData + n <= |b|
    ensures var b5 := Put(Put(Put(b, EtherDest, e), IpFlagsAndOffset, FixedIpPart), IpSource, a);
            Ihl(b5) == 5 && IpHeaderSpan(b5) == e[IpRevSize..] + b[IpId..IpId + 2] + FixedIpPart + a[..8]
            && UdpSpan(Put(b5, IpChecksum, c1), n) == a[..8] + [0, ProtocolUdp] + a[12..] + a[8..] + b[DhcpData..DhcpData + n]
  {
    var b5 := Put(Put(Put(b, EtherDest, e), IpFlagsAndOffset, FixedIpPart), IpSource, a);
    var b6 := Put(b5, IpChecksum, c1);
    forall k | IpRevSize <= k < IpId ensures b5[k] == e[k] {
      LayoutAt(b, e, a, c1, c1, k);
    }
    forall k | IpId <= k < IpFlagsAndOffset ensures b5[k] == b[k] {
      LayoutAt(b, e, a, c1, c1, k);
    }
    forall k | IpFlagsAndOffset <= k < IpChecksum ensures b5[k] == b6[k] == FixedIpPart[k - IpFlagsAndOffset] {
      LayoutAt(b, e, a, c1, c1, k);
    }
    forall k | IpSource <= k < UdpChecksum ensures b5[k] == b6[k] == a[k - IpSource] {
      LayoutAt(b, e, a, c1, c1, k);
    }
    forall k | DhcpData <= k < DhcpData + n ensures b6[k] == b[k] {
      LayoutAt(b, e, a, c1, c1, k);
    }
    assert b5[IpRevSize] == 0x45;
    assert b5[IpRevSize..IpChecksum] == e[IpRevSize..] + b[IpId..IpId + 2] + FixedIpPart;
    assert b5[IpSource..UdpStart] == a[..8];
    assert b6[IpSource..UdpStart] == a[..8];
    assert b6[UdpLength..UdpChecksum] == a[12..];
    assert b6[UdpStart..UdpChecksum] == a[8..];
    assert b6[DhcpData..DhcpData + n] == b[DhcpData..DhcpData + n];
  }

  /** The frame prefix of FrameLayout. */
  lemma FramePrefix(b: seq<bv8>, e: seq<bv8>, a: seq<bv8>, c1: seq<bv8>, c2: seq<bv8>, n: nat)
    requires |b| == MaxPacketSize && |e| == 18 && |a| == 14 && |c1| == 2 && |c2| == 2 && DhcpData + n <= |b|
    ensures var b5 := Put(Put(Put(b, EtherDest, e), IpFlagsAndOffset, FixedIpPart), IpSource, a);
            Put(Put(b5, IpChecksum, c1), UdpChecksum, c2)[..DhcpData + n]
              == e + b[IpId..IpId + 2] + FixedIpPart + c1 + a + c2 + b[DhcpData..DhcpData + n]
  {
    var b5 := Put(Put(Put(b, EtherDest, e), IpFlagsAndOffset, FixedIpPart), IpSource, a);
    var b7 := Put(Put(b5, IpChecksum, c1), UdpChecksum, c2);
    forall k | 0 <= k < IpId ensures b7[k] == e[k] {
      LayoutAt(b, e, a, c1, c2, k);
    }
    forall k | IpId <= k < IpFlagsAndOffset ensures b7[k] == b[k] {
      LayoutAt(b, e, a, c1, c2, k);
    }
    forall k | IpFlagsAndOffset <= k < IpChecksum ensures b7[k] == FixedIpPart[k - IpFlagsAndOffset] {
      LayoutAt(b, e, a, c1, c2, k);
    }
    forall k | IpChecksum <= k < IpSource ensures b7[k] == c1[k - IpChecksum] {
      LayoutAt(b, e, a, c1, c2, k);
    }
    forall k | IpSource <= k < UdpChecksum ensures b7[k] == a[k - IpSource] {
      LayoutAt(b, e, a, c1, c2, k);
    }
    forall k | UdpChecksum <= k < DhcpData ensures b7[k] == c2[k - UdpChecksum] {
      LayoutAt(b, e, a, c1, c2, k);
    }
    forall k | DhcpData <= k < DhcpData + n ensures b7[k] == b[k] {
      LayoutAt(b, e, a, c1, c2, k);
    }
  }

  /** One byte of FrameLayout. */
  lemma LayoutAt(b: seq<bv8>, e: seq<bv8>, a: seq<bv8>, c1: seq<bv8>, c2: seq<bv8>, k: nat)
    requires |b| == MaxPacketSize && |e| == 18 && |a| == 14 && |c1| == 2 && |c2| == 2 && k < |b|
    ensures var b5 := Put(Put(Put(b, EtherDest, e), IpFlagsAndOffset, FixedIpPart), IpSource, a);
            var b6 := Put(b5, IpChecksum, c1);
            b6[k] == (if k == IpChecksum then c1[0] else if k == IpChecksum + 1 then c1[1] else b5[k])
            && Put(b6, UdpChecksum, c2)[k] == (if k == UdpChecksum then c2[0] else if k == UdpChecksum + 1 then c2[1] else b6[k])
            && b5[k] == (if k < 18 then e[k] else if k < 20 then b[k] else if k < 24 then FixedIpPart[k - 20]
                         else if IpSource <= k < UdpChecksum then a[k - IpSource] else b[k])
  {
    var b1 := Put(b, EtherDest, e);
    var b2 := Put(b1, IpFlagsAndOffset, FixedIpPart);
    var b5 := Put(b2, IpSource, a);
    PutAt(b, EtherDest, e, k);
    PutAt(b1, IpFlagsAndOffset, FixedIpPart, k);
    PutAt(b2, IpSource, a, k);
    PutAt(b5, IpChecksum, c1, k);
    PutAt(Put(b5, IpChecksum, c1), UdpChecksum, c2, k);
  }

  /** The body of sendDhcpMessage (dhcp.c:192-358) on its buffer: the fixed
      part and the options of message `kind`, then the UDP, IP and Ethernet
      headers and the two checksums. The result is the length handed to
      etherPutPacket. */
  method WriteDhcpFrame(packet: array<bv8>, serverMac: MacAddress, mac: MacAddress, ip: IpAddress, serverIp: IpAddress,
                        ciaddr: IpAddress, kind: bv8, offer: Offer, cks: seq<bv8> -> bv16) returns (size: nat)
    requires packet.Length == MaxPacketSize
    modifies packet
    ensures size == DhcpData + |DhcpBody(mac, ciaddr, kind, offer)| <= MaxPacketSize
    ensures packet[..size] == DhcpFrame(old(packet[IpId..IpId + 2]), serverMac, mac, ip, serverIp, DhcpBody(mac, ciaddr, kind, offer), cks)
  {
    ghost var b0 := packet[..];
    ghost var body := DhcpBody(mac, ciaddr, kind, offer);
    ghost var o := Encode(MessageOptions(kind, offer));
    var h := DhcpHeader(mac, ciaddr);
    Write(packet, DhcpData, h);
    var len := WriteOptions(packet, kind, offer);
    var n := FixedSize + len - 2;
    ghost var b2 := packet[..];
    BodyInPlace(b0, h, o, body, n);
    WriteHeaders(packet, serverMac, mac, ip, serverIp, n, cks);
    size := DhcpData + n;
  }

  /** The UDP, IP and Ethernet headers and the checksums of sendDhcpMessage
      (dhcp.c:322-358) around the `n` payload bytes already in the buffer. */
  method WriteHeaders(packet: array<bv8>, serverMac: MacAddress, mac: MacAddress, ip: IpAddress, serverIp: IpAddress,
                      n: nat, cks: seq<bv8> -> bv16)
    requires packet.Length == MaxPacketSize && DhcpData + n <= MaxPacketSize
    modifies packet
    ensures packet[..DhcpData + n] == DhcpFrame(old(packet[IpId..IpId + 2]), serverMac, mac, ip, serverIp, old(packet[DhcpData..DhcpData + n]), cks)
  {
    ghost var b := packet[..];
    var e := EtherPart(serverMac, mac, n);
    var a := AddressPart(ip, serverIp, n);
    Write(packet, EtherDest, e);
    Write(packet, IpFlagsAndOffset, FixedIpPart);
    Write(packet, IpSource, a);
    FrameLayout(b, e, a, [0, 0], [0, 0], n);
    var c1 := ChecksumField(cks, IpHeaderSpan(packet[..]));
    Write(packet, IpChecksum, c1);
    var c2 := ChecksumField(cks, UdpSpan(packet[..], n));
    Write(packet, UdpChecksum, c2);
    FrameLayout(b, e, a, c1, c2, n);
  }

  /** After the fixed part and the options are written, the first `n`
      payload bytes are the message body and the identification field is
      untouched. */
  lemma BodyInPlace(b0: seq<bv8>, h: seq<bv8>, o: seq<bv8>, body: seq<bv8>, n: nat)
    requires |b0| == MaxPacketSize && |h| == FixedSize && OptionsStart + |o| <= MaxPacketSize && |o| >= 2
    requires n == FixedSize + |o| - 2 && body == h + o[..|o| - 2]
    ensures var b2 := Put(Put(b0, DhcpData, h), OptionsStart, o);
            b2[DhcpData..DhcpData + n] == body && b2[IpId..IpId + 2] == b0[IpId..IpId + 2]
  {
    PutAfterAt(b0, DhcpData, h, o);
    PutPart(b0, DhcpData, h + o, DhcpData, DhcpData + n);
    PutOut(b0, DhcpData, h + o, IpId, IpId + 2);
    assert (h + o)[..n] == body;
  }

  // ---------------------------------------------------------------------
  // Reading a sent message back
  // ---------------------------------------------------------------------

  /** Where DhcpFrame puts what a receiver reads. */
  lemma FrameParts(id: seq<bv8>, serverMac: MacAddress, mac: MacAddress, ip: IpAddress, serverIp: IpAddress,
                   body: seq<bv8>, cks: seq<bv8> -> bv16)
    requires |id| == 2
    ensures var f := DhcpFrame(id, serverMac, mac, ip, serverIp, body, cks);
            f[IpRevSize] == 0x45 && f[IpProtocol] == ProtocolUdp
            && f[UdpStart..UdpStart + 2] == BE16(ClientPort) && f[UdpStart + 2..UdpStart + 4] == BE16(ServerPort)
            && f[DhcpData..] == body
  {
    var n := |body|;
    var e := EtherPart(serverMac, mac, n);
    var a := AddressPart(ip, serverIp, n);
    var f := DhcpFrame(id, serverMac, mac, ip, serverIp, body, cks);
    var ipSpan := e[IpRevSize..] + id + FixedIpPart + a[..8];
    var udpSpan := a[..8] + [0, ProtocolUdp] + a[12..] + a[8..] + body;
    var c1 := ChecksumField(cks, ipSpan);
    var c2 := ChecksumField(cks, udpSpan);
    assert f == e + id + FixedIpPart + c1 + a + c2 + body;
    assert f[UdpStart..UdpStart + 2] == a[8..10];
    assert f[UdpStart + 2..UdpStart + 4] == a[10..12];
  }

  /** Where DhcpBody puts the transaction id, the client address and the options. */
  lemma BodyParts(mac: MacAddress, ciaddr: IpAddress, kind: bv8, offer: Offer)
    ensures var b := DhcpBody(mac, ciaddr, kind, offer);
            var c := Encode(MessageContent(kind, offer));
            b[4..8] == BE32(TransactionId) && b[12..16] == ciaddr
            && b[FixedSize..FixedSize + |c|] == c && b[FixedSize + |c|] == OptEnd
  {
    var h := DhcpHeader(mac, ciaddr);
    var c := Encode(MessageContent(kind, offer));
    var o := Encode(MessageOptions(kind, offer));
    var b := DhcpBody(mac, ciaddr, kind, offer);
    assert o[..|o| - 2] == c + [OptEnd];
    assert b == h + (c + [OptEnd]);
    assert h[4..8] == BE32(TransactionId) && h[12..16] == ciaddr;
  }


  /** A server holding a message the client sent in its receive buffer sees
      UDP from port 68 to port 67 with the client's transaction id and
      client address, reads back exactly the options the client wrote, and
      does not take it for a server reply. */
  lemma SentMessageReadBack(s: seq<bv8>, id: seq<bv8>, serverMac: MacAddress, mac: MacAddress, ip: IpAddress, serverIp: IpAddress,
                            ciaddr: IpAddress, kind: bv8, offer: Offer, cks: seq<bv8> -> bv16, p: Parsed)
    requires IsFrame(s) && |id| == 2
    requires var f := DhcpFrame(id, serverMac, mac, ip, serverIp, DhcpBody(mac, ciaddr, kind, offer), cks);
             s[..|f|] == f
    ensures Ihl(s) == 5 && DhcpStart(s) == DhcpData && Protocol(s) == ProtocolUdp
    ensures SourcePort(s) == ClientPort && DestPort(s) == ServerPort && !EtherIsDhcp(s)
    ensures s[DhcpData + 4..DhcpData + 8] == BE32(TransactionId) && s[DhcpData + 12..DhcpData + 16] == ciaddr
    ensures Walk(OptionsOf(s), 0, p) == Fold(MessageContent(kind, offer), p)
  {
    var body := DhcpBody(mac, ciaddr, kind, offer);
    FrameParts(id, serverMac, mac, ip, serverIp, body, cks);
    BodyParts(mac, ciaddr, kind, offer);
    ReadBack(s, DhcpFrame(id, serverMac, mac, ip, serverIp, body, cks), body, ciaddr, MessageContent(kind, offer), p);
  }

  /** SentMessageReadBack for any frame and body with the fields FrameParts
      and BodyParts name. */
  lemma ReadBack(s: seq<bv8>, f: seq<bv8>, body: seq<bv8>, ciaddr: IpAddress, os: seq<DhcpOption>, p: Parsed)
    requires IsFrame(s) && |f| <= |s| && s[..|f|] == f && |f| > DhcpData
    requires f[IpRevSize] == 0x45 && f[IpProtocol] == ProtocolUdp
    requires f[UdpStart..UdpStart + 2] == BE16(ClientPort) && f[UdpStart + 2..UdpStart + 4] == BE16(ServerPort)
    requires f[DhcpData..] == body
    requires AllReadable(os) && Encodable(os) && FixedSize + |Encode(os)| < |body| && |Encode(os)| < MaxOptionsSize
    requires body[4..8] == BE32(TransactionId) && body[12..16] == ciaddr
    requires body[FixedSize..FixedSize + |Encode(os)|] == Encode(os) && body[FixedSize + |Encode(os)|] == OptEnd
    ensures Ihl(s) == 5 && DhcpStart(s) == DhcpData && Protocol(s) == ProtocolUdp
    ensures SourcePort(s) == ClientPort && DestPort(s) == ServerPort && !EtherIsDhcp(s)
    ensures s[DhcpData + 4..DhcpData + 8] == BE32(TransactionId) && s[DhcpData + 12..DhcpData + 16] == ciaddr
    ensures Walk(OptionsOf(s), 0, p) == Fold(os, p)
  {
    var c := Encode(os);
    var n := |f|;
    BE16Inverse(ClientPort);
    BE16Inverse(ServerPort);
    assert s[IpRevSize] == s[..n][IpRevSize] && s[IpProtocol] == s[..n][IpProtocol];
    SliceOfPrefix(s, n, UdpStart, UdpStart + 2);
    SliceOfPrefix(s, n, UdpStart + 2, UdpStart + 4);
    SliceOfPrefix(s, n, DhcpData + 4, DhcpData + 8);
    SliceOfPrefix(s, n, DhcpData + 12, DhcpData + 16);
    SliceOfPrefix(s, n, OptionsStart, OptionsStart + |c|);
    SliceOfSuffix(f, DhcpData, 4, 8);
    SliceOfSuffix(f, DhcpData, 12, 16);
    SliceOfSuffix(f, DhcpData, FixedSize, FixedSize + |c|);
    assert s[OptionsStart + |c|] == s[..n][OptionsStart + |c|] == f[DhcpData..][FixedSize + |c|];
    var o := OptionsOf(s);
    SliceOfSuffix(s, OptionsStart, 0, |c|);
    assert o[..|c|] == o[0..|c|];
    WalkEncoded(o, 0, os, p);
  }

  /** The value of the last option carrying `code` is the value of option
      `i` when no later option carries it, */
  lemma {:induction false} LastValueAt(os: seq<DhcpOption>, code: bv8, dflt: seq<bv8>, i: nat)
    requires AllReadable(os) && i < |os| && os[i].code == code && Width(code) <= |os[i].data|
    requires forall j :: i < j < |os| ==> os[j].code != code
    ensures LastValue(os, code, dflt) == os[i].data[..Width(code)]
    decreases |os|
  {
    var d := if os[0].code == code then os[0].data[..Width(code)] else dflt;
    if i == 0 {
      LastValueNone(os[1..], code, d);
    } else {
      LastValueAt(os[1..], code, d, i - 1);
    }
  }

  /** and `dflt` when no option does. */
  lemma {:induction false} LastValueNone(os: seq<DhcpOption>, code: bv8, dflt: seq<bv8>)
    requires AllReadable(os) && forall j :: 0 <= j < |os| ==> os[j].code != code
    ensures LastValue(os, code, dflt) == dflt
    decreases |os|
  {
    if os != [] {
      LastValueNone(os[1..], code, dflt);
    }
  }

  /** What the options of each message say to the server that reads them:
      DISCOVER, REQUEST and RELEASE carry their own message type; DECLINE
      carries none, so a reader keeps whatever type it had. */
  lemma ContentMessageType(kind: bv8, offer: Offer, p: Parsed)
    ensures var r := Fold(MessageContent(kind, offer), p);
            (kind == DhcpDiscover || kind == DhcpRequest || kind == DhcpRelease ==> r.msgType == kind)
            && (kind == DhcpDecline ==> r.msgType == p.msgType)
  {
    var os := MessageContent(kind, offer);
    FoldIsLastValue(os, p, OptMessageType);
    if kind == DhcpDiscover || kind == DhcpRequest || kind == DhcpRelease {
      LastValueAt(os, OptMessageType, [p.msgType], 0);
    } else if kind == DhcpDecline {
      LastValueNone(os, OptMessageType, [p.msgType]);
    }
  }

  /** REQUEST, RELEASE and DECLINE name the server whose offer they answer. */
  lemma ContentServerIdentifier(kind: bv8, offer: Offer, p: Parsed)
    ensures var r := Fold(MessageContent(kind, offer), p);
            kind == DhcpRequest || kind == DhcpRelease || kind == DhcpDecline ==>
              r.offer.serverIdentifier == offer.serverIdentifier
  {
    var os := MessageContent(kind, offer);
    FoldIsLastValue(os, p, OptServerIdentifier);
    if kind == DhcpRequest {
      LastValueAt(os, OptServerIdentifier, p.offer.serverIdentifier, 3);
    } else if kind == DhcpRelease || kind == DhcpDecline {
      LastValueAt(os, OptServerIdentifier, p.offer.serverIdentifier, 1);
    }
  }

  // ---------------------------------------------------------------------
  // Lease timers
  // ---------------------------------------------------------------------

  /** T1 of section 4.4.5 of RFC 2131: half the lease (dhcp.c:528). */
  function RenewingTime(lease: Seconds): Seconds
  {
    lease / 2
  }

  /** T2 as dhcp.c:529 computes it: (lease * 7) / 8 in uint32 arithmetic,
      where the product wraps around once the lease exceeds 613566756 s. */
  function RebindingTimeAsWritten(lease: Seconds): Seconds
  {
    (lease * 7) % 0x1_0000_0000 / 8
  }

  /** For the infinite lease 0xFFFFFFFF of section 9.2 of RFC 2132 the
      product wraps and rebinding is scheduled long before renewing. */
  lemma RebindingTimeWraps()
    ensures RebindingTimeAsWritten(0xFFFF_FFFF) == 0x1FFF_FFFF
    ensures RebindingTimeAsWritten(0xFFFF_FFFF) < RenewingTime(0xFFFF_FFFF)
  {
  }

  /** T2 = floor(7 * lease / 8), computed without the intermediate overflow
      (the product taken in 64 bits); it lies between T1 and the lease. */
  function RebindingTime(lease: Seconds): (t2: Seconds)
    ensures RenewingTime(lease) <= t2 <= lease
  {
    lease * 7 / 8
  }

  /** Where the product fits in 32 bits the two computations agree. */
  lemma RebindingTimeAgrees(lease: Seconds)
    requires lease <= 0x2492_4924
    ensures RebindingTime(lease) == RebindingTimeAsWritten(lease)
  {
  }

  /** The lease of an offer as the timer service counts it. */
  function LeaseSeconds(lease: bv32): Seconds
  {
    lease as nat
  }

  /** Armed renewing, rebinding and lease timers fire in that order. */
  ghost predicate LeaseTimersOrdered(t: Timers)
  {
    TimerTag.RenewingT1 in t && TimerTag.RebindingT2 in t && TimerTag.LeaseExpired in t ==>
      t[TimerTag.RenewingT1].seconds <= t[TimerTag.RebindingT2].seconds <= t[TimerTag.LeaseExpired].seconds
  }

  /** The renewing, rebinding and lease timers as startStateTransitionTimers
      stops and restarts them for `lease` (dhcp.c:523-531). */
  ghost function LeaseTimers(t: Timers, lease: Seconds): (r: Timers)
    ensures LeaseTimersOrdered(r)
  {
    var stopped := t - {TimerTag.RenewingT1, TimerTag.RebindingT2, TimerTag.LeaseExpired};
    var t1 := RenewingTime(lease);
    var t2 := RebindingTime(lease);
    stopped[TimerTag.RenewingT1 := OneShot(t1)][TimerTag.RebindingT2 := OneShot(t2)][TimerTag.LeaseExpired := OneShot(lease)]
  }

  /** The DNS address BOUND commits as dhcp.c:448 writes it: the first byte of
      the offered server, four times. */
  function BoundDnsAsWritten(dns: IpAddress): IpAddress
  {
    [dns[0], dns[0], dns[0], dns[0]]
  }

  /** Any DNS server whose address bytes differ is committed wrongly. */
  lemma BoundDnsAsWrittenLoses()
    ensures BoundDnsAsWritten([8, 8, 4, 4]) == [8, 8, 8, 8] != [8, 8, 4, 4]
  {
  }

  /** The client address sendDhcpMessage puts in ciaddr (dhcp.c:218-225). */
  function CiAddr(state: bv8, kind: bv8, ip: IpAddress): IpAddress
  {
    if state == Bound || state == Renewing || state == Rebinding || kind == DhcpRelease then ip
    else [0, 0, 0, 0]
  }

  /** The timer table with every DHCP timer stopped (dhcp.c:553-562). */
  ghost function WithoutDhcpTimers(t: Timers): (r: Timers)
    ensures forall tag :: tag in r <==> (tag in t && !tag.SendDhcpDiscovery? && !tag.SendDhcpRequest? && !tag.SendArpProbe?
                                        && !tag.ArpProbeFinished? && !tag.RenewingT1? && !tag.RebindingT2? && !tag.LeaseExpired?)
  {
    t - {TimerTag.SendDhcpDiscovery, TimerTag.SendDhcpRequest, TimerTag.SendArpProbe, TimerTag.ArpProbeFinished,
         TimerTag.RenewingT1, TimerTag.RebindingT2, TimerTag.LeaseExpired}
  }

  /** `f` is the frame sendDhcpMessage builds for message `kind` while the
      client, in state `state` with offer `offer`, targets `serverMac` and
      `serverIp` from `mac` and `ip`; the identification field is whatever
      the buffer held. */
  ghost predicate IsMessage(f: seq<bv8>, serverMac: MacAddress, mac: MacAddress, ip: IpAddress, serverIp: IpAddress,
                            state: bv8, kind: bv8, offer: Offer, cks: seq<bv8> -> bv16)
  {
    |f| >= IpId + 2
    && f == DhcpFrame(f[IpId..IpId + 2], serverMac, mac, ip, serverIp, DhcpBody(mac, CiAddr(state, kind, ip), kind, offer), cks)
  }

  /** The identification field of a frame is the `id` it was built around. */
  lemma FrameId(id: seq<bv8>, serverMac: MacAddress, mac: MacAddress, ip: IpAddress, serverIp: IpAddress,
                body: seq<bv8>, cks: seq<bv8> -> bv16)
    requires |id| == 2
    ensures DhcpFrame(id, serverMac, mac, ip, serverIp, body, cks)[IpId..IpId + 2] == id
  {
    var n := |body|;
    var e := EtherPart(serverMac, mac, n);
    var a := AddressPart(ip, serverIp, n);
    var ipSpan := e[IpRevSize..] + id + FixedIpPart + a[..8];
    var udpSpan := a[..8] + [0, ProtocolUdp] + a[12..] + a[8..] + body;
    var rest := FixedIpPart + ChecksumField(cks, ipSpan) + a + ChecksumField(cks, udpSpan) + body;
    assert DhcpFrame(id, serverMac, mac, ip, serverIp, body, cks) == e + id + rest;
  }

  /** Arming a timer other than the three lease timers keeps them in order, */
  ghost function Arm(t: Timers, tag: TimerTag, timer: Timer): (r: Timers)
    requires LeaseTimersOrdered(t) && !tag.RenewingT1? && !tag.RebindingT2? && !tag.LeaseExpired?
    ensures LeaseTimersOrdered(r) && r == t[tag := timer]
  {
    t[tag := timer]
  }

  /** and so does stopping any timer. */
  ghost function Stop(t: Timers, tag: TimerTag): (r: Timers)
    requires LeaseTimersOrdered(t)
    ensures LeaseTimersOrdered(r) && r == t - {tag}
  {
    t - {tag}
  }

  /** The timers transitionToState arms and stops on entering `newState`
      (dhcp.c:425-483, 523-531); the lease timers stay in order. */
  ghost function EnterTimers(t: Timers, newState: bv8, lease: Seconds): (r: Timers)
    requires LeaseTimersOrdered(t)
    ensures LeaseTimersOrdered(r)
  {
    if newState == Init then Arm(t, TimerTag.SendDhcpDiscovery, Periodic(DiscoverPeriod))
    else if newState == Selecting then Stop(t, TimerTag.SendDhcpDiscovery)
    else if newState == Requesting || newState == Renewing || newState == Rebinding then
      Arm(t, TimerTag.SendDhcpRequest, Periodic(RequestPeriod))
    else if newState == Bound then LeaseTimers(t, lease)
    else if newState == IpValidating then
      Arm(Arm(t, TimerTag.SendArpProbe, Periodic(ProbePeriod)), TimerTag.ArpProbeFinished, OneShot(ProbeTime))
    else t
  }

  // ---------------------------------------------------------------------
  // The client
  // ---------------------------------------------------------------------

  const Broadcast: IpAddress := [255, 255, 255, 255]
  const BroadcastMac: MacAddress := [0xFF, 0xFF, 0xFF, 0xFF, 0xFF, 0xFF]

  /** dhcpState and offerData of dhcp.c with the interface they configure and
      the timers the client arms. */
  class DhcpClient {
    var state: bv8
    var serverMacAddress: MacAddress
    var serverIpAddress: IpAddress
    var leaseTime: bv32
    var ipValidated: bool
    var offer: Offer
    ghost var timers: Timers
    const link: Link

    ghost predicate Valid()
      reads this, link
    {
      link.Valid() && LeaseTimersOrdered(timers)
    }

    /** The initial dhcpState and offerData (dhcp.c:67-90). */
    constructor (link: Link)
      requires link.Valid()
      ensures Valid() && this.link == link && timers == map[]
      ensures state == Init && serverMacAddress == BroadcastMac && serverIpAddress == Broadcast
      ensures leaseTime == 0 && !ipValidated && offer == InitialOffer()
    {
      state := Init;
      serverMacAddress := BroadcastMac;
      serverIpAddress := Broadcast;
      leaseTime := 0;
      ipValidated := false;
      offer := InitialOffer();
      timers := map[];
      this.link := link;
    }

    /** resetDhcpState (dhcp.c:101-115): the server is the broadcast
        address again and no lease is held. */
    method ResetDhcpState()
      modifies this`state, this`serverMacAddress, this`serverIpAddress, this`leaseTime, this`ipValidated
      ensures state == Init && serverMacAddress == BroadcastMac && serverIpAddress == Broadcast
      ensures leaseTime == 0 && !ipValidated
    {
      state := Init;
      serverMacAddress := BroadcastMac;
      serverIpAddress := Broadcast;
      leaseTime := 0;
      ipValidated := false;
    }

    /** processReceivedDhcpPacket (dhcp.c:126-185): the option walk over the
        received frame, updating offerData as it goes. */
    method ProcessReceivedDhcpPacket(packet: array<bv8>) returns (msgType: bv8)
      requires packet.Length == MaxPacketSize
      modifies this`offer
      ensures Parsed(msgType, offer) == Parse(packet[..], old(offer))
    {
      var d := DhcpStart(packet[..]);
      var options := packet[d + FixedSize..];
      var m: bv8 := 0;
      var i: nat := 0;
      while i < MaxOptionsSize
        invariant Walk(options, i, Parsed(m, offer)) == Walk(options, 0, Parsed(0, old(offer)))
        decreases MaxOptionsSize - i
      {
        if options[i] == OptEnd || options[i] == OptPad {
          break;
        }
        var code := options[i];
        var length := options[i + 1];
        i := i + 2;
        if code == OptMessageType {
          m := options[i];
        }
        if code == OptServerIdentifier {
          offer := offer.(serverIdentifier := options[i..i + 4]);
        }
        if code == OptLeaseTime {
          offer := offer.(leaseTime := U32(options[i..i + 4]));
        }
        if code == OptSubnetMask {
          offer := offer.(subnet := options[i..i + 4]);
        }
        if code == OptRouter {
          offer := offer.(router := options[i..i + 4]);
        }
        if code == OptDns {
          offer := offer.(dns := options[i..i + 4]);
        }
        i := i + length as nat;
      }
      offer := offer.(offeredIp := packet[d + 16..d + 20], serverHWAddress := packet[EtherSource..EtherSource + 6], ipInUse := false);
      msgType := m;
    }

    /** The frame log shows one more frame, message `kind` as sendDhcpMessage
        builds it from the client's current addressing in state `st`. */
    ghost predicate SentOne(sent0: seq<seq<bv8>>, st: bv8, kind: bv8)
      reads this, link
      requires link.Valid()
    {
      |link.sent| == |sent0| + 1 && link.sent[..|sent0|] == sent0
      && IsMessage(link.sent[|sent0|], serverMacAddress, link.macAddress, link.ipAddress, serverIpAddress,
                   st, kind, offer, link.checksum)
    }

    /** sendDhcpMessage (dhcp.c:187-361): message `kind` built in `packet`
        and handed to the interface, addressed to the server the client
        targets. */
    method SendDhcpMessage(packet: array<bv8>, kind: bv8)
      requires Valid() && packet.Length == MaxPacketSize
      modifies packet, link`sent
      ensures Valid()
      ensures link.sent == old(link.sent) + [DhcpFrame(old(packet[IpId..IpId + 2]), serverMacAddress, link.macAddress, link.ipAddress, serverIpAddress,
                                                       DhcpBody(link.macAddress, CiAddr(state, kind, link.ipAddress), kind, offer), link.checksum)]
    {
      var size := WriteDhcpFrame(packet, serverMacAddress, link.macAddress, link.ipAddress, serverIpAddress,
                                 CiAddr(state, kind, link.ipAddress), kind, offer, link.checksum);
      link.PutPacket(packet[..size]);
    }

    /** sendDhcpDiscoveryPacket, sendDhcpReleasePacket, sendDhcpRequestPacket
        and sendDhcpDeclinePacket (dhcp.c:363-385): one message of the kind,
        built in a fresh stack buffer. */
    method SendDhcpPacket(kind: bv8)
      requires Valid()
      modifies link`sent
      ensures Valid() && SentOne(old(link.sent), state, kind)
    {
      var data := new bv8[MaxPacketSize];
      ghost var id := data[IpId..IpId + 2];
      SendDhcpMessage(data, kind);
      FrameId(id, serverMacAddress, link.macAddress, link.ipAddress, serverIpAddress,
              DhcpBody(link.macAddress, CiAddr(state, kind, link.ipAddress), kind, offer), link.checksum);
    }

    method SendDhcpDiscoveryPacket()
      requires Valid()
      modifies link`sent
      ensures Valid() && SentOne(old(link.sent), state, DhcpDiscover)
    {
      SendDhcpPacket(DhcpDiscover);
    }

    method SendDhcpReleasePacket()
      requires Valid()
      modifies link`sent
      ensures Valid() && SentOne(old(link.sent), state, DhcpRelease)
    {
      SendDhcpPacket(DhcpRelease);
    }

    method SendDhcpRequestPacket()
      requires Valid()
      modifies link`sent
      ensures Valid() && SentOne(old(link.sent), state, DhcpRequest)
    {
      SendDhcpPacket(DhcpRequest);
    }

    method SendDhcpDeclinePacket()
      requires Valid()
      modifies link`sent
      ensures Valid() && SentOne(old(link.sent), state, DhcpDecline)
    {
      SendDhcpPacket(DhcpDecline);
    }

    /** startStateTransitionTimers (dhcp.c:523-531): the renewing, rebinding
        and lease timers restarted for the offered lease. */
    method StartStateTransitionTimers()
      requires Valid()
      modifies this`timers
      ensures Valid() && timers == LeaseTimers(old(timers), LeaseSeconds(offer.leaseTime))
    {
      timers := timers - {TimerTag.RenewingT1, TimerTag.RebindingT2, TimerTag.LeaseExpired};
      var lease: Seconds := LeaseSeconds(offer.leaseTime);
      timers := timers[TimerTag.RenewingT1 := OneShot(RenewingTime(lease))];
      timers := timers[TimerTag.RebindingT2 := OneShot(RebindingTime(lease))];
      timers := timers[TimerTag.LeaseExpired := OneShot(lease)];
    }

    /** The BOUND entry of transitionToState (dhcp.c:440-448): the offered
        address, subnet mask, router and DNS server configure the interface. */
    method CommitOffer()
      requires Valid()
      modifies link`ipAddress, link`ipSubnetMask, link`ipGwAddress, link`ipDns
      ensures Valid() && link.ipAddress == offer.offeredIp && link.ipSubnetMask == offer.subnet
      ensures link.ipGwAddress == offer.router && link.ipDns == offer.dns
    {
      link.SetIpAddress(offer.offeredIp);
      link.SetIpSubnetMask(offer.subnet);
      link.SetIpGatewayAddress(offer.router);
      link.SetDns(offer.dns);
    }

    /** transitionToState (dhcp.c:425-483): the entry actions of `newState`,
        then the state itself. Entering BOUND commits the offer to the
        interface, the DNS server as offered; entering RENEWING targets the
        offering server and entering INIT or REBINDING the broadcast address. */
    method TransitionToState(newState: bv8)
      requires Valid()
      modifies this`state, this`serverMacAddress, this`serverIpAddress, this`leaseTime, this`ipValidated, this`timers
      modifies link`ipAddress, link`ipSubnetMask, link`ipGwAddress, link`ipDns
      ensures Valid() && state == newState && timers == EnterTimers(old(timers), newState, LeaseSeconds(offer.leaseTime))
      ensures newState == Init ==> serverMacAddress == BroadcastMac && serverIpAddress == Broadcast && leaseTime == 0 && !ipValidated
      ensures newState == Renewing ==> serverMacAddress == offer.serverHWAddress && serverIpAddress == offer.serverIdentifier
      ensures newState == Rebinding ==> serverMacAddress == BroadcastMac && serverIpAddress == Broadcast
      ensures newState != Init && newState != Renewing && newState != Rebinding ==>
                serverMacAddress == old(serverMacAddress) && serverIpAddress == old(serverIpAddress)
      ensures newState != Init ==> leaseTime == old(leaseTime) && ipValidated == old(ipValidated)
      ensures newState == Bound ==> link.ipAddress == offer.offeredIp && link.ipSubnetMask == offer.subnet
                                    && link.ipGwAddress == offer.router && link.ipDns == offer.dns
      ensures newState != Bound ==> unchanged(link)
    {
      if newState == Init {
        ResetDhcpState();
        timers := timers[TimerTag.SendDhcpDiscovery := Periodic(DiscoverPeriod)];
      } else if newState == Selecting {
        timers := timers - {TimerTag.SendDhcpDiscovery};
      } else if newState == Requesting {
        timers := timers[TimerTag.SendDhcpRequest := Periodic(RequestPeriod)];
      } else if newState == Bound {
        CommitOffer();
        StartStateTransitionTimers();
      } else if newState == Renewing {
        serverMacAddress := offer.serverHWAddress;
        serverIpAddress := offer.serverIdentifier;
        timers := timers[TimerTag.SendDhcpRequest := Periodic(RequestPeriod)];
      } else if newState == Rebinding {
        serverMacAddress := BroadcastMac;
        serverIpAddress := Broadcast;
        timers := timers[TimerTag.SendDhcpRequest := Periodic(RequestPeriod)];
      } else if newState == IpValidating {
        timers := timers[TimerTag.SendArpProbe := Periodic(ProbePeriod)];
        timers := timers[TimerTag.ArpProbeFinished := OneShot(ProbeTime)];
      }
      state := newState;
    }

    /** dhcpStateMachineReceivedPacketHandler (dhcp.c:405-423): the parse
        updates the offer in every case; an OFFER in INIT moves through
        SELECTING to REQUESTING, an ACK while requesting, renewing or
        rebinding moves to IPVALIDATING, and nothing else changes state. */
    method DhcpStateMachineReceivedPacketHandler(packet: array<bv8>)
      requires Valid() && packet.Length == MaxPacketSize
      modifies this`offer, this`state, this`serverMacAddress, this`serverIpAddress, this`leaseTime, this`ipValidated, this`timers
      modifies link`ipAddress, link`ipSubnetMask, link`ipGwAddress, link`ipDns
      ensures Valid() && unchanged(link)
      ensures serverMacAddress == old(serverMacAddress) && serverIpAddress == old(serverIpAddress)
      ensures leaseTime == old(leaseTime) && ipValidated == old(ipValidated)
      ensures var r := Parse(packet[..], old(offer));
              var offered := r.msgType == DhcpOffer && old(state) == Init;
              var acked := r.msgType == DhcpAck && (old(state) == Requesting || old(state) == Rebinding || old(state) == Renewing);
              offer == r.offer
              && (offered ==> state == Requesting
                              && timers == (old(timers) - {TimerTag.SendDhcpDiscovery})[TimerTag.SendDhcpRequest := Periodic(RequestPeriod)])
              && (acked ==> state == IpValidating
                            && timers == (old(timers) - {TimerTag.SendDhcpRequest})[TimerTag.SendArpProbe := Periodic(ProbePeriod)]
                                                                                   [TimerTag.ArpProbeFinished := OneShot(ProbeTime)])
              && (!offered && !acked ==> state == old(state) && timers == old(timers))
    {
      var rcvdMsgType := ProcessReceivedDhcpPacket(packet);
      if rcvdMsgType == DhcpOffer && state == Init {
        SelectOffer();
      }
      if rcvdMsgType == DhcpAck && (state == Requesting || state == Rebinding || state == Renewing) {
        ValidateAck();
      }
    }

    /** The OFFER branch of the handler (dhcp.c:410-415). */
    method SelectOffer()
      requires Valid()
      modifies this`state, this`serverMacAddress, this`serverIpAddress, this`leaseTime, this`ipValidated, this`timers
      modifies link`ipAddress, link`ipSubnetMask, link`ipGwAddress, link`ipDns
      ensures unchanged(link) && serverMacAddress == old(serverMacAddress) && serverIpAddress == old(serverIpAddress)
      ensures leaseTime == old(leaseTime) && ipValidated == old(ipValidated)
      ensures Valid() && state == Requesting
      ensures timers == (old(timers) - {TimerTag.SendDhcpDiscovery})[TimerTag.SendDhcpRequest := Periodic(RequestPeriod)]
    {
      timers := timers - {TimerTag.SendDhcpDiscovery};
      TransitionToState(Selecting);
      TransitionToState(Requesting);
    }

    /** The ACK branch of the handler (dhcp.c:416-422). */
    method ValidateAck()
      requires Valid()
      modifies this`state, this`serverMacAddress, this`serverIpAddress, this`leaseTime, this`ipValidated, this`timers
      modifies link`ipAddress, link`ipSubnetMask, link`ipGwAddress, link`ipDns
      ensures unchanged(link) && serverMacAddress == old(serverMacAddress) && serverIpAddress == old(serverIpAddress)
      ensures leaseTime == old(leaseTime) && ipValidated == old(ipValidated)
      ensures Valid() && state == IpValidating
      ensures timers == (old(timers) - {TimerTag.SendDhcpRequest})[TimerTag.SendArpProbe := Periodic(ProbePeriod)]
                                                                 [TimerTag.ArpProbeFinished := OneShot(ProbeTime)]
    {
      timers := timers - {TimerTag.SendDhcpRequest};
      TransitionToState(IpValidating);
    }

    /** arpProbeFinished (dhcp.c:497-511): the probe timer stops; an offered
        address found in use is declined and requested again, otherwise the
        client binds to it. */
    method ArpProbeFinished()
      requires Valid()
      modifies this`state, this`serverMacAddress, this`serverIpAddress, this`leaseTime, this`ipValidated, this`timers
      modifies link`ipAddress, link`ipSubnetMask, link`ipGwAddress, link`ipDns, link`sent
      ensures Valid() && serverMacAddress == old(serverMacAddress) && serverIpAddress == old(serverIpAddress)
      ensures leaseTime == old(leaseTime) && ipValidated == old(ipValidated)
      ensures var t := old(timers) - {TimerTag.SendArpProbe};
              if offer.ipInUse then
                state == Requesting && timers == t[TimerTag.SendDhcpRequest := Periodic(RequestPeriod)]
                && link.ipAddress == old(link.ipAddress) && link.ipDns == old(link.ipDns)
                && link.ipSubnetMask == old(link.ipSubnetMask) && link.ipGwAddress == old(link.ipGwAddress)
                && SentOne(old(link.sent), old(state), DhcpDecline)
              else
                state == Bound && timers == LeaseTimers(t, LeaseSeconds(offer.leaseTime)) && link.sent == old(link.sent)
                && link.ipAddress == offer.offeredIp && link.ipSubnetMask == offer.subnet
                && link.ipGwAddress == offer.router && link.ipDns == offer.dns
    {
      timers := timers - {TimerTag.SendArpProbe};
      if offer.ipInUse {
        SendDhcpDeclinePacket();
        TransitionToState(Requesting);
      } else {
        TransitionToState(Bound);
      }
    }

    /** renewingT1Timer, rebindingT2Timer and leaseExpired (dhcp.c:513-521,
        533-536): the lease timers' callbacks. */
    method RenewingT1Timer()
      requires Valid()
      modifies this`state, this`serverMacAddress, this`serverIpAddress, this`leaseTime, this`ipValidated, this`timers
      modifies link`ipAddress, link`ipSubnetMask, link`ipGwAddress, link`ipDns
      ensures Valid() && unchanged(link) && state == Renewing
      ensures serverMacAddress == offer.serverHWAddress && serverIpAddress == offer.serverIdentifier
      ensures timers == old(timers)[TimerTag.SendDhcpRequest := Periodic(RequestPeriod)]
    {
      TransitionToState(Renewing);
    }

    method RebindingT2Timer()
      requires Valid()
      modifies this`state, this`serverMacAddress, this`serverIpAddress, this`leaseTime, this`ipValidated, this`timers
      modifies link`ipAddress, link`ipSubnetMask, link`ipGwAddress, link`ipDns
      ensures Valid() && unchanged(link) && state == Rebinding
      ensures serverMacAddress == BroadcastMac && serverIpAddress == Broadcast
      ensures timers == old(timers)[TimerTag.SendDhcpRequest := Periodic(RequestPeriod)]
    {
      TransitionToState(Rebinding);
    }

    method LeaseExpired()
      requires Valid()
      modifies this`state, this`serverMacAddress, this`serverIpAddress, this`leaseTime, this`ipValidated, this`timers
      modifies link`ipAddress, link`ipSubnetMask, link`ipGwAddress, link`ipDns
      ensures Valid() && unchanged(link) && state == Init && serverMacAddress == BroadcastMac && serverIpAddress == Broadcast
      ensures leaseTime == 0 && !ipValidated
      ensures timers == old(timers)[TimerTag.SendDhcpDiscovery := Periodic(DiscoverPeriod)]
    {
      TransitionToState(Init);
    }

    /** etherArpReceivedRequestIp (dhcp.c:538-551): the offered address is in
        use exactly when the ARP request asks for all four of its bytes. */
    method EtherArpReceivedRequestIp(requestIp: seq<bv8>)
      requires |requestIp| >= IpAddLength
      modifies this`offer
      ensures offer == old(offer).(ipInUse := requestIp[..IpAddLength] == old(offer).offeredIp)
    {
      var sameIp := true;
      var i := 0;
      while i < IpAddLength
        invariant i <= IpAddLength && requestIp[..i] == offer.offeredIp[..i]
      {
        if requestIp[i] != offer.offeredIp[i] {
          sameIp := false;
          break;
        }
        i := i + 1;
      }
      offer := offer.(ipInUse := sameIp);
    }

    /** turnOffDhcpTimers (dhcp.c:553-562). */
    method TurnOffDhcpTimers()
      requires Valid()
      modifies this`timers
      ensures Valid() && timers == WithoutDhcpTimers(old(timers))
    {
      timers := WithoutDhcpTimers(timers);
    }
  }
}

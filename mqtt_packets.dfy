/** The MQTT 3.1.1 control packets mqtt.c writes into its message buffer, the
    inbound classification it applies to TCP segments, and, as an independent
    reference, a decoder that reads packets the way section 2 and section 3 of
    MQTT 3.1.1 lay them out. The builders are stated as byte sequences; the
    decoder's round-trip lemmas are what shows they are well-formed. */
module MqttPackets {
  import opened Bytes
  import opened Frames

  const BrokerPort: bv16 := 1883
  /** Capacity of the single outgoing message buffer (mqtt.c:14). */
  const MaxMsgSize: nat := 110
  const MaxTopicNameSize: nat := 30
  const MaxSubscribedTopics: nat := 10

  // control packet types (mqtt.h:44-57)
  const TypeConnect: bv8 := 1
  const TypeConnAck: bv8 := 2
  const TypePublish: bv8 := 3
  const TypeSubscribe: bv8 := 8
  const TypeUnsubscribe: bv8 := 10
  const TypePingReq: bv8 := 12
  const TypePingResp: bv8 := 13
  const TypeDisconnect: bv8 := 14

  /** fixedMqttHeader: the 4-bit flags in the low nibble, the 4-bit type in the
      high nibble (the layout the bit-fields get on this target), then the
      uint8 msglen, which keeps only the low 8 bits of what is assigned. */
  function FixedHeader(packetType: bv8, flags: bv8, remaining: nat): (r: seq<bv8>)
    requires packetType < 16 && flags < 16
    ensures |r| == 2 && r[0] >> 4 == packetType && r[0] & 0xF == flags
  {
    [(packetType << 4) | flags, Byte(remaining)]
  }

  /** The client identifier mqttConnect sends. */
  function ClientName(): (r: seq<bv8>)
    ensures |r| == 5
  {
    [0x68, 0x65, 0x6C, 0x6C, 0x6F] // "hello"
  }

  /** The protocol name of the CONNECT variable header. */
  function ProtocolName(): (r: seq<bv8>)
    ensures |r| == 4
  {
    [0x4D, 0x51, 0x54, 0x54] // "MQTT"
  }

  /** sizeof(mqttFrameConnect): protocol name length and name, level, flags,
      keep-alive and client identifier length. */
  const ConnectFrameSize: nat := 12
  /** sizeof(mqttFrameSubscribe) and sizeof(mqttFrameUnsubscribe). */
  const SubscribeFrameSize: nat := 4

  /** CONNECT, protocol level 4, connect flags 0x02 (clean session), keep-alive
      60 s, client identifier "hello" (mqtt.c:62-89). */
  function ConnectPacket(): seq<bv8>
  {
    FixedHeader(TypeConnect, 0, ConnectFrameSize + |ClientName()|) + ConnectFields()
  }

  /** The mqttFrameConnect struct followed by the client identifier. */
  function ConnectFields(): (r: seq<bv8>)
    ensures |r| == ConnectFrameSize + |ClientName()|
  {
    ConnectFrame() + ClientName()
  }

  /** The mqttFrameConnect struct: protocol name length and name, level 4,
      connect flags, keep-alive and the client identifier's length. */
  function ConnectFrame(): (r: seq<bv8>)
    ensures |r| == ConnectFrameSize
  {
    BE16N(4) + ProtocolName() + [4, 2] + BE16(60) + BE16N(|ClientName()|)
  }

  /** SUBSCRIBE with one topic filter and its requested QoS (mqtt.c:127-144). */
  function SubscribePacket(id: bv16, filter: seq<bv8>, qos: bv8): seq<bv8>
  {
    FixedHeader(TypeSubscribe, 2, SubscribeFrameSize + |filter| + 1) + SubscribeFields(id, filter, qos)
  }

  /** The mqttFrameSubscribe struct (identifier, filter length), the filter and
      the QoS byte. */
  function SubscribeFields(id: bv16, filter: seq<bv8>, qos: bv8): (r: seq<bv8>)
    ensures |r| == SubscribeFrameSize + |filter| + 1
  {
    SubscribeFrame(id, |filter|) + filter + [qos]
  }

  /** The mqttFrameSubscribe and mqttFrameUnsubscribe structs: the packet
      identifier and the length of the topic filter that follows. */
  function SubscribeFrame(id: bv16, n: nat): (r: seq<bv8>)
    ensures |r| == SubscribeFrameSize
  {
    BE16(id) + BE16N(n)
  }

  /** UNSUBSCRIBE with one topic filter (mqtt.c:155-172). */
  function UnsubscribePacket(id: bv16, filter: seq<bv8>): seq<bv8>
  {
    FixedHeader(TypeUnsubscribe, 2, SubscribeFrameSize + |filter|) + UnsubscribeFields(id, filter)
  }

  /** The mqttFrameUnsubscribe struct and the filter. */
  function UnsubscribeFields(id: bv16, filter: seq<bv8>): (r: seq<bv8>)
    ensures |r| == SubscribeFrameSize + |filter|
  {
    SubscribeFrame(id, |filter|) + filter
  }

  /** The PUBLISH flags for a QoS (mqtt.c:186-197). For a QoS above 2 the source
      assigns nothing, so the header keeps whatever its stack slot held: `unset`. */
  function PublishFlags(qos: bv8, unset: bv8): (f: bv8)
    ensures f < 16
  {
    if qos == 0 then 0 else if qos == 1 then 2 else if qos == 2 then 4 else unset & 0xF
  }

  /** Whether a packet identifier follows the topic name (mqtt.c:216). */
  predicate HasPacketId(qos: bv8)
  {
    qos == 1 || qos == 2
  }

  /** The bytes that follow a PUBLISH's topic name: the packet identifier, if any. */
  function PublishId(qos: bv8, pid: bv16): (r: seq<bv8>)
    ensures |r| == if HasPacketId(qos) then 2 else 0
  {
    if HasPacketId(qos) then BE16(pid) else []
  }

  /** The remaining length mqttPublish computes: two bytes of packet identifier
      are counted for every QoS other than 0 (mqtt.c:199-206). */
  function PublishLength(qos: bv8, topic: seq<bv8>, value: seq<bv8>): nat
  {
    |topic| + |value| + 2 + (if qos == 0 then 0 else 2)
  }

  /** The bytes mqttPublish appends to the buffer: fixed header, topic length,
      topic, the packet identifier for QoS 1 and 2, and the value
      (mqtt.c:208-222). */
  function PublishSize(qos: bv8, topic: seq<bv8>, value: seq<bv8>): nat
  {
    4 + |topic| + |value| + (if HasPacketId(qos) then 2 else 0)
  }

  /** PUBLISH of `value` to `topic` (mqtt.c:184-222). */
  function PublishPacket(qos: bv8, topic: seq<bv8>, value: seq<bv8>, pid: bv16, unset: bv8): seq<bv8>
  {
    FixedHeader(TypePublish, PublishFlags(qos, unset), PublishLength(qos, topic, value))
      + PublishFields(qos, topic, value, pid)
  }

  /** The topic length and name, the packet identifier for QoS 1 and 2, and
      the value, which has no length prefix. */
  function PublishFields(qos: bv8, topic: seq<bv8>, value: seq<bv8>, pid: bv16): seq<bv8>
  {
    BE16N(|topic|) + topic + PublishId(qos, pid) + value
  }

  /** PINGREQ (mqtt.c:118-122). */
  function PingPacket(): seq<bv8>
  {
    FixedHeader(TypePingReq, 0, 0)
  }

  /** DISCONNECT (mqtt.c:106-113). */
  function DisconnectPacket(): seq<bv8>
  {
    FixedHeader(TypeDisconnect, 0, 0)
  }

  /** etherIsMqtt: a TCP segment from the broker port (mqtt.c:268-282). */
  predicate EtherIsMqtt(s: seq<bv8>)
    requires IsFrame(s)
  {
    Protocol(s) == ProtocolTcp && SourcePort(s) == BrokerPort
  }

  /** The packet type processMqttMessage switches on: the high nibble of the
      first byte at tcp->data, 20 bytes past the IP header whatever the TCP
      data offset says (mqtt.c:248-253). */
  function InboundType(s: seq<bv8>): (r: bv8)
    requires IsFrame(s)
    ensures r < 16
  {
    s[Transport(s) + 20] >> 4
  }

  // ---------------------------------------------------------------------
  // Reference decoder (sections 2.2, 3.1, 3.3, 3.8, 3.10, 3.12, 3.14 of MQTT 3.1.1)
  // ---------------------------------------------------------------------

  datatype Packet =
    | ConnectMsg(level: bv8, connectFlags: bv8, keepAlive: bv16, clientId: seq<bv8>)
    | PublishMsg(qos: bv8, topicName: seq<bv8>, publishId: Option<bv16>, payload: seq<bv8>)
    | SubscribeMsg(packetId: bv16, filter: seq<bv8>, requestedQos: bv8)
    | UnsubscribeMsg(packetId: bv16, filter: seq<bv8>)
    | PingReqMsg
    | DisconnectMsg

  /** Reads one control packet that fills `p` exactly. The remaining length is
      accepted only in its one-byte form (below 128), and the fixed flags of
      each type are checked as section 2.2.2 requires. */
  function Decode(p: seq<bv8>): Option<Packet>
  {
    if |p| < 2 || p[1] >= 128 || |p| != 2 + p[1] as nat then None
    else DecodeBody(p[0] >> 4, p[0] & 0xF, p[2..])
  }

  /** The variable header and payload of a packet of type `kind`. */
  function DecodeBody(kind: bv8, flags: bv8, body: seq<bv8>): Option<Packet>
  {
    if kind == TypeConnect then (if flags == 0 then DecodeConnect(body) else None)
    else if kind == TypePublish then DecodePublish(flags, body)
    else if kind == TypeSubscribe then (if flags == 2 then DecodeSubscribe(body) else None)
    else if kind == TypeUnsubscribe then (if flags == 2 then DecodeUnsubscribe(body) else None)
    else if kind == TypePingReq && flags == 0 && body == [] then Some(PingReqMsg)
    else if kind == TypeDisconnect && flags == 0 && body == [] then Some(DisconnectMsg)
    else None
  }

  /** CONNECT's variable header and the client identifier of its payload. */
  function DecodeConnect(b: seq<bv8>): Option<Packet>
  {
    if |b| < ConnectFrameSize || Num16(b[..2]) != 4 || b[2..6] != ProtocolName() then None
    else if Num16(b[10..12]) != |b| - ConnectFrameSize then None
    else Some(ConnectMsg(b[6], b[7], U16(b[8..10]), b[ConnectFrameSize..]))
  }

  /** PUBLISH: the QoS is bits 1-2 of the flags and 3 is malformed; a packet
      identifier follows the topic name for QoS 1 and 2. */
  function DecodePublish(flags: bv8, b: seq<bv8>): Option<Packet>
  {
    var qos := (flags >> 1) & 3;
    if qos == 3 || |b| < 2 then None
    else
      var n := Num16(b[..2]);
      var idLen := if qos == 0 then 0 else 2;
      if |b| < 2 + n + idLen then None
      else Some(PublishMsg(qos, b[2..2 + n], if qos == 0 then None else Some(U16(b[2 + n..4 + n])), b[2 + n + idLen..]))
  }

  /** SUBSCRIBE with a single topic filter and its requested QoS byte. */
  function DecodeSubscribe(b: seq<bv8>): Option<Packet>
  {
    if |b| < SubscribeFrameSize then None
    else
      var n := Num16(b[2..4]);
      if |b| != SubscribeFrameSize + n + 1 then None
      else Some(SubscribeMsg(U16(b[..2]), b[4..4 + n], b[4 + n]))
  }

  /** UNSUBSCRIBE with a single topic filter. */
  function DecodeUnsubscribe(b: seq<bv8>): Option<Packet>
  {
    if |b| < SubscribeFrameSize then None
    else
      var n := Num16(b[2..4]);
      if |b| != SubscribeFrameSize + n then None
      else Some(UnsubscribeMsg(U16(b[..2]), b[4..]))
  }

  // ---------------------------------------------------------------------
  // What the builders produce
  // ---------------------------------------------------------------------

  /** A two-byte fixed header followed by the rest of a packet. */
  lemma Split(h: seq<bv8>, f: seq<bv8>)
    requires |h| == 2
    ensures (h + f)[0] == h[0] && (h + f)[1] == h[1] && (h + f)[2..] == f && |h + f| == 2 + |f|
  {
  }

  /** The CONNECT packet, byte for byte. */
  lemma ConnectBytes()
    ensures ConnectPacket() == [0x10, 17, 0, 4, 0x4D, 0x51, 0x54, 0x54, 4, 2, 0, 60, 0, 5, 0x68, 0x65, 0x6C, 0x6C, 0x6F]
  {
    ConnectPieces();
  }

  lemma ConnectPieces()
    ensures FixedHeader(TypeConnect, 0, ConnectFrameSize + |ClientName()|) == [0x10, 17]
    ensures ConnectFields() == [0, 4, 0x4D, 0x51, 0x54, 0x54, 4, 2, 0, 60, 0, 5, 0x68, 0x65, 0x6C, 0x6C, 0x6F]
  {
    ConnectHeaderBytes();
    ConnectFrameBytes();
  }

  lemma ConnectHeaderBytes()
    ensures FixedHeader(TypeConnect, 0, ConnectFrameSize + |ClientName()|) == [0x10, 17]
  {
    ByteValue(17);
  }

  lemma ConnectFrameBytes()
    ensures ConnectFrame() == [0, 4, 0x4D, 0x51, 0x54, 0x54, 4, 2, 0, 60, 0, 5]
  {
    SmallCount(4);
    SmallCount(5);
    ByteValue(4);
    ByteValue(5);
    assert BE16(60) == [0, 60];
  }

  /** A count below 256 in a 16-bit field. */
  lemma SmallCount(n: nat)
    requires n < 0x100
    ensures BE16N(n) == [0, Byte(n)]
  {
    assert n / 0x100 % 0x100 == 0 && n % 0x100 == n;
  }

  /** A broker reads the CONNECT as protocol level 4 with only the clean-session
      flag, a 60 s keep-alive and the client identifier. */
  lemma ConnectRoundTrip()
    ensures Decode(ConnectPacket()) == Some(ConnectMsg(4, 2, 60, ClientName()))
  {
    ConnectPieces();
    Split(FixedHeader(TypeConnect, 0, ConnectFrameSize + |ClientName()|), ConnectFields());
    ConnectBody(ConnectFields());
  }

  lemma ConnectBody(b: seq<bv8>)
    requires b == [0, 4, 0x4D, 0x51, 0x54, 0x54, 4, 2, 0, 60, 0, 5, 0x68, 0x65, 0x6C, 0x6C, 0x6F]
    ensures DecodeConnect(b) == Some(ConnectMsg(4, 2, 60, ClientName()))
  {
    assert b[..2] == [0, 4] && b[10..12] == [0, 5];
    assert b[2..6] == ProtocolName();
    assert b[8..10] == [0, 60];
    assert b[ConnectFrameSize..] == ClientName();
  }

  /** The remaining-length byte of every packet the client builds is its length
      less the two header bytes, below 128 so that its one-byte form is the
      whole encoding (section 2.2.3) — for PUBLISH only up to QoS 2. */
  lemma RemainingLengthByte(id: bv16, filter: seq<bv8>, qos: bv8, topic: seq<bv8>, value: seq<bv8>, unset: bv8)
    requires |filter| + 7 <= MaxMsgSize && PublishSize(qos, topic, value) <= MaxMsgSize
    ensures ConnectPacket()[1] as nat == |ConnectPacket()| - 2
    ensures SubscribePacket(id, filter, qos)[1] as nat == |SubscribePacket(id, filter, qos)| - 2 < 128
    ensures UnsubscribePacket(id, filter)[1] as nat == |UnsubscribePacket(id, filter)| - 2 < 128
    ensures qos <= 2 ==> PublishPacket(qos, topic, value, id, unset)[1] as nat == |PublishPacket(qos, topic, value, id, unset)| - 2 < 128
    ensures PingPacket()[1] == 0 && DisconnectPacket()[1] == 0
  {
    ConnectBytes();
    SubscribeLayout(id, filter, qos);
    UnsubscribeLayout(id, filter);
    if qos <= 2 {
      PublishLayout(qos, topic, value, id, unset);
    }
    ByteValue(0);
  }

  /** A packet whose remaining-length byte is right is read by its body. */
  lemma Framed(p: seq<bv8>)
    requires |p| >= 2 && p[1] as nat == |p| - 2 < 128
    ensures Decode(p) == DecodeBody(p[0] >> 4, p[0] & 0xF, p[2..])
  {
  }

  lemma SubscribeLayout(id: bv16, filter: seq<bv8>, qos: bv8)
    requires |filter| + 7 <= MaxMsgSize
    ensures var p := SubscribePacket(id, filter, qos);
            p[1] as nat == |p| - 2 < 128 && p[0] >> 4 == TypeSubscribe && p[0] & 0xF == 2
            && p[2..] == SubscribeFields(id, filter, qos)
  {
    var n := SubscribeFrameSize + |filter| + 1;
    ByteValue(n);
    Split(FixedHeader(TypeSubscribe, 2, n), SubscribeFields(id, filter, qos));
  }

  lemma SubscribeRoundTrip(id: bv16, filter: seq<bv8>, qos: bv8)
    requires |filter| + 7 <= MaxMsgSize
    ensures Decode(SubscribePacket(id, filter, qos)) == Some(SubscribeMsg(id, filter, qos))
  {
    var p := SubscribePacket(id, filter, qos);
    SubscribeLayout(id, filter, qos);
    Framed(p);
    SubscribeBody(id, filter, qos);
  }

  lemma SubscribeBody(id: bv16, filter: seq<bv8>, qos: bv8)
    requires |filter| < 0x1_0000
    ensures DecodeSubscribe(SubscribeFields(id, filter, qos)) == Some(SubscribeMsg(id, filter, qos))
  {
    var b := SubscribeFields(id, filter, qos);
    var n := |filter|;
    Num16Inverse(n);
    BE16Inverse(id);
    assert b[..2] == BE16(id) && b[2..4] == BE16N(n);
    assert b[4..4 + n] == filter;
  }

  lemma UnsubscribeLayout(id: bv16, filter: seq<bv8>)
    requires |filter| + 6 <= MaxMsgSize
    ensures var p := UnsubscribePacket(id, filter);
            p[1] as nat == |p| - 2 < 128 && p[0] >> 4 == TypeUnsubscribe && p[0] & 0xF == 2
            && p[2..] == UnsubscribeFields(id, filter)
  {
    var n := SubscribeFrameSize + |filter|;
    ByteValue(n);
    Split(FixedHeader(TypeUnsubscribe, 2, n), UnsubscribeFields(id, filter));
  }

  lemma UnsubscribeRoundTrip(id: bv16, filter: seq<bv8>)
    requires |filter| + 6 <= MaxMsgSize
    ensures Decode(UnsubscribePacket(id, filter)) == Some(UnsubscribeMsg(id, filter))
  {
    var p := UnsubscribePacket(id, filter);
    UnsubscribeLayout(id, filter);
    Framed(p);
    UnsubscribeBody(id, filter);
  }

  lemma UnsubscribeBody(id: bv16, filter: seq<bv8>)
    requires |filter| < 0x1_0000
    ensures DecodeUnsubscribe(UnsubscribeFields(id, filter)) == Some(UnsubscribeMsg(id, filter))
  {
    var b := UnsubscribeFields(id, filter);
    var n := |filter|;
    Num16Inverse(n);
    BE16Inverse(id);
    assert b[..2] == BE16(id) && b[2..4] == BE16N(n);
    assert b[4..] == filter;
  }

  /** The PUBLISH flags carry the QoS in bits 1-2 (section 3.3.1.2), with DUP
      and RETAIN clear. */
  lemma PublishFlagsCarryQos(qos: bv8, unset: bv8)
    requires qos <= 2
    ensures (PublishFlags(qos, unset) >> 1) & 3 == qos && PublishFlags(qos, unset) & 0x9 == 0
  {
  }

  lemma PublishLayout(qos: bv8, topic: seq<bv8>, value: seq<bv8>, pid: bv16, unset: bv8)
    requires qos <= 2 && PublishSize(qos, topic, value) <= MaxMsgSize
    ensures var p := PublishPacket(qos, topic, value, pid, unset);
            p[1] as nat == |p| - 2 < 128 && p[0] >> 4 == TypePublish && ((p[0] & 0xF) >> 1) & 3 == qos
            && p[2..] == PublishFields(qos, topic, value, pid)
  {
    var r := PublishLength(qos, topic, value);
    var f := PublishFields(qos, topic, value, pid);
    assert |f| == r;
    PublishHeader(qos, unset, r);
    Split(FixedHeader(TypePublish, PublishFlags(qos, unset), r), f);
  }

  lemma PublishHeader(qos: bv8, unset: bv8, r: nat)
    requires qos <= 2 && r < 128
    ensures var h := FixedHeader(TypePublish, PublishFlags(qos, unset), r);
            h[1] as nat == r && h[0] >> 4 == TypePublish && ((h[0] & 0xF) >> 1) & 3 == qos
  {
    ByteValue(r);
    PublishFlagsCarryQos(qos, unset);
  }

  lemma PublishRoundTrip(qos: bv8, topic: seq<bv8>, value: seq<bv8>, pid: bv16, unset: bv8)
    requires qos <= 2 && PublishSize(qos, topic, value) <= MaxMsgSize
    ensures Decode(PublishPacket(qos, topic, value, pid, unset))
            == Some(PublishMsg(qos, topic, if qos == 0 then None else Some(pid), value))
  {
    var p := PublishPacket(qos, topic, value, pid, unset);
    PublishLayout(qos, topic, value, pid, unset);
    Framed(p);
    PublishBody(qos, topic, value, pid, p[0] & 0xF);
  }

  lemma PublishBody(qos: bv8, topic: seq<bv8>, value: seq<bv8>, pid: bv16, flags: bv8)
    requires qos <= 2 && |topic| < 0x1_0000 && (flags >> 1) & 3 == qos
    ensures DecodePublish(flags, PublishFields(qos, topic, value, pid))
            == Some(PublishMsg(qos, topic, if qos == 0 then None else Some(pid), value))
  {
    var b := PublishFields(qos, topic, value, pid);
    var n := |topic|;
    var idBytes := PublishId(qos, pid);
    Num16Inverse(n);
    BE16Inverse(pid);
    assert b[..2] == BE16N(n);
    assert b[2..2 + n] == topic;
    assert b[2 + n..2 + n + |idBytes|] == idBytes;
    assert b[2 + n + |idBytes|..] == value;
  }

  /** With a QoS above 2 the remaining length counts a packet identifier that is
      never written, so no reader accepts the packet. */
  lemma PublishQosAboveTwoMalformed(qos: bv8, topic: seq<bv8>, value: seq<bv8>, pid: bv16, unset: bv8)
    requires qos > 2 && |topic| + |value| + 4 < 128
    ensures Decode(PublishPacket(qos, topic, value, pid, unset)) == None
  {
    var r := PublishLength(qos, topic, value);
    var f := PublishFields(qos, topic, value, pid);
    assert |f| + 2 == r;
    ByteValue(r);
    Split(FixedHeader(TypePublish, PublishFlags(qos, unset), r), f);
  }

  lemma PingAndDisconnectRoundTrip()
    ensures PingPacket() == [0xC0, 0] && Decode(PingPacket()) == Some(PingReqMsg)
    ensures DisconnectPacket() == [0xE0, 0] && Decode(DisconnectPacket()) == Some(DisconnectMsg)
  {
    ByteValue(0);
  }
}

/** The MQTT client of mqtt.c: one broker connection carried over the TCP
    endpoint, a single outgoing message buffer that every packet builder
    overwrites and that is sent at most once, a ten-slot table of subscribed
    topics in which identifier 0xFF marks a free slot, and the 16-bit packet
    identifier counter. */
module Mqtt {
  import opened Bytes
  import opened Platform
  import opened Frames
  import opened MqttPackets
  import Tcp

  /** The identifier of a free slot of the topic table (mqtt.c:57, 294, 309). */
  const FreeId: bv16 := 0xFF

  // clientState.connectionState (mqtt.c:16-17)
  const Connected: bv8 := 1
  const Disconnected: bv8 := 2

  /** What mqttConnect arms for a broker that has not answered yet, and what a
      CONNACK arms for the keep-alive. */
  const ResendPeriod: Seconds := 15
  const PingPeriod: Seconds := 50

  /** msgBuff.msgLen: never more than the buffer holds. */
  type MsgLength = n: nat | n <= MaxMsgSize

  /** mqttSubscribedTopic (mqtt.h:38-41). The name is the C string in
      topicName without its NUL. */
  datatype Topic = Topic(id: bv16, name: seq<bv8>)

  /** A string that strcpy and strcmp handle as the bytes it holds: no NUL
      inside and, with its NUL, no longer than topicName. */
  predicate TopicString(s: seq<bv8>)
  {
    |s| < MaxTopicNameSize && forall i :: 0 <= i < |s| ==> s[i] != 0
  }

  // ---------------------------------------------------------------------
  // The topic table as a value
  // ---------------------------------------------------------------------

  /** The first slot whose identifier is `id`: |t| when there is none. */
  function FindId(t: seq<Topic>, id: bv16): (i: nat)
    ensures i <= |t| && (i < |t| ==> t[i].id == id)
    ensures forall k :: 0 <= k < i ==> t[k].id != id
  {
    if t == [] then 0 else if t[0].id == id then 0 else 1 + FindId(t[1..], id)
  }

  /** The first slot whose name is `name`: |t| when there is none. */
  function FindName(t: seq<Topic>, name: seq<bv8>): (i: nat)
    ensures i <= |t| && (i < |t| ==> t[i].name == name)
    ensures forall k :: 0 <= k < i ==> t[k].name != name
  {
    if t == [] then 0 else if t[0].name == name then 0 else 1 + FindName(t[1..], name)
  }

  /** No slot before `k` holds `id`. */
  predicate FirstWith(t: seq<Topic>, k: nat, id: bv16)
    requires k <= |t|
  {
    forall j :: 0 <= j < k ==> t[j].id != id
  }

  /** storeSubscribedTopic (mqtt.c:289-301): the first free slot takes the
      topic; with no free slot the table stays as it is. */
  function Store(t: seq<Topic>, name: seq<bv8>, id: bv16): (r: seq<Topic>)
    ensures |r| == |t|
    ensures forall k :: 0 <= k < |t| && t[k].id == FreeId && FirstWith(t, k, FreeId) ==> r[k] == Topic(id, name)
    ensures forall k :: 0 <= k < |t| && !(t[k].id == FreeId && FirstWith(t, k, FreeId)) ==> r[k] == t[k]
  {
    var i := FindId(t, FreeId);
    if i == |t| then t else t[i := Topic(id, name)]
  }

  /** removeUnsubscribedTopic (mqtt.c:302-314): the first slot holding `id`
      is freed and its name cleared; every other slot keeps its contents. */
  function Remove(t: seq<Topic>, id: bv16): (r: seq<Topic>)
    ensures |r| == |t|
    ensures forall k :: 0 <= k < |t| && t[k].id == id && FirstWith(t, k, id) ==> r[k] == Topic(FreeId, [])
    ensures forall k :: 0 <= k < |t| && !(t[k].id == id && FirstWith(t, k, id)) ==> r[k] == t[k]
  {
    var i := FindId(t, id);
    if i == |t| then t else t[i := Topic(FreeId, [])]
  }

  /** getTopicIdByName (mqtt.c:315-325): the identifier of the first slot
      named `name`. When no slot matches the C function reaches its end
      without a return value; that case is None here. */
  function IdByName(t: seq<Topic>, name: seq<bv8>): (r: Option<bv16>)
    ensures r.None? <==> forall k :: 0 <= k < |t| ==> t[k].name != name
    ensures r.Some? ==> exists k :: 0 <= k < |t| && t[k] == Topic(r.value, name)
                                    && forall j :: 0 <= j < k ==> t[j].name != name
  {
    var i := FindName(t, name);
    if i == |t| then None else Some(t[i].id)
  }

  /** The identifier mqttUnsubscribe sends and frees: the one found by name,
      or, when the name is in no slot, the indeterminate value `unset` that
      getTopicIdByName's missing return leaves. */
  function UnsubscribeId(t: seq<Topic>, name: seq<bv8>, unset: bv16): bv16
  {
    match IdByName(t, name)
    case Some(id) => id
    case None => unset
  }

  /** The identifiers of the slots, in order. */
  function Ids(t: seq<Topic>): (r: seq<bv16>)
    ensures |r| == |t| && forall k :: 0 <= k < |t| ==> r[k] == t[k].id
  {
    if t == [] then [] else [t[0].id] + Ids(t[1..])
  }

  /** The table as the program starts: zero-initialised slots, so no slot is
      free before mqttConnect marks them (mqtt.c:20, 55-58). */
  function InitialTopics(): (t: seq<Topic>)
    ensures |t| == MaxSubscribedTopics && forall k :: 0 <= k < |t| ==> t[k].id != FreeId
  {
    seq(MaxSubscribedTopics, _ => Topic(0, []))
  }

  /** The table after mqttConnect's loop (mqtt.c:55-58): every slot is
      free and keeps the name it had. */
  function FreeAll(t: seq<Topic>): (r: seq<Topic>)
    ensures |r| == |t| && forall k :: 0 <= k < |t| ==> r[k].id == FreeId && r[k].name == t[k].name
  {
    seq(|t|, k requires 0 <= k < |t| => t[k].(id := FreeId))
  }

  /** Subscribing to a name no slot holds with an identifier no slot holds
      files it under that identifier in the first free slot, if there is one. */
  lemma {:induction false} StoreThenFind(t: seq<Topic>, name: seq<bv8>, id: bv16)
    requires forall k :: 0 <= k < |t| ==> t[k].name != name
    requires FindId(t, FreeId) < |t|
    ensures IdByName(Store(t, name, id), name) == Some(id)
    ensures FindName(Store(t, name, id), name) == FindId(t, FreeId)
  {
    var i := FindId(t, FreeId);
    var r := Store(t, name, id);
    assert r[i] == Topic(id, name);
    FindNameAt(r, name, i);
  }

  /** The first slot named `name` is `i` when `i` has it and no slot before. */
  lemma FindNameAt(t: seq<Topic>, name: seq<bv8>, i: nat)
    requires i < |t| && t[i].name == name && forall k :: 0 <= k < i ==> t[k].name != name
    ensures FindName(t, name) == i
  {
  }

  /** Subscribing to a new name and then unsubscribing from it (mqtt.c:149,
      160 and 176) gives every slot back its identifier: the slot used is
      free again, with its name cleared. Without a free slot the
      subscription is not stored, and the unsubscription's identifier is
      whatever getTopicIdByName leaves. */
  lemma SubscribeThenUnsubscribe(t: seq<Topic>, name: seq<bv8>, id: bv16, unset: bv16)
    requires forall k :: 0 <= k < |t| ==> t[k].name != name
    requires forall k :: 0 <= k < |t| ==> t[k].id != id
    requires FindId(t, FreeId) < |t|
    ensures var t1 := Store(t, name, id);
            UnsubscribeId(t1, name, unset) == id && Ids(Remove(t1, id)) == Ids(t)
            && Remove(t1, id) == t[FindId(t, FreeId) := Topic(FreeId, [])]
  {
    var i := FindId(t, FreeId);
    var t1 := Store(t, name, id);
    StoreThenFind(t, name, id);
    FindIdAt(t1, id, i);
    var t2 := Remove(t1, id);
    assert t2 == t[i := Topic(FreeId, [])] by { RemoveStored(t, name, id, i); }
    IdsKeep(t, i, Topic(FreeId, []));
  }

  /** Freeing the slot a subscription just took gives the freed slot back. */
  lemma RemoveStored(t: seq<Topic>, name: seq<bv8>, id: bv16, i: nat)
    requires i == FindId(t, FreeId) < |t| && FindId(Store(t, name, id), id) == i
    ensures Remove(Store(t, name, id), id) == t[i := Topic(FreeId, [])]
  {
    var t1 := t[i := Topic(id, name)];
    assert Store(t, name, id) == t1;
    assert t1[i := Topic(FreeId, [])] == t[i := Topic(FreeId, [])];
  }

  /** Replacing a slot by one with the same identifier keeps the identifiers. */
  lemma IdsKeep(t: seq<Topic>, i: nat, x: Topic)
    requires i < |t| && t[i].id == x.id
    ensures Ids(t[i := x]) == Ids(t)
  {
    var a := Ids(t[i := x]);
    var b := Ids(t);
    assert forall k :: 0 <= k < |a| ==> a[k] == b[k];
  }

  /** The first slot holding `id` is `i` when `i` has it and no slot before. */
  lemma FindIdAt(t: seq<Topic>, id: bv16, i: nat)
    requires i < |t| && t[i].id == id && forall k :: 0 <= k < i ==> t[k].id != id
    ensures FindId(t, id) == i
  {
  }

  // ---------------------------------------------------------------------
  // The message buffer
  // ---------------------------------------------------------------------

  /** appendToPayload (mqtt.c:43-47): copies `data` to `buffer` at `off` and
      returns how many bytes it copied. */
  method AppendToPayload(buffer: array<bv8>, off: nat, data: seq<bv8>) returns (n: nat)
    requires off + |data| <= buffer.Length && |data| < 0x100
    modifies buffer
    ensures n == |data| && buffer[..] == Put(old(buffer[..]), off, data)
  {
    Write(buffer, off, data);
    n := |data|;
  }

  /** Appends `data` after the `|acc|` bytes already composed at the start of
      `buffer` (`len += appendToPayload(&buff[len], data, |data|)`). */
  method Append(buffer: array<bv8>, ghost s0: seq<bv8>, ghost acc: seq<bv8>, len: nat, data: seq<bv8>) returns (len': nat)
    requires len == |acc| && |acc| + |data| <= buffer.Length == |s0| && |data| < 0x100
    requires buffer[..] == Put(s0, 0, acc)
    modifies buffer
    ensures len' == |acc + data| && buffer[..] == Put(s0, 0, acc + data)
  {
    var n := AppendToPayload(buffer, len, data);
    len' := len + n;
    PutAfter(s0, acc, data);
  }

  /** The start of a buffer written from offset 0 reads back. */
  lemma PutPrefix(s: seq<bv8>, x: seq<bv8>)
    requires |x| <= |s|
    ensures Put(s, 0, x)[..|x|] == x
  {
    PutPart(s, 0, x, 0, |x|);
  }

  /** The CONNECT packet composed in `buffer` as mqttConnect appends it:
      fixed header, mqttFrameConnect, client identifier (mqtt.c:84-89). */
  method ComposeConnect(buffer: array<bv8>) returns (len: nat)
    requires buffer.Length == MaxMsgSize
    modifies buffer
    ensures buffer[..] == Put(old(buffer[..]), 0, ConnectPacket()) && len == |ConnectPacket()|
    ensures buffer[..len] == ConnectPacket()
  {
    var h := FixedHeader(TypeConnect, 0, ConnectFrameSize + |ClientName()|);
    ghost var s0 := buffer[..];
    len := 0;
    len := Append(buffer, s0, [], len, h);
    len := Append(buffer, s0, h, len, ConnectFrame());
    len := Append(buffer, s0, h + ConnectFrame(), len, ClientName());
    ConnectParts();
    PutPrefix(s0, ConnectPacket());
  }

  /** SUBSCRIBE composed as mqttSubscribe appends it: fixed header,
      mqttFrameSubscribe, topic filter, QoS byte (mqtt.c:138-144). */
  method ComposeSubscribe(buffer: array<bv8>, id: bv16, filter: seq<bv8>, qos: bv8) returns (len: nat)
    requires buffer.Length == MaxMsgSize && |filter| < MaxTopicNameSize
    modifies buffer
    ensures buffer[..] == Put(old(buffer[..]), 0, SubscribePacket(id, filter, qos))
    ensures len == |SubscribePacket(id, filter, qos)| && buffer[..len] == SubscribePacket(id, filter, qos)
  {
    var h := FixedHeader(TypeSubscribe, 2, SubscribeFrameSize + |filter| + 1);
    ghost var s0 := buffer[..];
    len := 0;
    len := Append(buffer, s0, [], len, h);
    len := Append(buffer, s0, h, len, SubscribeFrame(id, |filter|));
    len := Append(buffer, s0, h + SubscribeFrame(id, |filter|), len, filter);
    len := Append(buffer, s0, h + SubscribeFrame(id, |filter|) + filter, len, [qos]);
    SubscribeParts(id, filter, qos);
    PutPrefix(s0, SubscribePacket(id, filter, qos));
  }

  /** CONNECT is the concatenation of the parts mqttConnect appends. */
  lemma ConnectParts()
    ensures FixedHeader(TypeConnect, 0, ConnectFrameSize + |ClientName()|) + ConnectFrame() + ClientName() == ConnectPacket()
  {
  }

  /** UNSUBSCRIBE is the concatenation of the parts mqttUnsubscribe appends. */
  lemma UnsubscribeParts(id: bv16, filter: seq<bv8>)
    ensures FixedHeader(TypeUnsubscribe, 2, SubscribeFrameSize + |filter|) + SubscribeFrame(id, |filter|) + filter
            == UnsubscribePacket(id, filter)
  {
  }

  /** PUBLISH is the concatenation of the parts mqttPublish appends. */
  lemma PublishParts(qos: bv8, topic: seq<bv8>, value: seq<bv8>, pid: bv16, unset: bv8)
    ensures PublishHead(qos, topic, value, unset) + PublishId(qos, pid) + value == PublishPacket(qos, topic, value, pid, unset)
  {
  }

  /** SUBSCRIBE is the concatenation of the parts mqttSubscribe appends. */
  lemma SubscribeParts(id: bv16, filter: seq<bv8>, qos: bv8)
    ensures FixedHeader(TypeSubscribe, 2, SubscribeFrameSize + |filter| + 1) + SubscribeFrame(id, |filter|) + filter + [qos]
            == SubscribePacket(id, filter, qos)
  {
  }

  /** UNSUBSCRIBE composed as mqttUnsubscribe appends it: fixed header,
      mqttFrameUnsubscribe, topic filter (mqtt.c:167-172). */
  method ComposeUnsubscribe(buffer: array<bv8>, id: bv16, filter: seq<bv8>) returns (len: nat)
    requires buffer.Length == MaxMsgSize && |filter| < MaxTopicNameSize
    modifies buffer
    ensures buffer[..] == Put(old(buffer[..]), 0, UnsubscribePacket(id, filter))
    ensures len == |UnsubscribePacket(id, filter)| && buffer[..len] == UnsubscribePacket(id, filter)
  {
    var h := FixedHeader(TypeUnsubscribe, 2, SubscribeFrameSize + |filter|);
    ghost var s0 := buffer[..];
    len := 0;
    len := Append(buffer, s0, [], len, h);
    len := Append(buffer, s0, h, len, SubscribeFrame(id, |filter|));
    len := Append(buffer, s0, h + SubscribeFrame(id, |filter|), len, filter);
    UnsubscribeParts(id, filter);
    PutPrefix(s0, UnsubscribePacket(id, filter));
  }

  /** The start of PUBLISH as mqttPublish appends it before the packet
      identifier: fixed header, topic length, topic (mqtt.c:208-215). */
  method ComposePublishTopic(buffer: array<bv8>, qos: bv8, topic: seq<bv8>, value: seq<bv8>, unset: bv8) returns (len: nat)
    requires buffer.Length == MaxMsgSize && PublishSize(qos, topic, value) <= MaxMsgSize
    modifies buffer
    ensures buffer[..] == Put(old(buffer[..]), 0, PublishHead(qos, topic, value, unset))
    ensures len == |PublishHead(qos, topic, value, unset)|
  {
    var h := FixedHeader(TypePublish, PublishFlags(qos, unset), PublishLength(qos, topic, value));
    ghost var s0 := buffer[..];
    len := 0;
    len := Append(buffer, s0, [], len, h);
    len := Append(buffer, s0, h, len, BE16N(|topic|));
    len := Append(buffer, s0, h + BE16N(|topic|), len, topic);
  }

  /** The fixed header, topic length and topic of a PUBLISH. */
  function PublishHead(qos: bv8, topic: seq<bv8>, value: seq<bv8>, unset: bv8): (r: seq<bv8>)
    ensures |r| == 4 + |topic|
  {
    FixedHeader(TypePublish, PublishFlags(qos, unset), PublishLength(qos, topic, value)) + BE16N(|topic|) + topic
  }

  /** The rest of PUBLISH: the packet identifier for QoS 1 and 2, then the
      value (mqtt.c:216-222). */
  method ComposePublishRest(buffer: array<bv8>, ghost s0: seq<bv8>, len: nat, qos: bv8, topic: seq<bv8>, value: seq<bv8>, pid: bv16, unset: bv8)
    returns (len': nat)
    requires buffer.Length == MaxMsgSize == |s0| && PublishSize(qos, topic, value) <= MaxMsgSize
    requires buffer[..] == Put(s0, 0, PublishHead(qos, topic, value, unset)) && len == |PublishHead(qos, topic, value, unset)|
    modifies buffer
    ensures buffer[..] == Put(s0, 0, PublishPacket(qos, topic, value, pid, unset))
    ensures len' == |PublishPacket(qos, topic, value, pid, unset)|
    ensures buffer[..len'] == PublishPacket(qos, topic, value, pid, unset)
  {
    var head := PublishHead(qos, topic, value, unset);
    len' := len;
    if qos == 1 || qos == 2 {
      len' := Append(buffer, s0, head, len', BE16(pid));
    }
    len' := Append(buffer, s0, head + PublishId(qos, pid), len', value);
    PublishParts(qos, topic, value, pid, unset);
    PutPrefix(s0, PublishPacket(qos, topic, value, pid, unset));
  }

  /** The PUBLISH of mqttPublish written from the start of the buffer
      (mqtt.c:186-222). */
  method ComposePublishMessage(buffer: array<bv8>, qos: bv8, topic: seq<bv8>, value: seq<bv8>, pid: bv16, unset: bv8)
    returns (len: nat)
    requires buffer.Length == MaxMsgSize && PublishSize(qos, topic, value) <= MaxMsgSize
    modifies buffer
    ensures buffer[..] == Put(old(buffer[..]), 0, PublishPacket(qos, topic, value, pid, unset))
    ensures len == |PublishPacket(qos, topic, value, pid, unset)| && buffer[..len] == PublishPacket(qos, topic, value, pid, unset)
  {
    ghost var s0 := buffer[..];
    len := ComposePublishTopic(buffer, qos, topic, value, unset);
    len := ComposePublishRest(buffer, s0, len, qos, topic, value, pid, unset);
  }

  // ---------------------------------------------------------------------
  // The client
  // ---------------------------------------------------------------------

  /** clientState, msgBuff, guid and subscribedTopics of mqtt.c, with the TCP
      endpoint the packets travel on and the timers the client arms. */
  class MqttClient {
    var qos: bv8
    var brokerIp: IpAddress
    var brokerMac: MacAddress
    var connectionState: bv8
    var isEmpty: bool
    var msgLen: MsgLength
    const buff: array<bv8>
    var guid: bv16
    const topics: array<Topic>
    ghost var timers: Timers
    const tcp: Tcp.TcpEngine

    ghost predicate Valid()
      reads tcp, tcp.link
    {
      buff.Length == MaxMsgSize && topics.Length == MaxSubscribedTopics && tcp.Valid()
    }

    /** The frame log shows one more segment, `data` pushed to the broker on
        the connection as it was in `c0` when the log was `sent0`, and the
        connection's sequence number has moved past it. */
    ghost predicate SentToBroker(data: seq<bv8>, brokerMac: seq<bv8>, brokerIp: seq<bv8>, c0: Tcp.Conn, sent0: seq<seq<bv8>>)
      reads tcp, tcp.link
    {
      tcp.Current() == c0.(runningSeqn := Tcp.OutboundSeq(Tcp.Ack | Tcp.Push, |data|, c0.runningSeqn).1)
      && |tcp.link.sent| == |sent0| + 1 && tcp.link.sent[..|sent0|] == sent0
      && var f := tcp.link.sent[|sent0|];
         Tcp.Segment(f, c0.runningSeqn, c0.ackToSend, Tcp.Ack | Tcp.Push, data, tcp.link.checksum)
         && Tcp.Addressed(f, brokerMac, tcp.link.macAddress, tcp.link.ipAddress, brokerIp, c0.myPort, BrokerPort as nat)
    }

    /** The frame log shows one more segment, the SYN that opens a
        connection from port `rnd` mod 2^16 to the broker's port, and the
        connection is waiting for the SYN|ACK. */
    ghost predicate OpenedTo(brokerMac: seq<bv8>, brokerIp: seq<bv8>, rnd: nat, sent0: seq<seq<bv8>>)
      reads tcp, tcp.link
    {
      tcp.Current() == Tcp.Conn(Tcp.SynSent, 1, rnd % Tcp.Mod16, BrokerPort as nat, 0)
      && |tcp.link.sent| == |sent0| + 1 && tcp.link.sent[..|sent0|] == sent0
      && var f := tcp.link.sent[|sent0|];
         Tcp.Segment(f, 0, 0, Tcp.Syn, [], tcp.link.checksum)
         && Tcp.Addressed(f, brokerMac, tcp.link.macAddress, tcp.link.ipAddress, brokerIp, rnd % Tcp.Mod16, BrokerPort as nat)
    }

    /** The initial clientState, msgBuff, guid and topic table (mqtt.c:19-20,
        36-40). brokerMac lists four bytes; the other two are zero. */
    constructor (tcp: Tcp.TcpEngine)
      requires tcp.Valid()
      ensures Valid() && this.tcp == tcp && fresh(buff) && fresh(topics)
      ensures qos == 0 && brokerIp == [0, 0, 0, 0] && brokerMac == [0x0F, 0xFF, 0xFF, 0xFF, 0, 0]
      ensures connectionState == Disconnected && isEmpty && msgLen == 0 && guid == 1
      ensures topics[..] == InitialTopics() && timers == map[]
    {
      qos := 0;
      brokerIp := [0, 0, 0, 0];
      brokerMac := [0x0F, 0xFF, 0xFF, 0xFF, 0, 0];
      connectionState := Disconnected;
      isEmpty := true;
      msgLen := 0;
      buff := new bv8[MaxMsgSize](_ => 0);
      guid := 1;
      topics := new Topic[MaxSubscribedTopics](_ => Topic(0, []));
      timers := map[];
      this.tcp := tcp;
      new;
      assert topics[..] == InitialTopics();
    }

    /** getNewGuid (mqtt.c:284-287): the post-increment of a uint16_t. */
    method GetNewGuid() returns (id: bv16)
      modifies this`guid
      ensures id == old(guid) && guid == old(guid) + 1
    {
      id := guid;
      guid := guid + 1;
    }

    /** sendMqttPayload (mqtt.c:235-244): a composed message goes out once as
        an ACK|PUSH segment to the broker; a sent (or never composed) buffer
        sends nothing. */
    method SendMqttPayload()
      requires Valid()
      modifies this`isEmpty, tcp, tcp.link`sent
      ensures Valid() && isEmpty
      ensures old(isEmpty) ==> tcp.Current() == old(tcp.Current()) && tcp.link.sent == old(tcp.link.sent)
      ensures !old(isEmpty) ==> SentToBroker(old(buff[..msgLen]), brokerMac, brokerIp, old(tcp.Current()), old(tcp.link.sent))
    {
      if !isEmpty {
        tcp.SendTcpPacket(buff[..msgLen], Tcp.Ack | Tcp.Push, brokerMac, brokerIp, BrokerPort as nat);
        isEmpty := true;
      }
    }

    /** retryMqttMsgResend (mqtt.c:230-233), the periodic resend callback. */
    method RetryMqttMsgResend()
      requires Valid()
      modifies this`isEmpty, tcp, tcp.link`sent
      ensures Valid() && isEmpty
      ensures old(isEmpty) ==> tcp.Current() == old(tcp.Current()) && tcp.link.sent == old(tcp.link.sent)
      ensures !old(isEmpty) ==> SentToBroker(old(buff[..msgLen]), brokerMac, brokerIp, old(tcp.Current()), old(tcp.link.sent))
    {
      SendMqttPayload();
    }

    /** Sends a control packet that does not go through the message buffer. */
    method SendControl(p: seq<bv8>)
      requires Valid() && |p| < 0x100
      modifies tcp, tcp.link`sent
      ensures Valid() && SentToBroker(p, brokerMac, brokerIp, old(tcp.Current()), old(tcp.link.sent))
    {
      tcp.SendTcpPacket(p, Tcp.Ack | Tcp.Push, brokerMac, brokerIp, BrokerPort as nat);
    }

    /** mqttConnect (mqtt.c:49-102): records the broker and the QoS, frees
        every slot of the topic table, composes CONNECT, and sends it if the
        TCP connection is up; otherwise it opens the connection and leaves the
        message to the resend timer. */
    method MqttConnect(serverIp: seq<bv8>, serverMac: seq<bv8>, q: bv8, rnd: nat)
      requires Valid() && |serverIp| == IpAddLength && |serverMac| == HwAddLength
      modifies this`brokerMac, this`brokerIp, this`qos, this`msgLen, this`isEmpty, this`timers
      modifies buff, topics, tcp, tcp.link`sent
      ensures Valid() && brokerMac == serverMac && brokerIp == serverIp && qos == q
      ensures topics[..] == FreeAll(old(topics[..]))
      ensures buff[..] == Put(old(buff[..]), 0, ConnectPacket()) && msgLen == |ConnectPacket()|
      ensures old(tcp.state) == Tcp.Established ==>
                isEmpty && timers == old(timers)
                && SentToBroker(ConnectPacket(), brokerMac, brokerIp, old(tcp.Current()), old(tcp.link.sent))
      ensures old(tcp.state) != Tcp.Established ==>
                !isEmpty && timers == old(timers)[TimerTag.RetryMqttMsgResend := Periodic(ResendPeriod)]
                && OpenedTo(serverMac, serverIp, rnd, old(tcp.link.sent))
    {
      ghost var c0, sent0 := tcp.Current(), tcp.link.sent;
      PrepareConnect(serverIp, serverMac, q);
      assert tcp.Current() == c0 && tcp.link.sent == sent0 && tcp.Valid();
      ConnectOrSend(rnd, ConnectPacket(), c0, sent0);
    }

    /** The first part of mqttConnect (mqtt.c:51-90): the broker's
        addresses, the freed topic table, the QoS and the CONNECT message. */
    method PrepareConnect(serverIp: seq<bv8>, serverMac: seq<bv8>, q: bv8)
      requires buff.Length == MaxMsgSize && topics.Length == MaxSubscribedTopics
      requires |serverIp| == IpAddLength && |serverMac| == HwAddLength
      modifies this`brokerMac, this`brokerIp, this`qos, this`msgLen, buff, topics
      ensures brokerMac == serverMac && brokerIp == serverIp && qos == q
      ensures topics[..] == FreeAll(old(topics[..]))
      ensures buff[..] == Put(old(buff[..]), 0, ConnectPacket()) && msgLen == |ConnectPacket()|
      ensures buff[..msgLen] == ConnectPacket()
    {
      brokerMac := serverMac;
      brokerIp := serverIp;
      FreeAllTopics();
      qos := q;
      var len := ComposeConnect(buff);
      msgLen := len;
    }

    /** The end of mqttConnect (mqtt.c:91-101): the composed message is sent
        at once on an established connection; otherwise the connection is
        opened and the resend timer armed. */
    method ConnectOrSend(rnd: nat, ghost data: seq<bv8>, ghost c0: Tcp.Conn, ghost sent0: seq<seq<bv8>>)
      requires Valid() && buff[..msgLen] == data && tcp.Current() == c0 && tcp.link.sent == sent0
      modifies this`isEmpty, this`timers, tcp, tcp.link`sent
      ensures Valid()
      ensures unchanged(this`brokerMac, this`brokerIp, this`qos, this`msgLen, buff, topics)
      ensures c0.state == Tcp.Established ==>
                isEmpty && timers == old(timers)
                && SentToBroker(data, brokerMac, brokerIp, c0, sent0)
      ensures c0.state != Tcp.Established ==>
                !isEmpty && timers == old(timers)[TimerTag.RetryMqttMsgResend := Periodic(ResendPeriod)]
                && OpenedTo(brokerMac, brokerIp, rnd, sent0)
    {
      if tcp.GetTcpConnectionState() == Tcp.Established {
        SendComposed(data, c0, sent0);
      } else {
        OpenForResend(rnd, sent0);
      }
    }

    /** mqtt.c:91-96: on an established connection the message goes out now. */
    method SendComposed(ghost data: seq<bv8>, ghost c0: Tcp.Conn, ghost sent0: seq<seq<bv8>>)
      requires Valid() && buff[..msgLen] == data && tcp.Current() == c0 && tcp.link.sent == sent0
      modifies this`isEmpty, tcp, tcp.link`sent
      ensures Valid() && isEmpty
      ensures unchanged(this`brokerMac, this`brokerIp, this`qos, this`msgLen, buff, topics)
      ensures SentToBroker(data, brokerMac, brokerIp, c0, sent0)
    {
      isEmpty := false;
      SendMqttPayload();
    }

    /** mqtt.c:91, 97-101: otherwise the connection is opened and the message
        waits in the buffer for the resend timer. */
    method OpenForResend(rnd: nat, ghost sent0: seq<seq<bv8>>)
      requires Valid() && tcp.link.sent == sent0
      modifies this`isEmpty, this`timers, tcp, tcp.link`sent
      ensures Valid() && !isEmpty
      ensures unchanged(this`brokerMac, this`brokerIp, this`qos, this`msgLen, buff, topics)
      ensures timers == old(timers)[TimerTag.RetryMqttMsgResend := Periodic(ResendPeriod)]
      ensures OpenedTo(brokerMac, brokerIp, rnd, sent0)
    {
      isEmpty := false;
      tcp.EstablishConnection(brokerMac, brokerIp, BrokerPort as nat, rnd);
      timers := timers[TimerTag.RetryMqttMsgResend := Periodic(ResendPeriod)];
    }

    /** The loop of mqttConnect that marks every slot free (mqtt.c:54-58). */
    method FreeAllTopics()
      requires topics.Length == MaxSubscribedTopics
      modifies topics
      ensures topics[..] == FreeAll(old(topics[..]))
    {
      var i := 0;
      while i < MaxSubscribedTopics
        invariant 0 <= i <= MaxSubscribedTopics
        invariant forall k :: 0 <= k < i ==> topics[k] == old(topics[k]).(id := FreeId)
        invariant forall k :: i <= k < topics.Length ==> topics[k] == old(topics[k])
      {
        topics[i] := topics[i].(id := FreeId);
        i := i + 1;
      }
    }

    /** mqttDisconnect (mqtt.c:104-114): stops the keep-alive and resend
        timers, marks the client disconnected and sends DISCONNECT. The
        message buffer is left as it is. */
    method MqttDisconnect()
      requires Valid()
      modifies this`connectionState, this`timers, tcp, tcp.link`sent
      ensures Valid() && connectionState == Disconnected
      ensures timers == old(timers) - {TimerTag.MqttPing, TimerTag.RetryMqttMsgResend}
      ensures SentToBroker(DisconnectPacket(), brokerMac, brokerIp, old(tcp.Current()), old(tcp.link.sent))
    {
      timers := timers - {TimerTag.MqttPing, TimerTag.RetryMqttMsgResend};
      connectionState := Disconnected;
      SendControl(DisconnectPacket());
    }

    /** mqttPing (mqtt.c:116-123): sends PINGREQ. */
    method MqttPing()
      requires Valid()
      modifies tcp, tcp.link`sent
      ensures Valid() && SentToBroker(PingPacket(), brokerMac, brokerIp, old(tcp.Current()), old(tcp.link.sent))
    {
      SendControl(PingPacket());
    }

    /** mqttSubscribe (mqtt.c:125-151): composes SUBSCRIBE under a fresh
        packet identifier, sends it, then files the topic under that
        identifier. */
    method MqttSubscribe(filter: seq<bv8>)
      requires Valid() && TopicString(filter)
      modifies this`guid, this`msgLen, this`isEmpty, buff, topics, tcp, tcp.link`sent
      ensures Valid() && guid == old(guid) + 1 && isEmpty
      ensures buff[..] == Put(old(buff[..]), 0, SubscribePacket(old(guid), filter, qos))
      ensures msgLen == |SubscribePacket(old(guid), filter, qos)|
      ensures SentToBroker(SubscribePacket(old(guid), filter, qos), brokerMac, brokerIp, old(tcp.Current()), old(tcp.link.sent))
      ensures topics[..] == Store(old(topics[..]), filter, old(guid))
    {
      var topicId := PrepareSubscribe(filter);
      SendMqttPayload();
      StoreSubscribedTopic(filter, topicId);
    }

    /** The first part of mqttSubscribe (mqtt.c:127-146): a fresh packet
        identifier and the SUBSCRIBE message in the buffer. */
    method PrepareSubscribe(filter: seq<bv8>) returns (topicId: bv16)
      requires buff.Length == MaxMsgSize && TopicString(filter)
      modifies this`guid, this`msgLen, this`isEmpty, buff
      ensures topicId == old(guid) && guid == old(guid) + 1 && !isEmpty
      ensures buff[..] == Put(old(buff[..]), 0, SubscribePacket(topicId, filter, qos))
      ensures msgLen == |SubscribePacket(topicId, filter, qos)| && buff[..msgLen] == SubscribePacket(topicId, filter, qos)
    {
      topicId := GetNewGuid();
      var len := ComposeSubscribe(buff, topicId, filter, qos);
      msgLen := len;
      isEmpty := false;
    }

    /** mqttUnsubscribe (mqtt.c:153-179): looks the identifier up by name
        (`unset` stands for what a failed lookup returns), composes
        UNSUBSCRIBE, frees the slot, then sends. */
    method MqttUnsubscribe(filter: seq<bv8>, unset: bv16)
      requires Valid() && TopicString(filter)
      modifies this`msgLen, this`isEmpty, buff, topics, tcp, tcp.link`sent
      ensures Valid() && isEmpty
      ensures var id := UnsubscribeId(old(topics[..]), filter, unset);
              buff[..] == Put(old(buff[..]), 0, UnsubscribePacket(id, filter))
              && msgLen == |UnsubscribePacket(id, filter)|
              && SentToBroker(UnsubscribePacket(id, filter), brokerMac, brokerIp, old(tcp.Current()), old(tcp.link.sent))
              && topics[..] == Remove(old(topics[..]), id)
    {
      var topicId := PrepareUnsubscribe(filter, unset);
      SendMqttPayload();
    }

    /** mqttUnsubscribe up to the send (mqtt.c:155-176): the identifier
        looked up by name, the UNSUBSCRIBE message in the buffer and the
        slot freed. */
    method PrepareUnsubscribe(filter: seq<bv8>, unset: bv16) returns (topicId: bv16)
      requires buff.Length == MaxMsgSize && topics.Length == MaxSubscribedTopics && TopicString(filter)
      modifies this`msgLen, this`isEmpty, buff, topics
      ensures topicId == UnsubscribeId(old(topics[..]), filter, unset) && !isEmpty
      ensures buff[..] == Put(old(buff[..]), 0, UnsubscribePacket(topicId, filter))
      ensures msgLen == |UnsubscribePacket(topicId, filter)| && buff[..msgLen] == UnsubscribePacket(topicId, filter)
      ensures topics[..] == Remove(old(topics[..]), topicId)
    {
      var found := GetTopicIdByName(filter);
      topicId := if found.Some? then found.value else unset;
      var len := ComposeUnsubscribe(buff, topicId, filter);
      msgLen := len;
      isEmpty := false;
      RemoveUnsubscribedTopic(filter, topicId);
    }

    /** mqttPublish (mqtt.c:181-228): composes PUBLISH for the current QoS,
        taking a fresh packet identifier for QoS 1 and 2, and sends it. The
        lengths passed are those of `topic` and `value`; `unset` is what the
        header's flag bits hold when the QoS is above 2. */
    method MqttPublish(topic: seq<bv8>, value: seq<bv8>, unset: bv8)
      requires Valid() && PublishSize(qos, topic, value) <= MaxMsgSize
      modifies this`guid, this`msgLen, this`isEmpty, buff, tcp, tcp.link`sent
      ensures Valid() && isEmpty
      ensures guid == if HasPacketId(qos) then old(guid) + 1 else old(guid)
      ensures var p := PublishPacket(qos, topic, value, old(guid), unset);
              buff[..] == Put(old(buff[..]), 0, p) && msgLen == |p|
              && SentToBroker(p, brokerMac, brokerIp, old(tcp.Current()), old(tcp.link.sent))
    {
      ghost var p := PublishPacket(qos, topic, value, guid, unset);
      PreparePublish(topic, value, unset);
      assert buff[..msgLen] == p;
      SendMqttPayload();
    }

    /** mqttPublish up to the send (mqtt.c:183-226): the PUBLISH message in
        the buffer, under a fresh packet identifier for QoS 1 and 2. */
    method PreparePublish(topic: seq<bv8>, value: seq<bv8>, unset: bv8)
      requires buff.Length == MaxMsgSize && PublishSize(qos, topic, value) <= MaxMsgSize
      modifies this`guid, this`msgLen, this`isEmpty, buff
      ensures guid == if HasPacketId(qos) then old(guid) + 1 else old(guid)
      ensures var p := PublishPacket(qos, topic, value, old(guid), unset);
              buff[..] == Put(old(buff[..]), 0, p) && msgLen == |p| && buff[..msgLen] == p && !isEmpty
    {
      var packetId := guid;
      if qos == 1 || qos == 2 {
        packetId := GetNewGuid();
      }
      var len := ComposePublishMessage(buff, qos, topic, value, packetId, unset);
      msgLen := len;
      isEmpty := false;
    }

    /** processMqttMessage (mqtt.c:246-266): a CONNACK arms the keep-alive
        ping and marks the client connected; a PINGRESP only flashes the LED;
        every other type changes nothing. */
    method ProcessMqttMessage(packet: seq<bv8>)
      requires Valid() && IsFrame(packet)
      modifies this`connectionState, this`timers
      ensures Valid()
      ensures InboundType(packet) == TypeConnAck ==>
                connectionState == Connected && timers == old(timers)[TimerTag.MqttPing := Periodic(PingPeriod)]
      ensures InboundType(packet) != TypeConnAck ==>
                connectionState == old(connectionState) && timers == old(timers)
    {
      var packetType := InboundType(packet);
      if packetType == TypeConnAck {
        timers := timers[TimerTag.MqttPing := Periodic(PingPeriod)];
        connectionState := Connected;
      }
    }

  /** storeSubscribedTopic (mqtt.c:289-301). */
    method StoreSubscribedTopic(filter: seq<bv8>, id: bv16)
      requires topics.Length == MaxSubscribedTopics
      modifies topics
      ensures topics[..] == Store(old(topics[..]), filter, id)
    {
      var i := 0;
      while i < MaxSubscribedTopics
        invariant 0 <= i <= MaxSubscribedTopics && topics[..] == old(topics[..])
        invariant forall k :: 0 <= k < i ==> topics[k].id != FreeId
      {
        if topics[i].id == FreeId {
          FindIdAt(topics[..], FreeId, i);
          topics[i] := Topic(id, filter);
          return;
        }
        i := i + 1;
      }
    }

    /** removeUnsubscribedTopic (mqtt.c:302-314). */
    method RemoveUnsubscribedTopic(filter: seq<bv8>, id: bv16)
      requires topics.Length == MaxSubscribedTopics
      modifies topics
      ensures topics[..] == Remove(old(topics[..]), id)
    {
      var i := 0;
      while i < MaxSubscribedTopics
        invariant 0 <= i <= MaxSubscribedTopics && topics[..] == old(topics[..])
        invariant forall k :: 0 <= k < i ==> topics[k].id != id
      {
        if topics[i].id == id {
          FindIdAt(topics[..], id, i);
          topics[i] := Topic(FreeId, []);
          return;
        }
        i := i + 1;
      }
    }

    /** getTopicIdByName (mqtt.c:315-325). */
    method GetTopicIdByName(filter: seq<bv8>) returns (r: Option<bv16>)
      requires topics.Length == MaxSubscribedTopics
      ensures r == IdByName(topics[..], filter)
    {
      var i := 0;
      while i < MaxSubscribedTopics
        invariant 0 <= i <= MaxSubscribedTopics
        invariant forall k :: 0 <= k < i ==> topics[k].name != filter
      {
        if topics[i].name == filter {
          FindNameAt(topics[..], filter, i);
          return Some(topics[i].id);
        }
        i := i + 1;
      }
      return None;
    }
  }
}

# IoT-on-M4 networking core in Dafny

This project models the networking core of IoT-on-M4, firmware for a TM4C123 board with an
ENC28J60 Ethernet controller. The core has four parts, each a single-owner component that keeps a
small global state record and reads or writes fixed-layout byte buffers:

- **DHCP client** (`dhcp.c`, module `Dhcp`). The class `DhcpClient` holds `dhcpState` and `offerData`.
  - It runs the client state machine of section 4.4 of RFC 2131: INIT, SELECTING, REQUESTING,
    IPVALIDATING, BOUND, RENEWING, REBINDING.
  - It walks the options of RFC 2132 in a received frame, as the code does it.
  - It builds DISCOVER, REQUEST, RELEASE and DECLINE frames in a buffer of `MAX_PACKET_SIZE` (1522) bytes.
  - It arms and stops the callback timers.
- **TCP engine** (`tcp.c`, module `Tcp`). The class `TcpEngine` holds `tcpState`.
  - It is a one-connection subset of RFC 793: LISTEN, SYN_SENT and ESTABLISHED.
  - It tracks the sequence and acknowledgement numbers of section 3.3.
  - It rewrites a received frame into its own reply in place.
  - It builds fresh segments toward the broker.
  - The reply rewrites the flags byte that `processTcpMessage` tests next. The model keeps that
    aliasing, so it sends the same replies the code sends.
- **MQTT 3.1.1 client** (`mqtt.c`, modules `MqttPackets` and `Mqtt`). The class `MqttClient` holds the
  client state.
  - It keeps one 110-byte message buffer (the mailbox), a 10-slot topic table with 0xFF as the
    free identifier, and the packet-identifier counter `guid`.
  - It builds CONNECT, SUBSCRIBE, UNSUBSCRIBE, PUBLISH, PINGREQ and DISCONNECT packets.
  - It dispatches inbound packets.
  - `MqttPackets.Decode` is an independent reader of the packet formats of MQTT 3.1.1. The
    round-trip lemmas run every built packet through it.
- **CLI text processing** (`uart0.c`, module `Uart`):
  - the line editor `getsUart0`, over a sequence of input characters;
  - `toLowerCase`;
  - the tokenizer `parseFields`;
  - `isDigit`;
  - the dotted-quad parser `IPStrToUint32`;
  - the divisor arithmetic of `setUart0BaudRate`.

The other modules hold what the four components share:

- `Bytes`: the byte-order helpers of `common.h`, and `Put`/`Write`, the model of `memcpy` into a
  buffer.
- `Frames`: the Ethernet, IP and UDP overlays of `common.h`.
- `Platform`: the network interface, class `Link`. It holds the MAC, IP, mask, gateway and DNS
  configuration written by `etherSet*`; `etherPutPacket` appends to its log of sent frames, the
  field `sent`; the checksum is an abstract function `checksum` applied to the exact bytes the
  source sums. `Platform` also holds the timer service, a ghost map from callback tag to one-shot
  or periodic timer and its period.

Every component is a class with the source's global state as fields, written by methods with
`modifies` clauses. Each method is proved against a specification function of the old state and
the inputs. The properties are proved about those functions: round trips, classifier
equivalences, the replies of each TCP state, lease-timer ordering, and parser acceptance and
rejection.

## Model

| member | source | states |
|---|---|---|
| Bytes.BE16Inverse | common.h:28-31 | reading back a 16-bit field stored in network order gives the value |
| Bytes.U16Inverse | common.h:28-31 | every two-byte field is the network-order form of the value it reads as |
| Bytes.BE32Inverse | common.h:28-31 | reading back a 32-bit field stored in network order gives the value |
| Bytes.U32Inverse | common.h:28-31 | every four-byte field is the network-order form of the value it reads as |
| Bytes.HtonlInMemory | common.h:97-101 | storing htonl(v) natively on the little-endian target puts v on the wire most significant byte first |
| Bytes.HtonlInvolution | common.h:29-31 | htonl undoes itself, so ntohl is htonl |
| Bytes.HtonsInvolution | common.h:28-30 | htons undoes itself, so ntohs is htons |
| Bytes.Num16Inverse | common.h:28-31 | a count below 2^16 stored in a 16-bit wire field reads back unchanged |
| Bytes.Num32Inverse | common.h:29-31 | a counter below 2^32 stored in a 32-bit wire field reads back unchanged |
| Bytes.Write | mqtt.c:45 | memcpy into a buffer: exactly the target span holds the copied bytes and all other bytes keep their values |
| Bytes.SwapSpans | tcp.c:130-144 | the element-by-element swap loops exchange two disjoint spans and leave all other bytes as they were |
| Bytes.SwapSpansMoved | tcp.c:130-144 | after the swap each span holds what the other held |
| Bytes.SwapOut | tcp.c:130-144 | bytes outside both spans are untouched by the swap |
| Platform.Link.SetIpAddress | dhcp.c:440-441 | etherSetIpAddress makes the interface address the four given bytes |
| Platform.Link.SetIpSubnetMask | dhcp.c:442-443 | etherSetIpSubnetMask makes the mask the four given bytes |
| Platform.Link.SetIpGatewayAddress | dhcp.c:444-445 | etherSetIpGatewayAddress makes the router the four given bytes |
| Platform.Link.SetDns | dhcp.c:446-448 | etherSetDns makes the DNS server the four given bytes |
| Platform.Link.PutPacket | tcp.c:224-225 | etherPutPacket appends exactly the frame handed to it to the sent-frame log |
| Frames.Transport | common.h:45-57 | the transport header starts 4·IHL bytes after the IP header, within 60 bytes of it |
| Uart.BaudAtBoot | uart0.c:71-73 | the constants initUart0 hard-codes (21, 45) are what setUart0BaudRate computes for 115200 baud at 40 MHz |
| Uart.BaudIntegerPart | uart0.c:80-86 | without uint32 overflow of fcyc·8, IBRD is floor(fcyc / (16·baud)) |
| Uart.BaudRoundsUnlessCarry | uart0.c:80-86 | the written divisor equals the correctly rounded one exactly when the fraction does not round up to 64/64 |
| Uart.BaudCarryLost | uart0.c:84-85 | at 16 MHz and 125122 baud the routine writes 7 + 0/64 where the rounded divisor is 8 + 0/64 |
| Uart.RoundedBaudDivisorIsNearest | uart0.c:80-86 | the corrected divisor is within half a 1/128 step of the exact divisor |
| Uart.IsDigitExactly | uart0.c:201-204 | isDigit holds exactly for the ten characters '0'..'9' |
| Uart.ToLowerCase | uart0.c:112-124 | the in-place loop leaves the NUL-terminated string lower-cased (LowerString of the old contents) |
| Uart.LowerMapsCapitals | uart0.c:112-124 | lower-casing maps exactly 'A'..'Z' to 'a'..'z', leaves every other character, and leaves no capital |
| Uart.LowerStringIdempotent | uart0.c:112-124 | lower-casing twice is lower-casing once |
| Uart.LowerStringKeepsLength | uart0.c:112-124 | lower-casing keeps the buffer length and the position of the terminating NUL |
| Uart.EditStep | uart0.c:130-149 | one loop iteration: backspace or DEL drops the last kept character if there is one, other control bytes are discarded, the rest are appended; CR and LF end the line |
| Uart.EditStops | uart0.c:126-154 | the loop reads at most 50 characters and never past the input; no CR or LF comes before the last character read; unless the limit or the input stopped it, that last character is CR or LF |
| Uart.EditKeepsTyped | uart0.c:126-154 | the kept characters are exactly the typed line, the input with each backspace applied and control bytes dropped |
| Uart.TypedPrintable | uart0.c:134-148 | a typed line is no longer than its input and holds no control byte and no DEL |
| Uart.UserData.CharacterLoop | uart0.c:128-149 | the loop leaves buffer, count and characters read as Edit computes them, and echoes exactly the characters it read |
| Uart.UserData.GetsUart0 | uart0.c:126-154 | the buffer ends NUL-terminated with the edited line lower-cased, and the echo is the characters read plus a newline |
| Uart.TokensAreWords | uart0.c:158-168 | every token strtok yields is a non-empty run without spaces |
| Uart.TokensOfJoin | uart0.c:158-168 | splitting words joined by spaces gives the words back |
| Uart.UserData.ParseFields | uart0.c:156-193 | the first token is the command and the line is marked valid; publish/subscribe/unsubscribe route the next tokens to topic and value, "set" routes its third token through IPStrToUint32 into ip, any other command puts its second token in strParam |
| Uart.DigitLoop | uart0.c:219-229 | the inner loop reads up to three digits and returns the cursor after them and their decimal value |
| Uart.IPStrToUint32 | uart0.c:206-251 | the cursor-and-accumulator loops return IpParse of the string, for any initial accumulator |
| Uart.DottedQuad | uart0.c:206-251 | a well-formed a.b.c.d with octets of 1-3 digits, each at most 255, parses to htonl of the packed address, whatever the uninitialised accumulator held |
| Uart.QuadBytes | common.h:97-101 | through the ipconv union the parsed address lands in ip[] as [a, b, c, d] |
| Uart.OctetOver255 | uart0.c:230-233 | a dotted quad with any octet above 255 parses to 0 |
| Uart.NonDigitStart | uart0.c:213-218 | a string whose first character is not a digit parses to 0 |
| Uart.TrailingRejected | uart0.c:234-249 | anything other than a lone dot after a well-formed quad makes the result 0 |
| Uart.TrailingDotAccepted | uart0.c:234-250 | a single trailing dot is accepted and "a.b.c.d." parses like "a.b.c.d" |
| Uart.FourDigitRunAccepted | uart0.c:213-245 | a four-digit run is split, so "1234.5.6" is accepted and its top byte is the uninitialised accumulator's |
| Tcp.Reset | tcp.c:14-21 | a reset connection is in LISTEN with both numbers 0, serverPort 1883 and myPort the random value cut to 16 bits |
| Tcp.MqttFramesAreTcp | tcp.c:23-39 | every frame the MQTT client takes for its own also reaches the TCP handler |
| Tcp.UdpFromBrokerPortAccepted | tcp.c:31-36 | by C precedence a UDP datagram from port 1883 is accepted too |
| Tcp.ServicePortsAccepted | tcp.c:31-36 | a TCP segment to port 80 or 23 is accepted from any source |
| Tcp.OtherPortsIgnored | tcp.c:31-36 | a frame neither to port 80 or 23 nor from port 1883 is refused |
| Tcp.PayloadSize | tcp.c:126-127 | the payload size is the IP length less 20 and less the TCP header, wrapped as a uint32 |
| Tcp.OutboundSeqAdvancesBySegLen | tcp.c:160-176 | a segment carries the running sequence number, and the number then advances by SEG.LEN, as section 3.3 of RFC 793 requires |
| Tcp.InboundAckCoversSegment | tcp.c:147-158 | for PUSH, SYN or FIN without PUSH∧FIN the acknowledgement is SEG.SEQ + SEG.LEN of the received segment |
| Tcp.PushFinLeavesFinUnacknowledged | tcp.c:147-158 | with PUSH and FIN together only the data is acknowledged, one short of SEG.LEN |
| Tcp.FinishIpChecksum | tcp.c:196-200 | the IP checksum field holds the checksum function of the finished IP header |
| Tcp.FinishTcpChecksum | tcp.c:209-222 | the TCP checksum field holds the checksum function of the pseudo-header, header and data |
| Tcp.FinishData | tcp.c:202-208 | the payload lies right after the 20-byte TCP header |
| Tcp.SwapAddressesTwice | tcp.c:130-144 | exchanging addresses and ports twice gives the frame back |
| Tcp.SwapAddressFields | tcp.c:130-144 | the three swap loops leave the buffer as SwapAddresses of what it held |
| Tcp.SwapKeepsInboundAck | tcp.c:126-158 | the exchange moves none of the fields the payload size and acknowledgement are computed from |
| Tcp.ReadInboundAck | tcp.c:147-158 | the acknowledgement tests on the buffer compute InboundAck |
| Tcp.NextSeqn | tcp.c:160-176 | the sequence-number tests compute OutboundSeq: the number sent and the new running number |
| Tcp.WriteReply | tcp.c:178-224 | the header, length, payload and checksum writes after the exchange leave the buffer as ReplyBuffer |
| Tcp.RespondInPlace | tcp.c:117-221 | the in-place work of etherSendTcpResponse yields the frame and the connection numbers Respond specifies |
| Tcp.RespondSegment | tcp.c:117-226 | the reply is a well-formed segment carrying the running sequence number and InboundAck, and the connection moves on by OutboundSeq |
| Tcp.RespondAnswers | tcp.c:129-146 | the reply goes back to the sender's MAC, IP and port from ours, keeping the other IP fields but length and checksum |
| Tcp.RespondBuffer | tcp.c:160-188 | the rewritten buffer holds the reply's flags and sequence number where the next flag test reads them |
| Tcp.ReplyToReply | tcp.c:130-146 | answering a reply sends the frame back where the original came from |
| Tcp.ListenSynFirst | tcp.c:50-57 | a SYN in LISTEN is answered with a SYN|ACK carrying sequence number 0 that acknowledges the SYN |
| Tcp.ListenSynSecond | tcp.c:58-63 | the second test reads the SYN|ACK just written and sends an ACK with sequence number 1 acknowledging 1, leaving the connection ESTABLISHED |
| Tcp.ListenSynBack | tcp.c:58-63 | that ACK is addressed back to this host, the destination of the received SYN |
| Tcp.ListenWithoutSyn | tcp.c:50-64 | any other segment in LISTEN only resets the connection, with no reply |
| Tcp.SynSentHandshake | tcp.c:65-72 | in SYN_SENT a SYN|ACK is acknowledged at seq + 1 and the connection is ESTABLISHED; anything else changes nothing |
| Tcp.EstablishedFin | tcp.c:73-89 | in ESTABLISHED a FIN closes to LISTEN with exactly one reply: ACK for FIN|ACK, FIN|ACK for a bare FIN |
| Tcp.EstablishedPush | tcp.c:90-112 | a PUSH without FIN is acknowledged, and dispatched to MQTT exactly when it is an MQTT frame with a non-zero payload size, both judged before the rewrite |
| Tcp.EstablishedOther | tcp.c:73-104 | a segment without FIN or PUSH changes nothing and sends nothing |
| Tcp.ProcessKeepsValid | tcp.c:41-107 | a received frame keeps the connection in its three states with its fields in their C ranges |
| Tcp.NewSegment | tcp.c:228-334 | a frame sendTcpPacket builds, whatever its buffer held, is a segment from our MAC, IP and port to the server's, with the given numbers and data |
| Tcp.WriteNewSegment | tcp.c:228-334 | the writes of sendTcpPacket leave the frame NewSegment describes |
| Tcp.TcpEngine.constructor | tcp.c:11-12 | the initial connection is LISTEN with zero numbers and the initial port |
| Tcp.TcpEngine.GetTcpConnectionState | tcp.c:336-339 | the state is LISTEN, SYN_SENT or ESTABLISHED |
| Tcp.TcpEngine.ResetTcpStateTimer | tcp.c:14-21 | the connection becomes Reset of the random value |
| Tcp.TcpEngine.EtherSendTcpResponse | tcp.c:117-226 | for a frame with IHL ≥ 5, the buffer, the connection and the one frame sent are those Respond gives for the old buffer and connection |
| Tcp.TcpEngine.ProcessTcpMessage | tcp.c:41-107 | for a frame with IHL ≥ 5, the connection, buffer, replies sent and the MQTT dispatch decision are those Process gives |
| Tcp.TcpEngine.HandleListen | tcp.c:50-64 | the LISTEN case as ProcessListen gives it |
| Tcp.TcpEngine.HandleSynSent | tcp.c:65-72 | the SYN_SENT case as ProcessSynSent gives it |
| Tcp.TcpEngine.HandleEstablished | tcp.c:73-104 | the ESTABLISHED case as ProcessEstablished gives it |
| Tcp.TcpEngine.SendTcpPacket | tcp.c:228-334 | exactly one frame is appended to the log, a segment to the given server carrying the running sequence number, which then advances by OutboundSeq |
| Tcp.TcpEngine.EstablishConnection | tcp.c:342-349 | the connection is a fresh SYN_SENT toward destPort with running number 1, after sending a SYN with sequence number 0 |
| MqttPackets.FixedHeader | mqtt.h:9-13 | the first byte holds the type in the high nibble and the flags in the low one |
| MqttPackets.PublishFlagsCarryQos | mqtt.c:186-197 | the PUBLISH flags carry the QoS in bits 1-2 with DUP and RETAIN clear (section 3.3.1 of MQTT 3.1.1) |
| MqttPackets.InboundType | mqtt.c:248-253 | the type processMqttMessage switches on is a 4-bit value read 20 bytes past the IP header |
| MqttPackets.ConnectBytes | mqtt.c:62-89 | CONNECT is the 19 bytes 0x10, 17, 0, 4, "MQTT", 4, 0x02, 0, 60, 0, 5, "hello" |
| MqttPackets.ConnectRoundTrip | mqtt.c:62-89 | a reader of section 3.1 of MQTT 3.1.1 sees protocol level 4, only the clean-session flag, keep-alive 60 and client id "hello" |
| MqttPackets.RemainingLengthByte | mqtt.c:79-90 | in every packet built, the remaining-length byte is the length less 2, below 128, so its one-byte form is valid (section 2.2.3 of MQTT 3.1.1); for PUBLISH up to QoS 2 |
| MqttPackets.SubscribeRoundTrip | mqtt.c:127-144 | a reader of section 3.8 gets back the identifier, the filter and the QoS |
| MqttPackets.UnsubscribeRoundTrip | mqtt.c:155-172 | a reader of section 3.10 gets back the identifier and the filter |
| MqttPackets.PublishRoundTrip | mqtt.c:184-222 | a reader of section 3.3 gets back the QoS, topic, value, and the packet identifier for QoS 1 and 2 |
| MqttPackets.PublishQosAboveTwoMalformed | mqtt.c:197-206 | with QoS above 2 the length counts an identifier that is never written, so no reader accepts the packet |
| MqttPackets.PingAndDisconnectRoundTrip | mqtt.c:106-122 | PINGREQ is [0xC0, 0] and DISCONNECT is [0xE0, 0], read back as such |
| Mqtt.Store | mqtt.c:289-301 | the first free slot takes the topic and all other slots keep their contents; with no free slot nothing changes |
| Mqtt.Remove | mqtt.c:302-314 | the first slot holding the identifier is freed with its name cleared, and all other slots keep their contents |
| Mqtt.IdByName | mqtt.c:315-325 | the result is the identifier of the first slot with that name (duplicates can occur, since storeSubscribedTopic does not check for them), and there is none exactly when no slot has that name |
| Mqtt.InitialTopics | mqtt.c:20 | the zero-initialised table has 10 slots, none free |
| Mqtt.FreeAll | mqtt.c:54-58 | every slot becomes free and keeps its name |
| Mqtt.StoreThenFind | mqtt.c:289-325 | after subscribing a new name with a free slot available, looking the name up gives its identifier, in the first free slot |
| Mqtt.SubscribeThenUnsubscribe | mqtt.c:149-176 | subscribing a new name and unsubscribing it gives every slot back its identifier |
| Mqtt.AppendToPayload | mqtt.c:43-47 | copies the data at the offset, touching nothing else, and returns its length |
| Mqtt.ComposeConnect | mqtt.c:84-89 | the buffer starts with the CONNECT packet and the length is its length |
| Mqtt.ComposeSubscribe | mqtt.c:138-144 | the buffer starts with the SUBSCRIBE packet and the length is its length |
| Mqtt.ComposeUnsubscribe | mqtt.c:167-172 | the buffer starts with the UNSUBSCRIBE packet and the length is its length |
| Mqtt.ComposePublishTopic | mqtt.c:208-215 | the buffer starts with the PUBLISH fixed header, topic length and topic |
| Mqtt.ComposePublishRest | mqtt.c:216-222 | the packet identifier (QoS 1 and 2) and the value follow the topic |
| Mqtt.ComposePublishMessage | mqtt.c:186-222 | the buffer starts with the PUBLISH packet and the length is its length |
| Mqtt.MqttClient.constructor | mqtt.c:19-40 | initial client: disconnected, empty buffer, guid 1, QoS 0, the four-byte brokerMac initialiser, no timers |
| Mqtt.MqttClient.GetNewGuid | mqtt.c:284-287 | returns the counter and increments it |
| Mqtt.MqttClient.SendMqttPayload | mqtt.c:235-244 | a composed message goes out once to the broker as ACK|PUSH; an already sent buffer sends nothing; the buffer is marked empty |
| Mqtt.MqttClient.RetryMqttMsgResend | mqtt.c:230-233 | the resend callback sends a pending message once and otherwise nothing |
| Mqtt.MqttClient.MqttConnect | mqtt.c:49-102 | records broker and QoS, frees the table, leaves CONNECT in the buffer; sends it on an established connection, otherwise opens the connection to port 1883 and arms the 15 s resend timer |
| Mqtt.MqttClient.PrepareConnect | mqtt.c:51-90 | broker addresses and QoS recorded, table freed, CONNECT composed |
| Mqtt.MqttClient.ConnectOrSend | mqtt.c:91-101 | sent at once when established; otherwise connection opened, message pending and resend timer armed |
| Mqtt.MqttClient.SendComposed | mqtt.c:91-96 | on an established connection the composed message goes to the broker |
| Mqtt.MqttClient.OpenForResend | mqtt.c:97-101 | the connection is opened, the message stays pending and the resend timer is armed |
| Mqtt.MqttClient.FreeAllTopics | mqtt.c:54-58 | the loop leaves the table as FreeAll of the old table |
| Mqtt.MqttClient.MqttDisconnect | mqtt.c:104-114 | stops the ping and resend timers, marks the client disconnected and sends DISCONNECT |
| Mqtt.MqttClient.MqttPing | mqtt.c:116-123 | sends PINGREQ to the broker |
| Mqtt.MqttClient.MqttSubscribe | mqtt.c:125-151 | sends SUBSCRIBE under the old guid, increments guid, then files the topic as Store does |
| Mqtt.MqttClient.PrepareSubscribe | mqtt.c:127-146 | a fresh identifier is taken and SUBSCRIBE composed |
| Mqtt.MqttClient.MqttUnsubscribe | mqtt.c:153-179 | looks the identifier up by name, composes UNSUBSCRIBE, frees the slot as Remove does, then sends |
| Mqtt.MqttClient.PrepareUnsubscribe | mqtt.c:155-176 | identifier looked up, UNSUBSCRIBE composed and slot freed |
| Mqtt.MqttClient.MqttPublish | mqtt.c:181-228 | sends PUBLISH for the current QoS, taking a fresh identifier exactly for QoS 1 and 2 |
| Mqtt.MqttClient.PreparePublish | mqtt.c:183-226 | PUBLISH composed, guid advanced exactly for QoS 1 and 2 |
| Mqtt.MqttClient.ProcessMqttMessage | mqtt.c:246-266 | CONNACK marks the client connected and arms the 50 s ping; every other type changes nothing |
| Mqtt.MqttClient.StoreSubscribedTopic | mqtt.c:289-301 | the scan leaves the table as Store gives it |
| Mqtt.MqttClient.RemoveUnsubscribedTopic | mqtt.c:302-314 | the scan leaves the table as Remove gives it |
| Mqtt.MqttClient.GetTopicIdByName | mqtt.c:315-325 | the scan returns IdByName of the table |
| Dhcp.DhcpIsNotTcp | dhcp.c:387-403 | no frame is claimed by both the DHCP and the TCP classifier |
| Dhcp.Parse | dhcp.c:126-185 | the offered address is yiaddr, the server hardware address is the Ethernet source, and the address counts as not in use |
| Dhcp.ApplySets | dhcp.c:148-177 | one option sets exactly the field of its own code to its value |
| Dhcp.FoldIsLastValue | dhcp.c:138-180 | each copied field ends as the value of the last option carrying it, or keeps its old value when none does |
| Dhcp.WalkEncoded | dhcp.c:138-180 | the walk over options laid out one after another and closed by END or PAD within 312 bytes applies them all in order |
| Dhcp.ParseEncoded | dhcp.c:126-185 | a frame whose options field holds a list closed by END or PAD parses to the fold of that list |
| Dhcp.MessageContent | dhcp.c:243-320 | the options each message carries are readable, encodable and at most 60 bytes; REQUEST always carries the server identifier (the test at dhcp.c:271-272 always holds) |
| Dhcp.AppendDhcpOption | dhcp.c:117-124 | writes code, length and value at the offset, touching nothing else, and returns (length + 2) mod 256, the uint8_t the source returns |
| Dhcp.WriteOptions | dhcp.c:241-320 | the options field holds the encoded options of the message kind followed by END, and the returned length is their size |
| Dhcp.WriteDiscoverOptions | dhcp.c:245-260 | DISCOVER: type, client id, requested address 192.168.0.131, parameter list, END |
| Dhcp.WriteRequestOptions | dhcp.c:262-287 | REQUEST: type, client id, requested offered address, server identifier, host name, parameter list, END |
| Dhcp.WriteReleaseOptions | dhcp.c:288-301 | RELEASE: type, server identifier, client id, END |
| Dhcp.WriteDeclineOptions | dhcp.c:302-311 | DECLINE: requested fixed address, server identifier, END, and no message type |
| Dhcp.DhcpBody | dhcp.c:322 | the UDP payload is the 240-byte fixed part and the options, less the END option's last two bytes |
| Dhcp.WriteDhcpFrame | dhcp.c:192-358 | the buffer's first bytes are DhcpFrame of the message body, and the returned size is the frame length |
| Dhcp.WriteHeaders | dhcp.c:322-358 | UDP, IP and Ethernet headers with lengths from the payload, ports 68 to 67, TTL 128, protocol 17, and the two checksums around the payload |
| Dhcp.SentMessageReadBack | dhcp.c:192-358 | a frame the client sends, read back, is UDP from 68 to 67 with the client's xid and ciaddr, its option walk gives back exactly the options written, and etherIsDhcp refuses it |
| Dhcp.ContentMessageType | dhcp.c:243-320 | DISCOVER, REQUEST and RELEASE carry their own message type; DECLINE carries none |
| Dhcp.ContentServerIdentifier | dhcp.c:262-311 | REQUEST, RELEASE and DECLINE name the server whose offer they answer |
| Dhcp.FrameId | dhcp.c:192-358 | the IP identification field, never written, keeps what the buffer held |
| Dhcp.RebindingTimeWraps | dhcp.c:529 | for the infinite lease 0xFFFFFFFF the uint32 product wraps and T2 comes before T1 |
| Dhcp.RebindingTime | dhcp.c:529 | T2 = floor(7·lease/8) lies between T1 and the lease |
| Dhcp.RebindingTimeAgrees | dhcp.c:529 | where 7·lease fits in 32 bits the corrected T2 is the one the code computes |
| Dhcp.LeaseTimers | dhcp.c:523-531 | the restarted lease timers, with T2 as corrected in Findings (dhcp.c:529), are ordered T1 ≤ T2 ≤ lease |
| Dhcp.BoundDnsAsWrittenLoses | dhcp.c:448 | committing the DNS as written turns 8.8.4.4 into 8.8.8.8 |
| Dhcp.WithoutDhcpTimers | dhcp.c:553-562 | exactly the seven DHCP timers are stopped and every other timer is kept |
| Dhcp.EnterTimers | dhcp.c:425-483 | the timers each state's entry arms and stops keep the lease timers in order, with T2 as corrected in Findings (dhcp.c:529) |
| Dhcp.DhcpClient.constructor | dhcp.c:67-90 | INIT, broadcast server MAC and IP, no lease, not validated, no timers |
| Dhcp.DhcpClient.ResetDhcpState | dhcp.c:101-115 | the server is broadcast again and no lease is held |
| Dhcp.DhcpClient.ProcessReceivedDhcpPacket | dhcp.c:126-185 | the loop over the buffer leaves message type and offer as Parse gives them |
| Dhcp.DhcpClient.SendDhcpMessage | dhcp.c:187-361 | exactly one frame is sent: the message of that kind addressed to the targeted server, with ciaddr set only in BOUND, RENEWING, REBINDING or for RELEASE |
| Dhcp.DhcpClient.SendDhcpPacket | dhcp.c:363-385 | one message of the kind is sent and nothing else changes |
| Dhcp.DhcpClient.StartStateTransitionTimers | dhcp.c:523-531 | the three lease timers are restarted as one-shots at T1, T2 and the lease |
| Dhcp.DhcpClient.CommitOffer | dhcp.c:440-448 | the interface takes the offered address, mask, router and DNS server |
| Dhcp.DhcpClient.TransitionToState | dhcp.c:425-483 | ends in the new state with its entry actions: INIT resets the target and arms discover; BOUND commits the offer and restarts the lease timers; RENEWING targets the offering server; REBINDING targets broadcast; IPVALIDATING arms the probe timers |
| Dhcp.DhcpClient.DhcpStateMachineReceivedPacketHandler | dhcp.c:405-423 | the parse updates the offer; OFFER in INIT ends in REQUESTING; ACK in REQUESTING, RENEWING or REBINDING ends in IPVALIDATING; nothing else changes state |
| Dhcp.DhcpClient.SelectOffer | dhcp.c:410-415 | discover timer stopped, periodic request timer at 20 s, state REQUESTING |
| Dhcp.DhcpClient.ValidateAck | dhcp.c:416-422 | request timer stopped, periodic probe at 5 s and one-shot probe end at 15 s, state IPVALIDATING |
| Dhcp.DhcpClient.ArpProbeFinished | dhcp.c:497-511 | the probe timer stops; an address in use is declined and requested again with the interface address, mask, gateway and DNS left as they were, otherwise the client binds to it |
| Dhcp.DhcpClient.RenewingT1Timer | dhcp.c:513-516 | enters RENEWING toward the offering server and arms the request timer |
| Dhcp.DhcpClient.RebindingT2Timer | dhcp.c:518-521 | enters REBINDING toward broadcast and arms the request timer |
| Dhcp.DhcpClient.LeaseExpired | dhcp.c:533-536 | enters INIT, forgets the lease and arms the discover timer |
| Dhcp.DhcpClient.EtherArpReceivedRequestIp | dhcp.c:538-551 | the offered address is in use exactly when all four requested bytes match it, and nothing else in the offer changes |
| Dhcp.DhcpClient.TurnOffDhcpTimers | dhcp.c:553-562 | the timers become WithoutDhcpTimers of the old ones |

## Left out

- `ethernet.c` (main poll loop, hardware set-up, `displayConnectionInfo`) is not part of this model: it is board bring-up and output. So is the call from `processTcpMessage` into `processMqttMessage` (tcp.c:109-112): `Tcp.TcpEngine.ProcessTcpMessage` returns the decision as `dispatch` and leaves the call to the caller.
- Tcp.TcpEngine.ProcessTcpMessage, Tcp.TcpEngine.EtherSendTcpResponse, Tcp.TcpEngine.HandleListen, Tcp.TcpEngine.HandleSynSent and Tcp.TcpEngine.HandleEstablished require a frame whose IP header length (IHL, the low nibble of `revSize`) is at least 5. The source does not check this: `etherIsTcp` ignores the IHL, and ethernet.c:266-269 passes every frame it accepts to `processTcpMessage`. For IHL 0 to 4, tcp.c:27, 45 and 122 place the TCP header inside the IP header. The in-place reply then overwrites IP fields it has already written, and the IP checksum sums `ihl * 4 - 12` bytes, a negative count below IHL 3 that only the Ethernet driver's `etherSumWords` gives a meaning to. The model says nothing about the replies to such frames.
- UART hardware is not modelled: `initUart0`, the busy-wait register access of `putcUart0`, `getcUart0` and `kbhitUart0`, and the register writes of `setUart0BaudRate`. Its divisor arithmetic is modelled. The line editor reads from an input sequence. It stops where `getcUart0` would wait.
- `executeUrtCommand` and `printSubscribedTopics` (uart0.c:253-400) are not part of this model: they only dispatch to the other components or print.
- `ifttt.c` and `eeprom.h` are not part of this model: the first only prints and the calls into the second are commented out.
- The checksum arithmetic (`etherSumWords`, `getEtherChecksum`) lives in the Ethernet controller driver, which this model does not cover. It is the abstract function `Link.checksum`, applied to the exact bytes the source sums.
- `random32` is an input: the `rnd` parameter, truncated to 16 bits where the source assigns it to `myPort`.
- Timer delivery and concurrency are not modelled. Only the ghost record of armed timers is kept. A fired one-shot timer stays in the record until it is stopped or re-armed.
- `sendArpProbe` and `sendArpAnnouncement` have empty bodies (their calls are commented out at dhcp.c:488, 494). They are no-ops here.
- Fields that sendTcpPacket and sendDhcpMessage never write are left unspecified: the IP identification of both, and whatever else their stack buffers held. The DHCP frame is stated with the IP identification as a parameter.
- The order of the individual struct-field writes is not modelled: each send path writes its headers as contiguous blocks, with the same final contents.
- Dhcp.DhcpClient.ResetDhcpState: the loop at dhcp.c:109-112 writes `HW_ADD_LENGTH` (6) bytes into the 4-byte `serverIpAddress`, overrunning into the next field. The model writes the 4 bytes of the address and not the overrun.
- `rebindTime` and `renewTime` (dhcp.c:62-63) and the retry counters (dhcp.c:92-99) are never read or written after their initialisation. They are not modelled.
- The timer service (timer.c) is not part of this model. The timers are a map from callback to timer, so starting a timer for a callback that already has one, as dhcp.c:462 and 473 do for `sendDhcpRequestPacket`, replaces it. The `bool` result of `startOneshotTimer` and `startPeriodicTimer` is ignored by the source, and a failed start is not modelled.
- Dhcp.DhcpClient.StartStateTransitionTimers arms T2 with the corrected `RebindingTime`, not with the wrapping product the source computes (see Findings).
- Dhcp.DhcpClient.CommitOffer commits the DNS server as offered. The source commits `dns[0]` four times (see Findings).
- Dhcp.LeaseTimers and Dhcp.EnterTimers state the lease-timer order for the corrected T2. The source's wrapping T2 breaks that order for leases above 0x24924924 (see Findings).
- Dhcp.DhcpClient.TransitionToState binds through StartStateTransitionTimers and CommitOffer, so its BOUND entry arms the corrected T2 and commits the offered DNS server, not the values the source produces (see Findings).
- Dhcp.DhcpClient.ArpProbeFinished binds through TransitionToState when the address is free, so its bind branch arms the corrected T2 and commits the offered DNS server, not the values the source produces (see Findings).
- Uart.UserData.ParseFields ignores the NULs strtok writes into the buffer, which is not read again before the next line. Its precondition asks for at least one token and for tokens that fit their fields, because otherwise the source copies from NULL or overruns a field (uart0.c:160-191, uart0.h:32-35).
- Uart.IPStrToUint32 tests each character with the C library's `isdigit` (uart0.c:215, 222), while the project defines its own `isDigit` (uart0.c:201-204). Both hold for exactly '0'..'9' in the C locale, so the model has one predicate, `IsDigit`, for both. `parseFields` calls neither.
- Uart.UserData.constructor starts with a zero-filled buffer and empty fields. The source's `USER_DATA uartinput` (ethernet.c:206) is an uninitialised local, so a field that `parseFields` does not set for the current line, such as `ip` or `strParam`, holds whatever the stack held. The model does not capture those indeterminate values.
- Mqtt.MqttClient.MqttPublish and Mqtt.MqttClient.MqttSubscribe ask that the packet fit the 110-byte buffer and that a topic fit its 30-byte slot, because the source writes past both otherwise. For PUBLISH the bound is `PublishSize`: 4 bytes plus the topic and the value, plus 2 for the packet identifier at QoS 1 and 2 only. The lengths passed are taken to be those of the strings, as every caller passes `strlen`.
- Mqtt.IdByName: when no slot matches, `getTopicIdByName` ends without a return value. The model returns None, and `mqttUnsubscribe` goes on with the `unset` parameter standing for the undefined value.
- MqttPackets.PublishFlags: for a QoS above 2 no flag bits are assigned, and the `unset` parameter stands for what the header held.
- Uart.IPStrToUint32: the uninitialised accumulator is the `junk` parameter.
- Mqtt.MqttClient.ProcessMqttMessage: the LED flash on PINGRESP is hardware output and is not modelled.
- Bit-field layouts and the signedness of `char` are assumptions of the target compiler, stated as such in the model:
  - the MQTT fixed header byte is packetType<<4 | flags;
  - the TCP data offset is the high nibble of byte 12;
  - `sizeof(dhcpFrame)` is 240;
  - plain `char` is unsigned, as on ARM, so the line editor's `c < 32` test (uart0.c:141) keeps bytes 0x80 and above. A build with signed `char` would discard them.

## Findings

| source | as written | input that shows it | evidently intended | confidence | as-written member | corrected member |
|---|---|---|---|---|---|---|
| uart0.c:84-85 | FBRD = ((d + 1) >> 1) & 63 drops the carry when the fraction rounds up to 64/64, and IBRD stays d >> 7 | fcyc 16000000, baud 125122: d = 1023, written 7 + 0/64 | divisor rounded to the nearest 1/64, here 8 + 0/64 | not executed | Uart.BaudCarryLost | Uart.RoundedBaudDivisorIsNearest |
| dhcp.c:529 | (offerData.leaseTime * 7) / 8 in uint32 arithmetic wraps for leases above 0x24924924 | lease 0xFFFFFFFF (the infinite lease of section 9.2 of RFC 2132): T2 = 0x1FFFFFFF, before T1 = 0x7FFFFFFF | T2 = 7/8 of the lease, between T1 and the lease | not executed | Dhcp.RebindingTimeWraps | Dhcp.RebindingTime |
| dhcp.c:448 | etherSetDns(dns[0], dns[0], dns[0], dns[0]) | offered DNS 8.8.4.4 is committed as 8.8.8.8 | etherSetDns(dns[0], dns[1], dns[2], dns[3]) | not executed | Dhcp.BoundDnsAsWrittenLoses | Dhcp.DhcpClient.CommitOffer |

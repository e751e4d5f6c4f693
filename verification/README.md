# Verified models of the protocol and storage cores

This project models six parts of the library as Dafny programs and proves what they promise.
Each part consists of definitions on values (packets, machines, memory layouts), theorems about
them, and classes or methods on arrays and fields that work step by step as the C code does and
are proved to compute the definitions. `dafny verify dfyconfig.toml` checks everything.

* **MQTT client** (`mqtt_*.dfy`): the two-ended send arena with its overlapping moves, the packet-id
  shift register and its period, the packet codec, and one session as a machine over calls, reads,
  partial writes and timeouts. The theorems of `mqtt_safety.dfy`, `mqtt_order.dfy` and
  `mqtt_delivery.dfy` speak of every run from a fresh client; `mqtt_wire.dfy`, `mqtt_handling.dfy` and
  `mqtt_sending.dfy` tie each step to the standard, with its types, flags and codes given literally.
* **CANopen SDO** (`co_*.dfy`, `sdo_*.dfy`): client and server, expedited and segmented transfers,
  joined by a line that may lose frames. Safety holds under losses and timeouts; without them every
  fair schedule succeeds after a fixed number of frames. `sdo_replies.dfy` and `sdo_requests.dfy` give
  every frame byte by byte, `sdo_secrecy.dfy` shows what the server never gives away.
* **tiny-json and json-maker** (`json_*.dfy`): the writers, the in-place parser that borrows sibling
  links as parent links, and the proof that the parser reads every JSON text of an object, spaced and
  spelled as one likes, and nothing that is not JSON but for its commas. `json_text.dfy` holds the grammar of RFC 8259 (sections 2 to 7) that both are
  measured against.
* **CRC-16 and host link** (`crc*.dfy`, `word*.dfy`, `host_*.dfy`): the CRC as long division, its table
  and both loops; frames out of a byte stream.
* **Winbond flash** (`flash_*.dfy`): byte ranges split at sectors and pages over a NOR chip.
* **Modbus** (`modbus_*.dfy`): requests, server handlers and responses over RTU and TCP; an exchange is
  transparent, and both sides are exact on whatever bytes they are sent.

## How the models are to be read

* Time is an input: for each message of an MQTT send pass whether its response is overdue, and for
  each SDO process call the milliseconds passed. The results of `sendall` and `recvall`, the bytes
  in the socket and the frames on the line are inputs as well.
* A queued MQTT descriptor is taken to be 40 bytes, kept as opaque parts of memory cells. The size of
  the send memory is below 40 * 65535 bytes, so that fewer than 65535 messages are queued; sizes of
  2^32 and more do not occur.
* The packet-id field of CONNECT, PINGREQ and DISCONNECT descriptors is not set by the code; it is a
  parameter of those calls. `stray` stands for the bytes written when a send offset lies past a
  message, which happens only after a resend has reset it.
* Where code and documentation differ the code is followed: the DUP bit is masked out when a PUBLISH is
  packed; the client's own parser rejects a PUBLISH with a remaining length below 4; a PINGRESP
  consumes its fixed header only; `json_getInteger` narrows to 32 bits.
* In the SDO model the receive buffer of a sub-object is its temporary data if it has some, else its
  operating data. The abort code is copied in the byte order of a little-endian machine.
* The number writer of json-maker is the one of its NO_SPRINTF build.
* The flash chip and its command set (write enable, page program with wrap-around, sector erase, fast
  read) are modelled from the commands the driver sends; capacity and address width agree.

## Model

| member | source | states |
|---|---|---|
| SessionSafety.Qos2DeliveredOnce | libs/MQTT-C/src/mqtt.c:755-770 | For every run of a session: between two deliveries to the application of a QoS 2 PUBLISH with the same packet id, a PUBREL with that id was received (section 4.3.3 of MQTT 3.1.1). |
| SessionSafety.OneQos2InFlight | libs/MQTT-C/src/mqtt.c:523-630 | In every reachable state at most one live QoS 2 PUBLISH is in flight, and every live one queued behind it is still unsent. |
| SessionSafety.IdsDistinct | libs/MQTT-C/src/mqtt.c:281-299 | In every reachable state the queued PUBLISH, SUBSCRIBE and UNSUBSCRIBE messages have pairwise distinct packet ids. |
| SessionSafety.NothingLost | libs/MQTT-C/src/mqtt.c:1640-1684 | Over every continuation of a run the history of messages (cleaned ones, then queued ones) only grows; each keeps type, id and packet (up to the DUP bit) and never moves back in state; everything cleaned was COMPLETE. |
| SessionOrder.WireInOrder | libs/MQTT-C/src/mqtt.c:521-630 | For every run in which no acknowledgement is overdue when a message is sent, nothing is published with QoS 2, and the broker answers only packets all of whose bytes are on the wire: the wire is the registered packets in order plus the first send_offset bytes of the next one, however writes are split and whenever cleaning runs. |
| SessionSafety.WireKeepsOrder | libs/MQTT-C/src/mqtt.c:521-630 | The same for every run that has met none of the three branches that disturb the order (resend after a timeout, QoS 2 PUBLISH held back, acknowledgement of an unsent packet). |
| SessionOrder.LateRepeats | libs/MQTT-C/src/mqtt.c:528-535 | The first condition is needed: a run of three calls (connect, send, send when the answer is overdue) that keeps the others puts the packet on the wire twice. |
| SessionOrder.SkippedOvertaken | libs/MQTT-C/src/mqtt.c:538-560 | The second is needed: a run that keeps the others and publishes twice with QoS 2 lets a ping overtake the second PUBLISH on the wire. |
| SessionOrder.EarlyDrops | libs/MQTT-C/src/mqtt.c:722-732 | The third is needed: in a run that keeps the others, a CONNACK that comes before the CONNECT has been sent makes it complete, so that it never reaches the wire. |
| SessionOrder.OnWireSent | libs/MQTT-C/src/mqtt.c:521-630 | While the wire is in order, a packet whose bytes are all on it is no longer unsent. |
| SessionSafety.ReceivedIsParsed | libs/MQTT-C/src/mqtt.c:656-690 | In every reachable state received bytes are consumed bytes, buffered bytes and unread bytes, in this order, and the packets handled are the first packets of the whole stream. |
| SessionSafety.RecvDrains | libs/MQTT-C/src/mqtt.c:656-690 | A receive call that succeeds leaves no whole packet in the buffer and room for more; one that fails leaves an error. |
| SessionSafety.ChunkingIrrelevant | libs/MQTT-C/src/mqtt.c:656-690 | Two runs that received the same bytes and have drained them handled the same packets, whatever the chunks, buffer sizes and other calls were. |
| SessionSafety.StepGood | libs/MQTT-C/src/mqtt.c:271-303 | Every call, read, send pass and arrival keeps the session invariant, moves no message backwards and keeps the wire and receive-stream relations. |
| SessionInvariants.MarkStep | libs/MQTT-C/src/mqtt.c:755-770 | Appending a delivery that is not open, or a release, keeps deliveries under one id separated by releases. |
| SessionInvariants.CleanWire | libs/MQTT-C/src/mqtt.c:1640-1684 | Cleaning keeps the wire equal to the packets gone, the packets sent and the partial one. |
| SessionDelivery.DeliveredExactly | libs/MQTT-C/src/mqtt.c:746-770 | Over every run the application has been given exactly those PUBLISH packets, in order, that could be answered when they were handled (no error before, room for the answer if one is due) and that, for QoS 2, met no queued PUBREC with their id; QoS 0 needs no answer. |
| SessionDelivery.NoneMissed | libs/MQTT-C/src/mqtt.c:746-770 | As long as every PUBLISH could be answered when it was handled, the QoS 0 and 1 packets delivered are exactly those received, once each and in order. |
| SessionDelivery.OneAckEach | libs/MQTT-C/src/mqtt.c:752-769 | Over every run one PUBACK has been queued for each QoS 1 PUBLISH delivered and one PUBREC for each with QoS 2, in their order, with their ids, byte by byte, and no others. |
| SessionDelivery.AnsweredExactly | libs/MQTT-C/src/mqtt.c:746-836 | Over every run the PUBACK, PUBREC, PUBREL and PUBCOMP packets queued are exactly the answers due, in order and byte by byte: a PUBREL to each PUBREC unless one is queued already, a PUBCOMP to each PUBREL. |
| SessionDelivery.CompleteIsClosed | libs/MQTT-C/src/mqtt.c:722-892 | Over every run a message is complete only if its type needs no acknowledgement or a packet for it, by type and id, has been handled. |
| SessionHandling.HandleConforms | libs/MQTT-C/src/mqtt.c:722-892 | In every state every packet from the broker is handled as the protocol asks: the first message that it is about becomes complete, the answer due is queued or its lack of room reported, refusals and unknown ids are errors, a PUBLISH is handed over once. |
| SessionHandling.AckQueued | libs/MQTT-C/src/mqtt.c:207-230 | An acknowledgement is queued exactly if some number of complete messages at the front of the queue can make room for it. |
| SessionHandling.RequestQueued | libs/MQTT-C/src/mqtt.c:207-230 | A request is queued behind everything else exactly if some number of complete messages at the front can make room for its packet; otherwise the client fails and nothing is queued. |
| SessionHandling.NewIdExact | libs/MQTT-C/src/mqtt.c:85-111 | The id of a request is the first in the register's cycle that no queued message holds; the message bears it and the next search begins there. |
| SessionSending.PassExact | libs/MQTT-C/src/mqtt.c:521-630 | When nothing is half written and the socket takes every packet whole, one pass sends, in the order of the queue, exactly the messages that are unsent or overdue and not QoS 2 publishes held back by another; each gets the state its type calls for, a QoS 1 publish its DUP flag, and all others stay as they are. |
| SessionSending.SendOneExact | libs/MQTT-C/src/mqtt.c:523-630 | What a pass does with one message: held back, failed, partly written from the send offset, or finished. |
| MqttWire.RequestBytes | libs/MQTT-C/src/mqtt.c:1255-1622 | Every request is packed byte by byte as chapter 3 of MQTT 3.1.1 lays it out, whenever its packet fits; QoS 3 and bodies of 2^28 bytes are refused. |
| MqttWire.UnpackExact | libs/MQTT-C/src/mqtt.c:1227-1741 | A packet from the broker, byte by byte, is taken for exactly what it says, whatever follows it. |
| PacketIds.FirstId | libs/MQTT-C/src/mqtt.c:85-111 | The first packet id of a client is 0xB451. |
| PacketIds.IterateIsMul | libs/MQTT-C/src/mqtt.c:85-111 | Shifting the packet-id register n times is one multiplication in the field of 65536 elements. |
| PacketIds.FullCycle | libs/MQTT-C/src/mqtt.c:85-111 | 65535 shifts lead every nonzero register back to itself. |
| PacketIds.PeriodIsFull | libs/MQTT-C/src/mqtt.c:85-111 | No smaller positive number of shifts leads a nonzero register back to itself. |
| PacketIds.OrbitDistinct | libs/MQTT-C/src/mqtt.c:85-111 | The first 65535 values of the register are pairwise distinct. |
| PacketIds.FreeExists | libs/MQTT-C/src/mqtt.c:85-111 | If fewer than 65535 ids are taken, a free one is met after at most one shift more than ids are taken: the search terminates. |
| PacketIds.NextId | libs/MQTT-C/src/mqtt.c:85-111 | The id handed out is never 0 and never one that a queued message holds. |
| MqttClient.Client.NextPid | libs/MQTT-C/src/mqtt.c:85-111 | The search loop over the queue returns the first free value of the register and changes nothing else. |
| MessageQueue.Queue.Register | libs/MQTT-C/src/mqtt.c:1625-1638 | The packet written at curr becomes the last message; all others keep packet, state, type and id; the layout of the two-ended arena is kept. |
| MessageQueue.Queue.Clean | libs/MQTT-C/src/mqtt.c:1640-1684 | Exactly the longest COMPLETE prefix is dropped; every other message keeps packet, state, type, id and order across both overlapping moves. |
| MessageQueue.Queue.FindMessage | libs/MQTT-C/src/mqtt.c:1686-1698 | The first message of the type (and id, if given), or the queue length. |
| MessageQueue.RegisterLayout | libs/MQTT-C/src/mqtt.c:1625-1638 | A descriptor stored below the tail, for bytes written at curr, extends the layout by one message. |
| MessageQueue.MoveLayout | libs/MQTT-C/src/mqtt.c:1650-1683 | After both moves of a compaction packets and descriptors of the remaining messages stand where they belong, up to the start pointers. |
| MessageQueue.BumpStep | libs/MQTT-C/src/mqtt.c:1675-1680 | The loop over the start pointers turns moved descriptors into those of the compacted queue one by one. |
| MessageQueue.StateLayout | libs/MQTT-C/src/mqtt.c:771-805 | Changing the state of a descriptor changes that message only. |
| MessageQueue.DupLayout | libs/MQTT-C/src/mqtt.c:605-616 | Setting the DUP bit in place changes the first byte of that packet only. |
| MessageQueue.Queue.CurrSz | libs/MQTT-C/include/mqtt.h:1084 | A packet of k bytes and its descriptor fit beside the queue exactly if k is at most the result. |
| Arena.MemMove | libs/MQTT-C/src/mqtt.c:1650-1683 | Copying between overlapping ranges, upwards or downwards as needed, yields what the source range held before. |
| MqttCodec.HeaderRoundTrip | libs/MQTT-C/src/mqtt.c:992-1102 | Unpacking undoes packing of every valid fixed header with a remaining length below 2^28, and reports a short buffer until the whole packet is there. |
| MqttCodec.HeaderPrefix | libs/MQTT-C/src/mqtt.c:992-1048 | Every strict prefix of a packed fixed header is short, not an error. |
| MqttCodec.PacketPrefix | libs/MQTT-C/src/mqtt.c:1702-1741 | Every strict prefix of a packet is short, not an error and not a packet. |
| MqttCodec.PublishRoundTrip | libs/MQTT-C/src/mqtt.c:1273-1384 | A packed PUBLISH unpacks to the same topic, id, QoS, retain flag and payload and consumes all its bytes, exactly if its remaining length is at least 4; otherwise the client's own parser rejects it. |
| MqttCodec.PubRoundTrip | libs/MQTT-C/src/mqtt.c:1387-1448 | Packed acknowledgements unpack to the same type and id. |
| MqttCodec.WordRoundTrip | libs/MQTT-C/src/mqtt.c:1744-1756 | Two bytes, most significant first, give back the 16-bit word. |
| MqttCodec.UnpackStable | libs/MQTT-C/src/mqtt.c:1702-1741 | A packet that has been recognised is recognised again when more bytes follow. |
| MqttHeaders.PackFixedHeader | libs/MQTT-C/src/mqtt.c:1050-1102 | The packing loop writes exactly the encoded header into memory, or reports the rule broken or the lack of room. |
| MqttHeaders.UnpackFixedHeader | libs/MQTT-C/src/mqtt.c:992-1048 | The unpacking loop computes the decoded header. |
| MqttClient.Client.PackRequest | libs/MQTT-C/src/mqtt.c:1050-1102 | Header and body are written in place behind the queued packets; an error, or too little room, leaves the queue as it is even if part of the header has been written. |
| MqttClient.Client.UnpackResponse | libs/MQTT-C/src/mqtt.c:1702-1741 | Header loop and body decoder on the receive buffer compute the decoded packet. |
| MqttClient.Client.TryPack | libs/MQTT-C/src/mqtt.c:207-230 | Pack, clean once if there is no room, pack again, and register: memory changes as the session machine says. |
| MqttClient.Client.Publish | libs/MQTT-C/src/mqtt.c:271-303 | A new id and a registration attempt, refining the session machine. |
| MqttClient.Client.Subscribe | libs/MQTT-C/src/mqtt.c:389-417 | As above for SUBSCRIBE. |
| MqttClient.Client.Unsubscribe | libs/MQTT-C/src/mqtt.c:419-444 | As above for UNSUBSCRIBE. |
| MqttClient.Client.Send | libs/MQTT-C/src/mqtt.c:507-647 | One pass over the queue: which messages are sent or resent, partial writes, state changes and the keep-alive ping, refining the session machine. |
| MqttClient.Client.Write | libs/MQTT-C/src/mqtt.c:550-630 | One message is written from send_offset on; a completed write sets the state that its type calls for. |
| MqttClient.Client.HandlePublish | libs/MQTT-C/src/mqtt.c:746-770 | QoS 0, 1 and 2 handling of a received PUBLISH, refining the session machine. |
| MqttClient.Client.HandlePub | libs/MQTT-C/src/mqtt.c:771-836 | PUBACK, PUBREC, PUBREL and PUBCOMP, refining the session machine. |
| MqttClient.Client.Recv | libs/MQTT-C/src/mqtt.c:649-892 | The incremental receive loop over an array buffer refines the session machine. |
| ObjectDictionary.GetNo | common/upgrade/loader/libs/canopen/CO_OD.c:6-47 | Binary search over a sorted dictionary: the position found has the index; nothing found means no entry has it, whatever stands at position number. |
| ObjectDictionary.LookupExact | common/upgrade/loader/libs/canopen/CO_OD.c:6-47 | A lookup finds the sub-object exactly if one with this index and sub-index exists, and then that one. |
| ObjectDictionary.GetSubObject | common/upgrade/loader/libs/canopen/CO_SDOserver.c:195-213 | Search and range check together compute the lookup. |
| ObjectDictionary.WithSubKeeps | common/upgrade/loader/libs/canopen/CO_SDOserver.c:306-376 | Replacing a sub-object keeps the dictionary well formed and all other sub-objects. |
| SdoLink.DownloadSound | common/upgrade/loader/libs/canopen/CO_SDOserver.c:268-492 | Both sides on a line that may lose frames, any timers: if the client reports success, the object's receive buffer begins with exactly the bytes sent, for every length from 1 to 65535, and everything else in the dictionary is unchanged. |
| SdoLink.DownloadedHolds | common/upgrade/loader/libs/canopen/CO_SDOserver.c:332-340 | What the final dictionary of a download means byte by byte: receive buffer, operating data (unless they wait for a reset), and no other sub-object. |
| SdoLink.DownloadingStep | common/upgrade/loader/libs/canopen/CO_SDOclient.c:259-404 | The invariant tying both offsets, both toggles, the frame in flight and the copied prefix is kept by every event. |
| SdoUpload.UploadSound | common/upgrade/loader/libs/canopen/CO_SDOclient.c:408-544 | If the client reports success of an upload, its buffer begins with exactly the object's bytes and the rest of it is unchanged. |
| SdoUpload.UploadingStep | common/upgrade/loader/libs/canopen/CO_SDOserver.c:495-582 | The invariant of an upload is kept by every event. |
| SdoProgress.TransferSucceeds | common/upgrade/loader/libs/canopen/CO_SDOclient.c:172-257 | Without losses, and with timeouts longer than the time that passes, every fair schedule of enough rounds ends in success with the data transferred, after exactly 2 frames and 2 more for every 7 bytes of a segmented transfer. |
| SdoProgress.RunMoves | common/upgrade/loader/libs/canopen/CO_SDOserver.c:104-184 | A run without loss or timeout never leaves the path to success, sends no frame in vain and moves on whenever it holds a due event. |
| SdoProgress.PromptIsCalm | common/upgrade/loader/libs/canopen/CO_SDOserver.c:108-116 | No timeout occurs in a run shorter than both allowed times, although the counters have 16 bits. |
| SdoSafety.ServerStepSafe | common/upgrade/loader/libs/canopen/CO_SDOserver.c:104-184 | On any frame the server stays sound; a step that writes changes one writable sub-object only, the one that its lookup finds for the download request at hand, or the one on which the download under way was opened, which stays the same to its end; operating data with a buffer of their own change only in the step that confirms a completed download. |
| SdoSafety.WritesAsked | common/upgrade/loader/libs/canopen/CO_SDOserver.c:104-266 | For every sequence of frames and process calls: a sub-object that differs afterwards is writable, and a download to it was under way at the start or a frame of the run asked for one by its index and sub-index. |
| SdoSafety.ReadOnlyUntouched | common/upgrade/loader/libs/canopen/CO_SDOserver.c:215-266 | No sequence of frames changes a sub-object without write access, or the length and attributes of any. |
| SdoReplies.ServerConforms | common/upgrade/loader/libs/canopen/CO_SDOserver.c:104-582 | On every frame in every state, with the codes of CiA 301 given literally: what is objectionable (unknown command or object, no read or write access, too large, no size, wrong toggle bit, end too early or too late) is refused with the code for it, no data and an idle server; everything else gets its answer byte by byte; a timeout or an abort ends the transfer silently. |
| SdoReplies.FirstRefused | common/upgrade/loader/libs/canopen/CO_SDOserver.c:215-266 | The first frame of a transfer is refused, among the rest, with 0x06010000 if it asks to read an object without read access or to write one without write access. |
| SdoSecrecy.UnreadableHidden | common/upgrade/loader/libs/canopen/CO_SDOserver.c:258-262 | No sequence of frames and process calls makes the server give away a byte of a sub-object without read access: two servers whose dictionaries differ only there send the same frames for ever. |
| SdoRequests.ClientConforms | common/upgrade/loader/libs/canopen/CO_SDOclient.c:172-544 | On every frame in every state the client objects with the code for it, gives up what takes too long, or goes on with the next frame that is due, byte by byte. |
| SdoLink.ExpeditedSizeExact | common/upgrade/loader/libs/canopen/CO_SDOclient.c:259-275 | The two-bit size field of an expedited frame tells the number of bytes exactly if it is not zero. |
| SdoLink.EmptyDownloadWrites | common/upgrade/loader/libs/canopen/CO_SDOserver.c:306-340 | A download of no bytes makes the server store the four bytes left in the client's frame: why the theorems begin at length 1. |
| SdoServer.Endpoint.Process | common/upgrade/loader/libs/canopen/CO_SDOserver.c:104-184 | The process function on the object's fields refines the server machine. |
| SdoServer.Endpoint.ProcessFirst | common/upgrade/loader/libs/canopen/CO_SDOserver.c:215-266 | Dispatch of the first frame refines the server machine. |
| SdoServer.Endpoint.DownloadInit | common/upgrade/loader/libs/canopen/CO_SDOserver.c:268-376 | The download initiate handler refines the server machine. |
| SdoServer.Endpoint.DownloadSegment | common/upgrade/loader/libs/canopen/CO_SDOserver.c:377-493 | The download segment handler refines the server machine. |
| SdoServer.Endpoint.UploadInit | common/upgrade/loader/libs/canopen/CO_SDOserver.c:495-530 | The upload initiate handler refines the server machine. |
| SdoServer.Endpoint.UploadSegment | common/upgrade/loader/libs/canopen/CO_SDOserver.c:532-582 | The upload segment handler refines the server machine. |
| SdoServer.Endpoint.AbortAndRespond | common/upgrade/loader/libs/canopen/CO_SDO.c:6-27 | An abort frame with the code, and the transfer reset. |
| SdoClient.Endpoint.Process | common/upgrade/loader/libs/canopen/CO_SDOclient.c:172-257 | The client's process function on its fields and the caller's buffer refines the client machine. |
| SdoClient.Endpoint.Download | common/upgrade/loader/libs/canopen/CO_SDOclient.c:103-125 | Starting a download takes over the request and the caller's bytes. |
| SdoClient.Endpoint.Upload | common/upgrade/loader/libs/canopen/CO_SDOclient.c:139-160 | Starting an upload takes over the request and the caller's buffer. |
| SdoClient.Endpoint.DownloadRequest | common/upgrade/loader/libs/canopen/CO_SDOclient.c:259-290 | The first request of a download refines the client machine. |
| SdoClient.Endpoint.DownloadResponse | common/upgrade/loader/libs/canopen/CO_SDOclient.c:291-348 | The answer to it refines the client machine. |
| SdoClient.Endpoint.DownloadSegmentResponse | common/upgrade/loader/libs/canopen/CO_SDOclient.c:350-404 | The acknowledgement of a segment refines the client machine. |
| SdoClient.Endpoint.UploadResponse | common/upgrade/loader/libs/canopen/CO_SDOclient.c:423-485 | The answer to an upload request, expedited or segmented, refines the client machine. |
| SdoClient.Endpoint.UploadSegmentResponse | common/upgrade/loader/libs/canopen/CO_SDOclient.c:487-544 | A segment of an upload refines the client machine. |
| JsonReading.AnyJson | libs/tiny-json/tiny-json.c:69-94 | For every object of JSON, with whatever blanks between its tokens, spellings of its strings and forms of its numbers (integers within 64 bits), and a pool that is large enough, the stack-free in-place parser returns a tree of the same shape and order; every string is unescaped (a \u code becomes a question mark) and terminated, every number and word is terminated, and every chain of siblings ends. |
| JsonSoundness.OnlyJson | libs/tiny-json/tiny-json.c:69-94 | Conversely, whatever text of bytes is parsed successfully is an object of JSON up to where the parser stops, with valid names, strings, numbers (integers within 64 bits) and words and matching brackets; only commas may stand or be missing wherever an item may begin. |
| JsonSoundness.RunAccepted | libs/tiny-json/tiny-json.c:332-382 | From any point of a successful run the text closes, in rows of such items, all blocks that are open there. |
| JsonSoundness.NumberFound | libs/tiny-json/tiny-json.c:245-307 | What the number scanner takes is a number of JSON, followed by a blank, a comma or a bracket. |
| JsonSoundness.StringFound | libs/tiny-json/tiny-json.c:129-153 | What the string scanner takes is a valid spelling of a string. |
| JsonReading.ParseList | libs/tiny-json/tiny-json.c:332-382 | Reading a list of items with blanks anywhere, nested to any depth, links nodes that show them to the open block and leaves everything else alone. |
| JsonReading.ParseItem | libs/tiny-json/tiny-json.c:352-380 | Reading one item adds exactly its nodes, with the parent link given back. |
| JsonReading.ShowsRepresents | libs/tiny-json/tiny-json.c:312-322 | A tree laid out as the parser lays it out is what a reader finds who only follows links. |
| JsonReading.SkipGap | libs/tiny-json/tiny-json.c:428-436 | Blanks, the five characters given literally, make no difference to the parser wherever it stands. |
| JsonReading.NameTakes | libs/tiny-json/tiny-json.c:160-168 | A name is taken with any blanks around its colon, unescaped and terminated. |
| JsonReading.ScanString | libs/tiny-json/tiny-json.c:129-153 | A string in any valid spelling is unescaped in place and terminated, with every \u code read as a question mark. |
| JsonRoundTrip.AnyText | libs/tiny-json/tiny-json.c:328-383 | However a text spells and spaces a document, the tree represents the document exactly if no character is written as a code other than that of the question mark. |
| JsonRoundTrip.SpacedRoundTrip | libs/tiny-json/tiny-json.c:328-383 | The printed form of every object, with blanks before and after any bracket, colon, comma, name and value, is parsed into the same tree as without them. |
| JsonRoundTrip.RoundTrip | libs/tiny-json/tiny-json.c:328-383 | For every object that json-maker prints, and a pool that is large enough, the parser returns a tree of the same shape and order; the tree is the document itself exactly if its texts hold no control characters other than the five with an escape letter. |
| JsonRoundTrip.RepresentsExact | libs/tiny-json/tiny-json.c:129-153 | A reader finds the document that a text means exactly if every string and name in it is spelled without codes that are lost. |
| JsonRoundTrip.PrintIsSpaced | libs/json-maker/json-maker.c:125-181 | What json-maker prints is one of the spaced forms, the one without blanks. |
| JsonRoundTrip.SpacedIsJson | libs/json-maker/json-maker.c:145-181 | Each of these forms is valid JSON and means the document: every escape stands for its character, every numeral for its number. |
| JsonPool.PoolExact | libs/tiny-json/tiny-json.c:388-401 | An object of JSON is parsed successfully exactly if the pool holds a node for each of its values. |
| JsonPool.GrowParse | libs/tiny-json/tiny-json.c:398-401 | The result of a successful parse does not depend on nodes left over. |
| TinyJson.StepKeeps | libs/tiny-json/tiny-json.c:332-382 | On any terminated text, one turn of the loop stays within text and pool, keeps the chain of open blocks intact and advances: no access out of bounds, and the loop ends. |
| JsonNumbers.FitsExact | libs/tiny-json/tiny-json.c:290-305 | The test by length and string comparison accepts an integer lexeme of any length exactly if its value lies between -2^63 and 2^63-1. |
| JsonNumbers.NumValueReads | libs/tiny-json/tiny-json.c:245-307 | The number parser takes every number of JSON, with fraction and exponent or without, tells integers from reals, and refuses exactly the integers beyond 64 bits. |
| JsonNumbers.StrCmpIsOrder | libs/tiny-json/tiny-json.c:298-302 | On digit strings of the same length, strcmp orders by value. |
| JsonNumbers.GetIntegerExact | libs/tiny-json/tiny-json.h:143-145 | A printed integer is read back as the same number exactly if it fits into 32 bits. |
| JsonReader.Parser.ObjValue | libs/tiny-json/tiny-json.c:328-383 | The parser loop on arrays computes the result of the step machine. |
| JsonReader.Parser.Turn | libs/tiny-json/tiny-json.c:332-382 | One turn of the loop on arrays is one step of the machine. |
| JsonReader.Parser.ParseString | libs/tiny-json/tiny-json.c:129-153 | The two-index unescaping loop refines its recursive definition. |
| JsonReader.Parser.NumValue | libs/tiny-json/tiny-json.c:269-307 | The number parser, with its temporary terminator, refines its definition. |
| JsonReader.Parser.Add | libs/tiny-json/tiny-json.c:312-322 | Appending a child through child, last_child and sibling links. |
| JsonReader.Parser.Create | libs/tiny-json/tiny-json.c:69-94 | Parsing from the root refines the definition on values. |
| JsonMaker.Make | libs/json-maker/json-maker.c:55-85 | Writing an object with the writers leaves exactly its printed form in the buffer, terminated, the last comma removed. |
| JsonMaker.AddValue | libs/json-maker/json-maker.c:183-215 | Writing a value appends its name, its printed form and a comma and changes nothing else. |
| JsonMaker.CloseBlock | libs/json-maker/json-maker.c:75-119 | Closing replaces the comma behind the last item by the bracket. |
| JsonMaker.Atoesc | libs/json-maker/json-maker.c:145-180 | The escaping loop appends the escaped string. |
| JsonMaker.Numtoa | libs/json-maker/json-maker.c:228-258 | Digits written backwards and reversed in place are the decimal form of the number. |
| JsonMaker.End | libs/json-maker/json-maker.c:218-224 | Finishing removes the comma behind the root. |
| JsonMaker.LastComma | libs/json-maker/json-maker.c:75-119 | Items each followed by a comma are the printed list and one comma too many. |
| Crc16.ResidueExact | utils/code_c/algorithms/sm_crc.c:106-160 | The CRC of a buffer with two bytes behind it is zero exactly if these are its own CRC, most significant byte first. |
| CrcMeaning.TrailerIsRemainder | utils/code_c/algorithms/sm_crc.c:106-160 | The two bytes that follow a buffer are the remainder that its bits, most significant first, the first 16 inverted and 16 zeros behind, leave on long division by x^16 + x^12 + x^5 + 1. |
| Division.ShiftAllIsRemainder | utils/code_c/algorithms/sm_crc.c:114-138 | A shift register with feedback holds the remainder of long division of what has entered, for every divisor. |
| Crc16.BurstDetected | utils/code_c/algorithms/sm_crc.c:106-160 | Buffers of equal length that differ, but only within two adjacent bytes, have different CRCs. |
| Crc16.TableStep | utils/code_c/algorithms/sm_crc.c:142-146 | One table lookup does the work of eight bit steps. |
| CrcTable.TableIs | utils/code_c/algorithms/sm_crc.c:334-367 | Each of the 256 entries of the lookup table is what eight bit steps make of its index. |
| CrcLoops.Calculate | utils/code_c/algorithms/sm_crc.c:106-160 | The table loop computes the CRC; a null buffer gives 0. |
| CrcLoops.CalculateBitwise | utils/code_c/algorithms/sm_crc.c:114-138 | The bitwise loop, in 32 bits that are never cut, computes the same CRC. |
| CrcLoops.GenerateTable | utils/code_c/algorithms/sm_crc.c:253-280 | The generator fills a table with exactly the entries of the lookup table. |
| HostFrames.StreamDelivered | libs/host/sm_host.c:261-352 | For every stream of frames with payloads of up to 248 bytes, damaged frames and noise between them, in any pieces interleaved with process calls, as long as the ring never fills up: once all has been read, the callback has fired exactly once per good frame for this address, in order, with its command and payload. |
| HostFrames.RunTracks | libs/host/sm_host.c:261-352 | Under the same condition, at every moment the callbacks are those of the items read completely, and packet, ring and future bytes are the rest of the stream. |
| HostFrames.OverrunLoses | libs/host/sm_host.c:338-352 | The condition on the ring is needed: a frame and noise that fill it in one go leave no trace. |
| HostFrames.ShortRunHolds | libs/host/sm_host.c:338-352 | A run that brings less than a ring of bytes meets the condition, whenever the process function is called. |
| HostFrames.PollsDrain | libs/host/sm_host.c:279-288 | As many process calls as bytes waiting read everything. |
| HostFrames.FrameShape | libs/host/sm_host.c:163-191 | A built frame has its stop byte where the length field says, and its CRC clears. |
| HostFrames.DamageRejected | libs/host/sm_host.c:290-322 | For every run that brings a frame damaged within two adjacent bytes of address, command, payload or CRC and reads it: no callback, and the receiver is ready for the next frame. |
| HostDevice.Host.Process | libs/host/sm_host.c:261-336 | The process function on ring and packet buffers, in both modes, with or without a callback, refines the receiver. |
| HostDevice.Host.AsynFeed | libs/host/sm_host.c:338-352 | Feeding any number of bytes appends them to what waits; if the ring fills up, whole turns of 4096 bytes are lost, the oldest first. |
| HostDevice.KeptAgain | libs/host/sm_host.c:338-352 | What a ring keeps of a stream does not depend on how it is cut into pieces. |
| HostDevice.Host.Drive | libs/host/sm_host.c:261-352 | On the buffers, any sequence of feeding and process calls ends in the state of the receiver's run. |
| HostDevice.Host.Serve | libs/host/sm_host.c:261-352 | The delivery of a stream on the buffers themselves. |
| HostDevice.Host.SendCmd | libs/host/sm_host.c:163-191 | The bytes handed to the line, one by one: start 0xAA, length, address, command, payload, a CRC that clears, stop 0x55. |
| HostDevice.Host.SendResponse | libs/host/sm_host.c:233-259 | The bytes handed to the line, one by one: start 0xAA, length, address, command, result, payload, a CRC that clears, stop 0x55. |
| HostDevice.ResponseArrives | libs/host/sm_host.c:233-259 | A receiver with this address that reads such a response of up to 247 bytes of payload makes exactly one callback, with the command, and the result in front of the payload. |
| HostFrames.CommandArrives | libs/host/sm_host.c:261-336 | Bytes that carry a command lead to one callback with it in the device with the address, and to none in every other one, in whatever pieces they come. |
| HostFrames.NoPhantom | libs/host/sm_host.c:261-336 | Whatever bytes come, in whatever pieces, as long as the ring never fills up: every callback is for a frame that stands among them, whole, addressed to this device and with a CRC that clears. |
| HostFrames.CarriesExact | libs/host/sm_host.c:163-191 | The bytes that carry a command are those of its frame and no others. |
| HostFrames.LongFrameLost | libs/host/sm_host.c:291-296 | A frame with more than 248 bytes of payload is never delivered, and what waits behind it is lost with it. |
| FlashDriver.W25q.Write | driver/winbond/sm_w25qxx.c:1006-1030 | A write programs exactly the data, as flat memory would take them, with no program command crossing a page; length 0 means the rest of the sector. |
| FlashDriver.W25q.WriteSector | driver/winbond/sm_w25qxx.c:685-723 | The same within a sector, page by page. |
| FlashDriver.W25q.WritePage | driver/winbond/sm_w25qxx.c:636-684 | One program command within the page, its length cut at the end of the page. |
| FlashDriver.W25q.Read | driver/winbond/sm_w25qxx.c:981-1005 | A read fills the buffer with the cells of the range and leaves the rest of it; length 0 means the rest of the sector. |
| FlashDriver.W25q.ReadSector | driver/winbond/sm_w25qxx.c:887-925 | The same within a sector, page by page. |
| FlashDriver.W25q.ReadPage | driver/winbond/sm_w25qxx.c:838-886 | One read command within the page. |
| FlashDriver.W25q.EraseSector | driver/winbond/sm_w25qxx.c:316-344 | A sector becomes all ones; every other cell is unchanged. |
| FlashDriver.WriteAndRead | driver/winbond/sm_w25qxx.c:981-1030 | On erased cells a write followed by a read gives the data back, and all other cells are unchanged. |
| FlashDriver.ConversionsAgree | driver/winbond/sm_w25qxx.c:377-391 | The conversions between pages, sectors and blocks agree with each other and invert where they should. |
| FlashChip.ProgramIsMerge | driver/winbond/sm_w25qxx.c:636-684 | A program command that stays within its page acts as on flat memory. |
| FlashChip.MergeExact | driver/winbond/sm_w25qxx.c:1006-1030 | After a write the range holds the data exactly if no bit would have had to be set; everything else is unchanged. |
| FlashChip.MergeTwice | driver/winbond/sm_w25qxx.c:1006-1030 | Writing two adjacent pieces is writing their concatenation. |
| FlashChip.AddressArrives | driver/winbond/sm_w25qxx.c:652-663 | The three or four address bytes sent give the chip the address meant. |
| ModbusTransparency.Transparent | libs/nanoModbus/nanomodbus.c:720-1135 | For RTU (matching nonzero address) and TCP, function codes 1 to 6, 15 and 16, all valid arguments and every application: request, server and response decoding together give the client exactly what the application replied, data or exception; an error that is no Modbus exception arrives as exception 4. |
| ModbusWire.ServerExact | libs/nanoModbus/nanomodbus.c:362-1135 | A server on any bytes: it answers exactly the complete messages for it with a known function code and, on a serial line, the right CRC; with exception 1, 2 or 3 exactly if function, range, count or value are wrong, in the order of the checks, and otherwise with what the application replies to the request that the bytes spell. |
| ModbusWire.ClientExact | libs/nanoModbus/nanomodbus.c:464-637 | A client on any bytes: it reports an outcome exactly if the bytes tell it, under the header that it waits for and, on a serial line, with the right CRC. |
| ModbusWire.RequestBytes | libs/nanoModbus/nanomodbus.c:1484-1656 | Every valid request byte by byte: header, function code, numbers with their most significant byte first, count, data, CRC. |
| ModbusWire.ReportAnswers | libs/nanoModbus/nanomodbus.c:731-1130 | Every answer byte by byte: exceptions with 128 added to the function code, counts, packed bits, registers, echoed words. |
| ModbusWire.BodyRead | libs/nanoModbus/nanomodbus.c:244-335 | A body is accepted exactly if its bytes and its CRC have come; otherwise the error is a timeout or a bad CRC. |
| ModbusCrc.FooterIsRemainder | libs/nanoModbus/nanomodbus.c:191-206 | The two bytes that end a serial message are the remainder that its bits, least significant first, the first 16 inverted and 16 zeros behind, leave on long division by x^16 + x^15 + x^2 + 1; the lower byte goes first. |
| ModbusCrc.ResidueExact | libs/nanoModbus/nanomodbus.c:191-206 | Over a message and two bytes behind it the register ends at zero exactly if these are the two bytes sent. |
| ModbusTransparency.ServerAnswers | libs/nanoModbus/nanomodbus.c:731-1130 | The server's handlers understand every valid request as it was meant and send the reply of the application. |
| ModbusTransparency.ClientTold | libs/nanoModbus/nanomodbus.c:464-637 | The client understands every answer of the server, exceptions included. |
| ModbusTransparency.BodyArrives | libs/nanoModbus/nanomodbus.c:244-335 | The data of a message, with or without a counted part, arrive whole and pass the CRC. |
| ModbusTransparency.RegsArrive | libs/nanoModbus/nanomodbus.c:63-80 | Registers put into a message as bytes are read back unchanged. |
| ModbusTransparency.OtherDeviceIgnored | libs/nanoModbus/nanomodbus.c:362-378 | A serial server leaves requests for other devices unanswered. |
| ModbusTransparency.MessagesFit | libs/nanoModbus/nanomodbus.c:325-357 | No request and no answer is longer than the buffer of 260 bytes. |
| ModbusEndpoint.Endpoint.ServerPoll | libs/nanoModbus/nanomodbus.c:1440-1474 | Polling on the buffer and its index, silent without an error when nothing came, computes the server's definition, with the index never past 260. |
| ModbusEndpoint.Endpoint.HandleReadDiscrete | libs/nanoModbus/nanomodbus.c:731-791 | Reading coils or inputs: checks in order, callback, bits put one by one. |
| ModbusEndpoint.Endpoint.HandleReadRegisters | libs/nanoModbus/nanomodbus.c:796-856 | Reading registers: checks in order, callback, words put one by one. |
| ModbusEndpoint.Endpoint.HandleWriteSingleCoil | libs/nanoModbus/nanomodbus.c:889-939 | Writing a coil: the callback is looked for before the value is checked. |
| ModbusEndpoint.Endpoint.HandleWriteSingleRegister | libs/nanoModbus/nanomodbus.c:943-989 | Writing a register. |
| ModbusEndpoint.Endpoint.HandleWriteMultipleCoils | libs/nanoModbus/nanomodbus.c:993-1062 | Writing coils: range, count and callback in order. |
| ModbusEndpoint.Endpoint.HandleWriteMultipleRegisters | libs/nanoModbus/nanomodbus.c:1066-1135 | Writing registers: range, count and callback in order. |
| ModbusEndpoint.Endpoint.SendRequest | libs/nanoModbus/nanomodbus.c:1484-1656 | The client's requests: arguments checked, a new transaction id, the fields put one after the other. |
| ModbusEndpoint.Endpoint.RecvResponse | libs/nanoModbus/nanomodbus.c:464-637 | Reading an answer on the buffer computes the client's definition. |
| ModbusEndpoint.Endpoint.TakeBody | libs/nanoModbus/nanomodbus.c:464-530 | Reading the fixed part, the counted part, of which an odd byte of registers is dropped, and the footer refines the definition. |
| ModbusEndpoint.Endpoint.CrcCalc | libs/nanoModbus/nanomodbus.c:191-206 | The CRC loop computes its definition, with the bytes swapped. |

## Left out

- MqttClient.Client.Connect: the contents of the CONNECT packet are an input, because only its size and its place in the queue matter to the session.
- MQTT reconnect, mutexes, response-time averages and real clocks: one session without `mqtt_reinit` is modelled.
- QoS 2 liveness of MQTT: `mqtt_mq_find` ignores the state of a message, so that a PUBREC not yet cleaned hides a reused id; `SessionDelivery.DeliveredExactly` says exactly which packets are passed over, not that they should be.
- A malformed PUBLISH whose topic length runs past the packet: the code then reads beyond it.
- SdoServer.Endpoint.Process: without the SYNC window, outside of which a call does nothing but advance the timer.
- SdoServer.Endpoint.ProcessFirst: objects with an extension, whose downloads go to a shadow buffer, are not modelled.
- SdoServer.Endpoint.DownloadInit: the confirm function of an extension is not modelled.
- SdoServer.Endpoint.DownloadSegment: the same.
- SdoClient.Endpoint.Process: without the SYNC window.
- SDO block transfer and node-id changes.
- SDO lines that duplicate or reorder frames: one frame is in flight at a time.
- JsonRoundTrip.RoundTrip: names of printed objects with quotes, backslashes or control characters are excluded, because json-maker prints them unescaped.
- JsonReading.AnyJson: characters above 0xFF are not modelled, because text is bytes.
- JsonSoundness.OnlyJson: which of the texts with missing or additional commas are accepted is not claimed in the other direction, because JSON does not promise them.
- MqttWire.RequestBytes: topics of more than 65535 bytes, whose length the code cuts to 16 bits, are left to `MqttCodec.PackTopic`.
- JsonMaker.Atoesc: `char` is taken to be unsigned, as on ARM; where it is signed, bytes of 0x80 and above are printed as escapes.
- JsonMaker.Numtoa: the numbers are unbounded here; in C the negation of the smallest 64-bit number is undefined.
- `json_double`: floating point.
- JsonReader.Parser.Create: after a failure the contents of text and pool are not specified, because the caller gets no tree; a parser text that has bytes behind its last terminator is not modelled.
- JsonReader.Parser.ObjValue: the pool and the text are arrays and pointers are positions in them; a null pointer handed in by the caller is not modelled.
- HostDevice.Host.Process: a callback that itself changes the host is not modelled, nor is the blocking `sm_host_send_cmd_sync`.
- Flash: write protection, status registers, the emptiness checks, block and chip erase, and the block-wise readers and writers, which repeat the sector-wise ones.
- ModbusWire.ServerExact: speaks of the definitions; for counts that do not fit the message buffer see the next lines.
- Modbus function codes 20 and 21 (file records): the server model treats them as unknown codes, which it leaves unanswered as the code does.
- ModbusEndpoint.Endpoint.TakeBody: counts that do not fit the message buffer are outside the model, because the code then writes past it.
- ModbusEndpoint.Endpoint.ServerPoll: the same holds for requests with such counts.
- ModbusEndpoint.Endpoint.RecvResponse: the same holds for answers; a broadcast write, after which the client does not wait, is not an exchange.
- ModbusEndpoint.Endpoint.Recv: transport errors other than too few bytes are not modelled.
- CRC-8, CRC-32, sockets, serial drivers, loggers, containers and string helpers: no hard invariant, or easy members.

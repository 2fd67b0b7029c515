# A verified model of the cything device core

This project models, in Dafny, the parts of the device firmware whose
correctness depends on state carried across many steps, and proves what they
promise for every input and every run:

- **The MQTT quality-of-service engine** (`MqttTypes`, `RecordList`,
  `RecordArray`, `StateEngine`, `QosHandlers`, `Qos2Protocol`, `QosTables`,
  `QosResendLimit`, `PublishResend`, `MessageOrder`). The record arrays are updated in place by methods
  that are proved to refine an ordered list of live records. The handlers of
  `core_mqtt.c` are proved against functions on that list, and those functions drive
  a two-endpoint protocol in which exactly-once delivery is proved over every run.
- **The MQTT codec and transport** (`RemainingLength`, `PacketCodec`,
  `PacketReaders`, `VectorSend`, `ZeroCopy`, `PacketStream`, `PublishTransfer`,
  `TopicMatch`). What the serializers write is read back by readers written from the
  layouts of the standard. The transport is an object whose writes and reads take any part of what they are
  offered, and fail or stall at will; `wire` and `pending` are the bytes sent and
  still to come.
- **The local link** (`Accounts`, `PairedList`, `LocalLink`, `LinkAuthority`,
  `LinkCoherence`, `LinkCommands`, `LinkFailures`, `LinkDevice`, `EncFrame`,
  `LinkFrames`). Each command is one
  atomic step on the account list, the flash blob and the pool of sessions; every
  flash write may fail; the device may reboot at any time. `LinkDevice` holds the
  handlers over the arrays, proves that they take those steps, and so carries the
  theorems about them.
- **The response path** (`ByteSeq`, `TextLines`, `ResponseFifo`, `Decimal`,
  `LineRouter`). The FIFO, the formatting of response lines, and the send task that
  takes a batch apart.

Clocks, randomness, flash outcomes, network outcomes and the results of
cryptographic checks are parameters or arbitrary values. The AEAD and base64 are
function parameters with a round-trip hypothesis; for the receiving theorem the
only further hypothesis is that a frame on the wire which opens is one the client
sealed.

Five promises turned out not to hold as stated; the code is modelled as it is, a
concrete input shows each failure, and the exact condition is proved instead:

- The PUBLISH resend walk resends every pending publish exactly when
  `PublishResend.NoPendingSkipped` holds of the slots at the start. The reserve
  step inside the walk compacts the array under the cursor when the last slot is
  taken, so a hole before the first pending publish can hide the next one.
- `MQTT_MatchTopic` reports every match of section 4.7 of MQTT 3.1.1 except the
  family `TopicMatch.Missed`.
- An account removal whose flash write fails still removes the entry from RAM but
  does not tell the sessions. Sessions keep pointing at their own account exactly
  when the write succeeds or no session points at the removed entry or beyond.
- For the same reason an UNPAIR need not remove the caller's own account: after one
  whose write failed, the session points at the next entry, and a second UNPAIR
  removes that. It removes the caller's own account exactly when the session still
  points at the account it named.
- Rotating the password leaves the owner alone exactly when every removal but
  possibly the last was stored: after a failed write the walk steps over the next
  entry.

One place where code and documentation differ: the PUBLISH size check compares
the payload with what is left of 268435455 after the whole header, so it limits
the whole packet, not only the remaining length, to that number. The model
follows the code.

## Model

| member | source | states |
|---|---|---|
| `Qos2Protocol.ExactlyOnce` | src/coreMQTT/core_mqtt.c:1248-1573 | In every run of publishes, resends, duplicates, failed ack sends, reconnects and clean reconnects between two endpoints, a QoS 2 message is delivered at most once; a message whose record the sender has deleted on PUBACK or PUBCOMP was delivered, and exactly once for QoS 2; nothing is delivered that was not published |
| `Qos2Protocol.Kept` | src/coreMQTT/core_mqtt.c:1248-1573 | Every enabled step of the two-endpoint protocol keeps the invariant that ties, for each packet id, both records, both channels and the delivery count together |
| `QosResendLimit.SecondResendLosesMessage` | src/aws/aws_iot_handler.c:415-486 | Why the resend loop must send a QoS 1 PUBLISH only once per connection: with a second resend there is a run in which a message counts as completed and was never delivered |
| `Qos2Protocol.SenderTable` | src/coreMQTT/core_mqtt.c:1505-1573 | What the sender of a message does with every acknowledgement it can meet, with the ack send succeeding or failing |
| `Qos2Protocol.ReceiverTable` | src/coreMQTT/core_mqtt.c:1373-1501 | What the receiver does with a PUBLISH for each record it can hold for the id, including a full table and a failed ack |
| `Qos2Protocol.AckHandledIsLocal` | src/coreMQTT/core_mqtt.c:1505-1573 | Handling an acknowledgement among many records is handling it on the id's own record, and touches no other id |
| `Qos2Protocol.PublishHandledIsLocal` | src/coreMQTT/core_mqtt.c:1373-1501 | Handling a PUBLISH among many records is handling it on the id's own record, and touches no other id |
| `Qos2Protocol.PublishCalledIsLocal` | src/coreMQTT/core_mqtt.c:2752-2856 | Publishing among many records is publishing on the id's own record, and touches no other id |
| `QosHandlers.FirstPublishIs` | src/coreMQTT/core_mqtt.c:2752-2856 | A first publish of QoS 1 or 2 is refused exactly when its id is live or every slot is taken, kept to be resent exactly when its send fails, and otherwise puts this message on the wire once and waits for the ack its QoS calls for |
| `QosTables.DuplicateTable` | src/coreMQTT/core_mqtt.c:2752-2856 | What a duplicate publish reports and sends for every record the sender can hold of the id, and for none |
| `QosTables.PublishUntracked` | src/coreMQTT/core_mqtt.c:2752-2856 | A QoS 0 publish goes out or fails and leaves no record; QoS 1 and 2 without an id are refused |
| `QosTables.ReceiveUntracked` | src/coreMQTT/core_mqtt.c:1373-1501 | A QoS 0 publish is passed on every time, with no record and no ack; QoS 1 and 2 without an id are refused |
| `QosTables.ReceiveOtherQos` | src/coreMQTT/core_mqtt.c:1373-1501 | A publish under an id whose record has the other QoS is never passed on |
| `QosTables.SenderAckTable` | src/coreMQTT/core_mqtt.c:1505-1573 | For every record a sender can hold and every acknowledgement it can be given: the three expected pairs and what they do, and that any other leaves the record |
| `QosTables.ReceiverAckTable` | src/coreMQTT/core_mqtt.c:1505-1573 | The same for a PUBREL at the receiver |
| `QosTables.AckOfNothing` | src/coreMQTT/core_mqtt_state.c:1007-1085 | An acknowledgement of an id without a record is reported and changes nothing |
| `QosTables.CancelTakesOne` | src/coreMQTT/core_mqtt_state.c:959-1003 | A cancel takes exactly the record of its id and keeps the order of the others |
| `RecordArray.FindInRecord` | src/coreMQTT/core_mqtt_state.c:448-476 | Finds the first slot with the id, its QoS and state, and where that record stands in the list of live records; not found exactly when the id is not live |
| `RecordArray.CompactRecords` | src/coreMQTT/core_mqtt_state.c:480-518 | The in-place compaction leaves the live records in their order, packed at the front, and zeroed slots after them |
| `RecordArray.CompactedIsStable` | src/coreMQTT/core_mqtt_state.c:480-518 | Compaction is a stable filter: the list of live records is unchanged and free slots stay zeroed |
| `RecordArray.FindAvailable` | src/coreMQTT/core_mqtt_state.c:543-572 | The backward scan reports a collision exactly when the id is present, and otherwise the start of the free tail |
| `RecordArray.AddRecord` | src/coreMQTT/core_mqtt_state.c:522-585 | Collision exactly when the id is live, out of memory exactly when every slot is live and the id is not, otherwise the record is appended to the list |
| `RecordArray.UpdateRecord` | src/coreMQTT/core_mqtt_state.c:589-607 | Deletes or restates one record; the order of the rest is kept |
| `StateEngine.Engine.constructor` | src/coreMQTT/core_mqtt.c:2537-2590 | Zeroed arrays start with no live records and satisfy the record invariant |
| `StateEngine.Engine.ReserveState` | src/coreMQTT/core_mqtt_state.c:827-852 | Appends a PublishSend record or reports the exact error; keeps the record invariant |
| `StateEngine.Engine.PublishWasSent` | src/coreMQTT/core_mqtt_state.c:769-955 | The sending half of the publish update: at most one slot changes, and only its state; keeps the record invariant |
| `StateEngine.Engine.PublishWasReceived` | src/coreMQTT/core_mqtt_state.c:769-955 | The receiving half: a new record, a collision for a duplicate, or out of memory; keeps the record invariant |
| `StateEngine.Engine.RemoveStateRecord` | src/coreMQTT/core_mqtt_state.c:959-1003 | Removes the record exactly when the id is live |
| `StateEngine.Engine.ApplyAck` | src/coreMQTT/core_mqtt_state.c:708-765 | An illegal transition changes nothing; a legal one deletes, restates, or moves the record to the end, and re-adding it never fails for want of memory |
| `StateEngine.Engine.UpdateStateAck` | src/coreMQTT/core_mqtt_state.c:1007-1085 | Picks the array by direction, refines the list update, changes nothing on failure, and keeps ids distinct and non-zero, free slots zeroed and every state legal for its direction and QoS |
| `StateEngine.Engine.StateSelect` | src/coreMQTT/core_mqtt_state.c:611-655 | Returns the next slot in one of the states and the cursor after it |
| `StateEngine.PubrecMovesToEnd` | src/coreMQTT/core_mqtt_state.c:708-765 | A received PUBREC moves the record to the end of the list, in PubRelSend, keeping the order of the rest and the number of records |
| `StateEngine.AckKeepsOutgoing` | src/coreMQTT/core_mqtt_state.c:312-417 | Every acknowledgement of an outgoing publish keeps ids distinct and every state legal for its QoS, and never adds a record |
| `StateEngine.AckKeepsIncoming` | src/coreMQTT/core_mqtt_state.c:312-417 | The same for acknowledgements of incoming publishes |
| `StateEngine.PublishSentKeepsOutgoing` | src/coreMQTT/core_mqtt_state.c:236-308 | Marking a publish as sent keeps ids distinct and every state legal |
| `StateEngine.AddedKeepsOutgoing` | src/coreMQTT/core_mqtt_state.c:522-585 | Reserving a publish keeps the outgoing record invariant |
| `StateEngine.AddedKeepsIncoming` | src/coreMQTT/core_mqtt_state.c:522-585 | Recording a received publish keeps the incoming record invariant |
| `QosHandlers.Client.SendPublishAcks` | src/coreMQTT/core_mqtt.c:1248-1319 | Sends the ack owed for a state and advances the record, or sends nothing and leaves it |
| `QosHandlers.Client.HandleIncomingPublish` | src/coreMQTT/core_mqtt.c:1373-1501 | Delivers a new message once, never a duplicate, and acknowledges both |
| `QosHandlers.Client.HandlePublishAcks` | src/coreMQTT/core_mqtt.c:1505-1573 | Updates the record and sends the follow-up ack as the list function says; nothing is delivered |
| `QosHandlers.Client.Publish` | src/coreMQTT/core_mqtt.c:2752-2856 | A first publish reports and does exactly what `FirstPublishIs` says of it, and one of QoS 0 goes out or fails without a record; a duplicate of a live id is let through and leaves the slots' ids and pending publishes as the reserve step left them |
| `QosHandlers.Client.ResendPubrels` | src/coreMQTT/core_mqtt.c:2383-2430 | Resends one PUBREL per record in PubRelSend or PubCompPending, in slot order, exactly up to the first failed send; those records end in PubCompPending and none moves; success if and only if every send it is due works |
| `QosHandlers.ResumedOnList` | src/coreMQTT/core_mqtt.c:2383-2430 | Walking slots and walking the list of live records send the same PUBRELs and leave the same list |
| `QosHandlers.Client.HandleSessionResumption` | src/coreMQTT/core_mqtt.c:2383-2430 | That walk when the session is present, cleared arrays and success otherwise |
| `MessageOrder.OrderOverRuns` | src/coreMQTT/core_mqtt_state.c:543-572 | After any calls that change the outgoing records, resumptions included: publishes waiting for a resend stand in the order they were reserved, and the PUBRELs a resumption sends are in the order their PUBRECs arrived (section 4.6 of MQTT 3.1.1) |
| `MessageOrder.NextOrdered` | src/coreMQTT/core_mqtt_state.c:708-765 | Every such call keeps both orders |
| `MessageOrder.OwedOverRuns` | src/coreMQTT/core_mqtt.c:2383-2430 | After any such calls a resumption owes a PUBREL exactly for the records whose PUBREC came, and a PUBLISH exactly for the others |
| `PublishResend.ResendsAllExactlyWhen` | src/coreMQTT/core_mqtt_state.c:536-541 | The walk whose array is compacted under its cursor resends every pending publish once and in order if and only if no pending publish ends up behind the cursor |
| `PublishResend.SafeSlots` | src/aws/aws_iot_handler.c:415-486 | A free last slot, or no free slot at all, is enough for the walk to resend everything |
| `PublishResend.HoleSkipsPublish` | src/coreMQTT/core_mqtt_state.c:536-541 | A valid array with an early hole and a taken last slot from which a pending publish is not resent |
| `PublishResend.ResendStored` | src/aws/aws_iot_handler.c:441-468 | The table search: found exactly when the id is stored; then the stored message, under the stored QoS and with its duplicate flag, goes out once exactly when the send works, and the call succeeds exactly when also that QoS is the record's; ids and QoS of records and ids, QoS and messages of the table are unchanged |
| `PublishResend.HandlePublishResend` | src/aws/aws_iot_handler.c:415-486 | Attempts exactly the walk's ids up to the first one missing from the table; the wire gains, per attempt whose send works and in order, the PUBLISH stored under that id with its duplicate flag; success if and only if no id of the walk is missing and every attempt was sent and agreed in QoS; every pending publish is resent, once and in order, if and only if none is skipped, each is in the table and every send works |
| `PublishResend.AllResentExactlyWhen` | src/aws/aws_iot_handler.c:415-486 | The last of these for any slots, table and pattern of sends |
| `TopicMatch.MatchTopic` | src/coreMQTT/core_mqtt.c:3138-3203 | Reports a bad parameter exactly for an empty name or filter; for valid names and filters, reports a match if and only if the levels match under section 4.7 of MQTT 3.1.1, including the rule for names starting with `$`, and the pair is not in the missed family |
| `TopicMatch.MatchTopicFilter` | src/coreMQTT/core_mqtt.c:680-742 | The two-index loop computes the recursive matcher on names and filters of any length |
| `TopicMatch.MatchWildcards` | src/coreMQTT/core_mqtt.c:576-676 | One wildcard step either decides the match or leaves an equivalent smaller one |
| `TopicMatch.RunMeans` | src/coreMQTT/core_mqtt.c:535-742 | The character-level matcher agrees with the level-by-level definition outside the missed family |
| `TopicMatch.MissedWitnesses` | src/coreMQTT/core_mqtt.c:535-572 | Three pairs that match under the standard and are not reported |
| `RemainingLength.EncodeRemainingLength` | src/coreMQTT/core_mqtt_serializer.c:492-521 | Writes the encoding at the given place and nothing else |
| `RemainingLength.SizeOfEncoded` | src/coreMQTT/core_mqtt_serializer.c:455-488 | The computed size is the number of bytes written, for all lengths up to 268435455 |
| `RemainingLength.ProcessRemainingLength` | src/coreMQTT/core_mqtt_serializer.c:855-922 | The buffered decoder computes the decoding function |
| `RemainingLength.GetRemainingLength` | src/coreMQTT/core_mqtt_serializer.c:803-851 | The byte-at-a-time decoder agrees with it on complete input and reports every other input as invalid |
| `RemainingLength.DecodeInvertsEncode` | src/coreMQTT/core_mqtt_serializer.c:455-922 | Decoding inverts encoding for all lengths up to 268435455, whatever follows |
| `RemainingLength.DecodeMeans` | src/coreMQTT/core_mqtt_serializer.c:803-922 | A length is decoded if and only if the input starts with its shortest encoding; more bytes are asked for if and only if the input is a strict prefix of one |
| `PacketCodec.CalculatePublishPacketSize` | src/coreMQTT/core_mqtt_serializer.c:561-636 | Accepts exactly the packets of at most 268435455 bytes, and the sizes are those of the bytes written |
| `PacketCodec.ParseInvertsBody` | src/coreMQTT/core_mqtt_serializer.c:1408-1498 | Parsing the serialized flags and body returns every field |
| `PacketCodec.PublishRoundTrip` | src/coreMQTT/core_mqtt_serializer.c:708-801 | From the serialized packet followed by anything, the type, the length and every field are recovered |
| `PacketCodec.BodyInvertsParse` | src/coreMQTT/core_mqtt_serializer.c:1004-1053 | Any accepted PUBLISH serializes back to the bytes it was parsed from |
| `PacketCodec.ParsesExactly` | src/coreMQTT/core_mqtt_serializer.c:1408-1498 | The parser accepts exactly the serialized publishes that have a topic or a payload, with an id exactly for QoS 1 and 2: those bytes and no others parse as those fields |
| `PacketCodec.SerializePublish` | src/coreMQTT/core_mqtt_serializer.c:708-801 | Writes exactly the packet at the start of the buffer |
| `PacketCodec.CalculateSubscriptionPacketSize` | src/coreMQTT/core_mqtt_serializer.c:1172-1246 | Accepts exactly lists of non-empty filters that fit, with the sizes of the bytes written |
| `PacketCodec.SerializeSubscriptions` | src/coreMQTT/core_mqtt_serializer.c:1936-2057 | Writes exactly the SUBSCRIBE or UNSUBSCRIBE packet |
| `PacketCodec.GetConnectPacketSize` | src/coreMQTT/core_mqtt_serializer.c:1694-1790 | Refuses exactly an empty client id or an oversize will, and gives the sizes of the bytes written, never over 327699 |
| `PacketCodec.SerializeConnect` | src/coreMQTT/core_mqtt_serializer.c:1557-1690 | Writes exactly the CONNECT packet |
| `PacketReaders.RequestRoundTrip` | src/coreMQTT/core_mqtt_serializer.c:1852-2057 | A reader of sections 3.8 and 3.10 of MQTT 3.1.1 finds in the SUBSCRIBE or UNSUBSCRIBE bytes, followed by anything, the packet kind, the id and every filter in order, with its QoS in a SUBSCRIBE |
| `PacketReaders.ConnectRoundTrip` | src/coreMQTT/core_mqtt_serializer.c:1557-1690 | A reader of section 3.1 of MQTT 3.1.1 finds in the CONNECT bytes, followed by anything, the clean-session flag, keep-alive, client id, will with its QoS and retain flag, user name and password |
| `PacketReaders.FlagsRead` | src/coreMQTT/core_mqtt_serializer.c:1557-1690 | Each bit of the CONNECT flags says what it should and no two fields overlap |
| `VectorSend.SendMessageVector` | src/coreMQTT/core_mqtt.c:746-843 | Whatever the transport does, the wire gains a prefix of the flattened vectors; a non-negative result is its length, short only after the timeout, and it is negative exactly when a write of this call failed |
| `VectorSend.SendBuffer` | src/coreMQTT/core_mqtt.c:845-903 | The same for one buffer |
| `VectorSend.Advance` | src/coreMQTT/core_mqtt.c:821-843 | After a partial write the vectors left are exactly the bytes not yet sent |
| `ZeroCopy.SendPublishWithoutCopy` | src/coreMQTT/core_mqtt.c:2069-2125 | The vectors sent are the bytes the copying serializer writes: all of them on success, a prefix when a write failed or timed out during the call, with no vector array overrun |
| `ZeroCopy.SendSubscriptionsWithoutCopy` | src/coreMQTT/core_mqtt.c:1882-2065 | The same across all batches, for any vector limit that can hold one entry |
| `ZeroCopy.SendConnectWithoutCopy` | src/coreMQTT/core_mqtt.c:2129-2254 | The same for CONNECT with any will, user name and password |
| `ZeroCopy.AddEncodedString` | src/coreMQTT/core_mqtt.c:1840-1878 | Adds vectors that flatten to the length-prefixed string |
| `PacketStream.Receiver.ReceiveSingleIteration` | src/coreMQTT/core_mqtt.c:1655-1785 | However the stream is chunked, one call handles the next packet once it is complete, skips it once it is known to be larger than the buffer, or waits, and stays in step with the packets to come; a bad packet is reported only on bytes after the last packet that start none, and such bytes are waited on only while their length is incomplete; a read error is reported, or step is lost in the middle of an oversize packet, only if a read failed or timed out in that call |
| `PacketStream.Receiver.DiscardStoredPacket` | src/coreMQTT/core_mqtt.c:1091-1157 | Takes exactly the rest of the oversize packet off the stream, and fails only if a read failed or timed out |
| `PacketStream.Receiver.RecvExact` | src/coreMQTT/core_mqtt.c:948-1021 | Takes exactly the bytes asked for, and stops short only at a failed read or an expired wait |
| `PacketStream.HeaderArrives` | src/coreMQTT/core_mqtt_serializer.c:2630-2682 | The header of the packet being received is decoded as soon as its bytes are there, and asks for more before that |
| `PacketStream.KnowsServerPackets` | src/coreMQTT/core_mqtt_serializer.c:926-963 | The first bytes accepted are exactly those of the packets that table 2.1 of MQTT 3.1.1 lets a server send, a PUBREL with its second flag bit set |
| `PacketStream.ReceiveLoop` | src/coreMQTT/core_mqtt.c:1655-1785 | After any number of calls in which no read failed or timed out, the receiver is in step or has reported the bytes that start no packet, and once the stream is consumed the packets handled are exactly those that fit the buffer, in order; it can fall out of step only inside an oversize packet |
| `PublishTransfer.Transfer` | src/coreMQTT/core_mqtt.c:1655-2125 | Publishes sent without copying and received in pieces of any size come out with the same fields, in order, those that fit the buffer and no others; sending fails only on a write error or timeout, receiving only on a read failure |
| `PublishTransfer.PublishIsFrame` | src/coreMQTT/core_mqtt_serializer.c:708-801 | A serialized PUBLISH is a well-formed packet of the stream |
| `Accounts.AddKeepsOwner` | src/security/paired_list.c:223-291 | Enrolling keeps the list well owned and never changes an existing owner |
| `Accounts.AddedMeans` | src/security/paired_list.c:223-291 | Enrolling is refused exactly for an empty account, a failed store, or a new account on a full list, and then changes nothing; a paired account keeps its key and its place and is handed that key, a new one is appended with the key given; the first becomes the owner; flash holds the result |
| `Accounts.RotatedMeans` | src/security/paired_list.c:312-335 | A stored rotation changes the owner's key and nothing else, in RAM and flash; any other changes nothing |
| `Accounts.ReloadSettles` | src/security/paired_list.c:106-195 | After a stored reload flash holds the list in version 3 and further reloads change nothing; if the store fails only flash stays behind |
| `Accounts.MigrationKeeps` | src/security/paired_list.c:79-104 | Migration keeps the first phone of every account with its key, name, time and role |
| `Accounts.WithoutKeepsOwner` | src/security/paired_list.c:293-310 | Removing any other entry keeps the owner's entry first |
| `Accounts.ReloadKeepsOwner` | src/security/paired_list.c:106-195 | A reload keeps the list well owned, also when it migrates a version 2 blob whose store then fails |
| `Accounts.StoredReloads` | src/security/paired_list.c:58-135 | Loading a stored list gives it back |
| `Accounts.DedupedOwned` | src/security/paired_list.c:79-181 | A list whose roles follow its owner, who paired first, with several entries per account, collapses to a well-owned one |
| `Accounts.DedupeKeepsFirsts` | src/security/paired_list.c:165-181 | Deduplication keeps exactly the first entry of each account, in order |
| `PairedList.List.Add` | src/security/paired_list.c:223-291 | All or nothing: on a failed store RAM and owner are as before; an account already paired gets its stored key back |
| `PairedList.List.Remove` | src/security/paired_list.c:293-310 | Shifts the array down over the entry, in RAM also when the store fails; out of range changes nothing |
| `PairedList.List.RotateOwnerKey` | src/security/paired_list.c:312-335 | All or nothing change of the owner's key only |
| `PairedList.List.Clear` | src/security/paired_list.c:337-345 | Empties list and owner, and flash if the store succeeds |
| `PairedList.List.DedupeAccounts` | src/security/paired_list.c:165-181 | The quadratic in-place loop computes the deduplicated list and reports whether anything changed |
| `PairedList.List.Load` | src/security/paired_list.c:79-135 | Reads a version 3 blob, migrates a version 2 blob entry by entry, and starts empty on anything else |
| `PairedList.List.Init` | src/security/paired_list.c:185-195 | Reload from flash with duplicates collapsed, stored back exactly when the blob was migrated or anything was collapsed |
| `LocalLink.OwnershipOverRuns` | src/security/paired_list.c:223-345 | From an unpaired device, after any connects, commands, failed flash writes, reboots and resets: the list is empty exactly when there is no owner; otherwise its first entry, and no other, is the owner's; sessions with the owner role point at it |
| `LocalLink.StepOwns` | src/security/owner_commands.c:97-295 | Every event keeps ownership, and an owned device stops being the same owner's exactly on a RESET over the owner's encrypted session or a stored factory reset |
| `LocalLink.OwnerStays` | src/security/owner_commands.c:264-295 | Over any run without such an event the owner stays the owner |
| `LinkAuthority.AccountLost` | src/security/owner_commands.c:97-295 | An account leaves the list only by the owner's REVOKE of it or PWSET, an UNPAIR from a session that points at it, the owner's RESET, each in an encrypted line on a keyed session, or a stored factory reset; a reboot loses nobody, and the owner leaves only by the last two |
| `LinkAuthority.UnpairTakesOwnExactlyWhen` | src/security/owner_commands.c:273-295 | UNPAIR takes exactly the account the session's index points at, and that is the account the session named if and only if the session still points at it |
| `LinkAuthority.OnlyOwnUnpair` | src/security/owner_commands.c:273-295 | While sessions point at the accounts they named, an UNPAIR removes only the account of the session it came from |
| `LinkAuthority.FailedRemovalReturns` | src/security/paired_list.c:293-310 | A removal whose store fails takes the account out of RAM, and the next reboot brings it back |
| `LinkAuthority.FailedResetReturns` | src/security/owner_commands.c:220-228 | A RESET whose store fails empties RAM only, and the next reboot brings the owner and every account back |
| `LinkAuthority.OwnerSessionsOverRuns` | src/security/local_auth.c:122-300 | In every run, failed stores included: a session with the owner role named the owner's account, and everyone paired in RAM is also in the flash blob |
| `LinkAuthority.OwnerRoleGained` | src/security/local_auth.c:122-300 | A session gets the owner role only by enrolling the owner's account inside an encrypted PAKE session with a stored result, or by a right proof after naming the owner's account |
| `LinkCoherence.CoherenceOverRuns` | src/security/local_session.c:92-142 | Over any run whose removals were stored, every session's index is the entry of the account it named |
| `LinkCoherence.StepCoherent` | src/security/local_auth.c:122-300 | Every event whose removals were stored keeps each session on the account it named |
| `LinkCoherence.RemovalCoherentExactlyWhen` | src/security/owner_commands.c:129-143 | A removal keeps that if and only if its store succeeded or no session points at the entry or past it |
| `LinkCoherence.UnpairCoherentExactlyWhen` | src/security/owner_commands.c:273-295 | A self-removal keeps it if and only if its store succeeded |
| `LinkCoherence.OnlyOwnerLeftExactlyWhen` | src/security/owner_commands.c:154-199 | Rotating the password leaves one entry if and only if every removal but possibly the last was stored |
| `LinkCoherence.PasswordChange` | src/security/owner_commands.c:177-199 | With working stores it leaves just the owner's entry under the new key in RAM and flash, and de-authenticates exactly the other accounts' sessions |
| `LinkCommands.RevokeTakesExactlyWhen` | src/security/owner_commands.c:97-143 | From every sound state, a REVOKE by the owner takes an account off the list if and only if it is the one named, is listed and is not the owner's; the others stay in order; if stored, flash loses it too, exactly the sessions on its entry are de-authenticated and every other session stays on its entry; if not stored, flash and sessions are as before |
| `LinkCommands.UnpairTakes` | src/security/owner_commands.c:273-295 | The same for the entry an UNPAIR's session points at, except the owner's |
| `LinkCommands.ResetTakesExactlyWhen` | src/security/owner_commands.c:220-228 | RESET empties list, owner and, if stored, flash and de-authenticates every live session exactly when its line was encrypted and its session is authenticated as the owner; otherwise it changes nothing |
| `LinkCommands.RefusedCommands` | src/security/owner_commands.c:299-337 | REVOKE, PWSET, UNPAIR and ENROLL change nothing from a session without the key, the role or the encrypted line each needs |
| `LinkCommands.EnrollTakes` | src/security/local_auth.c:122-188 | ENROLL in an encrypted PAKE session stores what the list takes, and exactly then the session stands for that account, as owner exactly if it is the owner's |
| `LinkCommands.HandshakeTable` | src/security/local_auth.c:192-300 | What PAKE1, PAKE3, AUTH1 and AUTH3 make of their session for every phase and proof; accounts and other sessions are untouched |
| `LinkCommands.KeyedOnlyByProof` | src/security/pake_handler.c:145-188 | Whatever happens, a session comes to hold a key only by a right proof on its own socket in the phase that waits for it |
| `LinkCommands.AccountsChangeOnlyBy` | src/security/enc_frame.c:106-122 | Accounts and flash change only by an encrypted line of a keyed session, a reload or a factory reset |
| `LinkCommands.AuthEndsWithConnection` | src/security/local_session.c:22-89 | A disconnect wipes exactly its socket's session, and a reboot every session |
| `LinkCommands.Joins` | src/security/local_auth.c:122-188 | Connecting, proving the password and enrolling pairs any account the list takes, with the session on its entry |
| `LinkCommands.Returns` | src/security/local_auth.c:192-300 | Connecting and proving the stored key logs any listed account in on its entry, as the owner if and only if it is the owner's |
| `LinkFailures.SessionLeftOnAnother` | src/security/owner_commands.c:288-294 | A run from an unpaired device after which a session points at another account's entry: its own UNPAIR was not stored |
| `LinkFailures.UnpairTakesAnother` | src/security/owner_commands.c:288-294 | In that run the session's second UNPAIR removes the other account |
| `LinkFailures.RotationLeavesUser` | src/security/owner_commands.c:154-175 | A run in which a PWSET with one failed store leaves a non-owner on the list |
| `LinkDevice.SessionPool.SlotOf` | src/security/local_session.c:66-78 | The first slot of a socket, or none |
| `LinkDevice.SessionPool.Acquire` | src/security/local_session.c:47-64 | Takes the first free slot, wiped, or changes nothing when the pool is full |
| `LinkDevice.SessionPool.Release` | src/security/local_session.c:80-89 | Wipes the socket's slot |
| `LinkDevice.SessionPool.OnPairedRemoved` | src/security/local_session.c:105-117 | In every live slot: drops the removed index, shifts the later ones |
| `LinkDevice.SessionPool.DropAllAuth` | src/security/local_session.c:136-142 | De-authenticates every live slot and keeps its socket |
| `LinkDevice.Device.HandleEnroll` | src/security/local_auth.c:122-188 | Takes the ENROLL step |
| `LinkDevice.Device.HandleAuth1` | src/security/local_auth.c:192-247 | Takes the AUTH1 step |
| `LinkDevice.Device.HandleRevoke` | src/security/owner_commands.c:97-143 | Takes the REVOKE step; for the owner's session of a sound device, exactly the account named is taken out, as `RevokeTakesExactlyWhen` says, and an unknown account or the owner's is refused |
| `LinkDevice.Device.RevokeAllNonOwner` | src/security/owner_commands.c:154-175 | The loop that removes while it walks terminates with the result of the recursive walk, for any pattern of failed stores |
| `LinkDevice.Device.HandlePwSet` | src/security/owner_commands.c:177-199 | Takes the PWSET step |
| `LinkDevice.Device.HandleReset` | src/security/owner_commands.c:220-228 | Takes the RESET step |
| `LinkDevice.Device.HandleUnpair` | src/security/owner_commands.c:273-295 | Takes the UNPAIR step; for an authenticated session of a sound device, exactly the entry it points at is taken out of list, flash and sessions, and the owner is refused |
| `LinkDevice.Device.HandleLine` | src/security/enc_frame.c:106-122 | One line from a socket takes its step; the device keeps one owner, who changes exactly on a wipe, everyone paired stays in flash, and an account is lost only if the line may remove it |
| `LinkDevice.Device.Reboot` | src/security/paired_list.c:185-195 | A restart reloads the list and forgets every session; the owner stays and no account is lost |
| `LinkDevice.Device.FactoryReset` | src/common/reset_handler.c:36-52 | The power-cycle reset wipes the owner and the accounts exactly when the clear was stored |
| `LinkDevice.Device.constructor` | src/security/local_session.c:37-45 | Power-on with any flash gives a device with no sessions and the reloaded list, and a well-owned one if the blob is what the device or its version 2 predecessor stores |
| `EncFrame.TakenInOrder` | src/security/enc_frame.c:106-180 | Whatever is replayed, reordered, damaged or dropped on the wire, the lines taken are lines the client sent, at strictly increasing positions |
| `EncFrame.TakesAll` | scripts/local_auth_client.py:117-128 | Over a lossless link, even with repeats, plaintext and frames that do not open mixed in, the device takes exactly the client's lines of at most 768 bytes, in order, whatever longer lines are sent between them |
| `EncFrame.NonceRepeatsExactlyWhen` | src/security/enc_frame.c:209-213 | Two sends of one key epoch share a nonce if and only if the 64-bit counter came round between them, and no nonce is ever one of the client's |
| `EncFrame.ClientReadsAll` | scripts/local_auth_client.py:130-150 | The client reads back from the socket's bytes exactly the lines the device framed, in order and without an error |
| `EncFrame.GetPutU64` | src/security/enc_frame.c:80-91 | Reading back a written counter gives it modulo 2^64 |
| `EncFrame.Channel.Unwrap` | src/security/enc_frame.c:106-180 | Takes a plain line and clears the encrypted flag; takes a frame exactly when it opens under the key with a counter above every one taken before, and then sets the flag and the counter; refuses any other frame and changes nothing |
| `EncFrame.Channel.Send` | src/security/enc_frame.c:184-233 | Passes a payload unchanged while there is no key; otherwise strips line ends, drops what is too long, and frames the rest under the next counter |
| `EncFrame.UnwrapIs` | src/security/enc_frame.c:106-180 | A line is taken as it is exactly when it is no frame, which clears the flag; a frame is taken exactly when it opens with a counter above every one taken before; a refused frame changes nothing |
| `EncFrame.FlagOverRuns` | src/security/enc_frame.c:106-180 | Over any wire, after each line the encrypted flag is set only if the last line taken was a fresh frame under the key |
| `LinkFrames.RawLineSteps` | src/tcp_server/tcp_client_recv.c:59-75 | A raw line either changes nothing, or is plain and takes the step of its text as an unencrypted line, or is a fresh frame and takes the step of its text as an encrypted one |
| `LinkFrames.RawLineCoupled` | src/tcp_server/tcp_client_recv.c:59-75 | Framing state and session agree on the flag and on whether there is a key after every raw line |
| `LinkFrames.RemovalNeedsFrame` | src/security/enc_frame.c:106-180 | An account is lost to a raw line only if the line is a fresh frame under its session's key whose text may remove the account; if frames that open are the client's, that text is one the client sent, after all those taken before |
| `ResponseFifo.Fifo.Push` | src/common/response_fifo.c:33-64 | Refines the push function for both full-buffer policies |
| `ResponseFifo.Fifo.DiscardOldest` | src/common/response_fifo.c:18-30 | Removes the computed head bytes in place and zeroes what that frees |
| `ResponseFifo.Fifo.Drain` | src/common/response_fifo.c:66-80 | Copies out as much as fits and keeps the rest, in order |
| `ResponseFifo.PushInLines` | src/common/response_fifo.c:33-64 | Drop-new takes a line exactly when it fits after what is buffered; overwrite-oldest takes every line no larger than the buffer and loses only lines from the head |
| `ResponseFifo.DiscardsWholeLines` | src/common/response_fifo.c:18-30 | Only whole lines are discarded, and none that could have stayed |
| `ResponseFifo.BytesConserved` | src/common/response_fifo.c:33-80 | Under drop-new, over any pushes and drains, bytes drained followed by bytes buffered are exactly the accepted lines in push order |
| `ResponseFifo.OldestLost` | src/common/response_fifo.c:18-80 | Under overwrite-oldest with full drains, the buffer holds the most recent accepted lines unbroken, and what was drained is accepted lines in order with some left out |
| `ResponseFifo.BatchesWhole` | src/common/response_fifo.c:33-80 | With full drains every batch is made of whole lines, under both policies |
| `Decimal.ReadsPrinted` | src/tcp_server/tcp_client_list.c:157-160 | strtol reads back any printed 32-bit target and stops at its end |
| `LineRouter.LineIs` | src/tcp_server/tcp_client_list.c:88-101 | A pushed line is its target prefix, never cut, and the payload, cut if too long but newline-terminated |
| `LineRouter.PayloadMeans` | src/tcp_server/tcp_client_list.c:88-101 | A body that fits arrives whole, with a newline added only if it had none at its end; a longer one fills the line buffer to its last byte |
| `LineRouter.RecoveredExactlyWhen` | src/tcp_server/tcp_client_list.c:152-168 | A pushed line is routed as its target and payload if and only if the payload has no newline before its end |
| `LineRouter.RecoversAll` | src/tcp_server/tcp_client_list.c:152-168 | For newline-free bodies, routing the bytes of any pushed lines gives every target with its payload in push order |
| `LineRouter.BatchesCompose` | src/tcp_server/tcp_client_list.c:145-152 | How the lines are split into batches does not matter |
| `LineRouter.EndToEnd` | src/tcp_server/tcp_client_list.c:107-198 | Through the drop-new FIFO, for any newline-free messages and full drains: routing each batch on its own, and then what is buffered, gives exactly the messages whose push was accepted, in order |
| `LineRouter.EndToEndThinned` | src/tcp_server/tcp_client_list.c:107-198 | The same with overwrite-oldest, with some of the messages left out |
| `LineRouter.EndToSocket` | src/tcp_server/tcp_client_list.c:141-198 | A socket connected throughout, whoever else comes and goes between batches, receives exactly the accepted payloads meant for it, in order, the last of them still buffered |
| `LineRouter.EndToSocketThinned` | src/tcp_server/tcp_client_list.c:141-198 | With overwrite-oldest it may miss some of them, but gets nothing twice, out of order or meant for another |
| `LineRouter.InboxIsMeant` | src/tcp_server/tcp_client_list.c:170-194 | Every connected socket receives exactly the payloads meant for it, each once and in order; a socket that is gone receives nothing |
| `LineRouter.Audience` | src/tcp_server/tcp_client_list.c:107-194 | What is sent to SEND_TO_ALL reaches exactly the connected sockets that may have it, to SEND_TO_ALL_PUBLIC every connected socket, to a socket that one, each once |
| `LineRouter.SendTask` | src/tcp_server/tcp_client_list.c:141-198 | The pointer-walking loop sends exactly what routing the batch says |
| `LineRouter.Responses.PushTcpLine` | src/tcp_server/tcp_client_list.c:88-101 | Pushes the text, cut to the line buffer with its newline |
| `LineRouter.Responses.SendData` | src/tcp_server/tcp_client_list.c:107-124 | Pushes the addressed line, with the data up to its first NUL, and for a broadcast mirrors to MQTT exactly the payload the sockets get |
| `LineRouter.Responses.SendRaw` | src/tcp_server/tcp_client_list.c:132-137 | Pushes the addressed text, up to its first NUL, with its newline |

## Left out

- Cryptography: SRP, HMAC, HKDF, AES-GCM, base64 and key erasure are parameters or outcomes of a step; that a forged frame does not open is a hypothesis of `TakenInOrder`.
- Liveness of QoS 2: a PUBREL for an id without a record gets no PUBCOMP, so only safety is proved.
- Qos2Protocol.ExactlyOnce: a failed send puts nothing on the channel, channels are emptied by a reconnect, and MQTT_CancelCallback is not one of the steps.
- PublishResend.HandlePublishResend: requires table ids to be distinct and each stored QoS to be 1 or 2, as the application keeps them.
- PacketStream.Receiver.RecvExact: says nothing about what was read when it stops short of the request; the packet being skipped is then lost with the connection. The timeout is a number of empty reads in a row.
- PacketCodec.SerializeConnect: vectors and strings are values, so aliasing of caller buffers is not modelled.
- ZeroCopy.SendSubscriptionsWithoutCopy: the two-byte length arrays that vectors point at are values, so their lifetime and reuse between batches are not modelled.
- EncFrame.Channel.Unwrap: decoding the ciphertext over the front of the frame text in the same buffer is not modelled.
- EncFrame.ClientReadsAll: holds for fewer than 2^64 sends in one key epoch.
- PairedList.List.Load: a blob is a value, so the version and size checks on its bytes are the choice between its four forms; failure to allocate the migration buffer is not modelled.
- LinkDevice.Device.constructor: promises a well-owned device only from a blob the device stores, which for version 2 means that the owner paired first and roles follow the owner.
- LineRouter.EndToSocket: the sockets allowed to receive broadcasts are the same throughout the run.
- Contexts initialised without record arrays, where only QoS 0 is possible.
- Record arrays handed over with other contents than zeroes.
- Keep-alive, CONNACK, SUBACK and PINGRESP handling, and 32-bit wrap-around of the clock.
- Replies sent by the command handlers, LIST, PWCLEAR, DISCOVERYMODE, pairing events, per-address lockout and the access policy, which only drops lines before they reach a handler.
- Handshake and management replies longer than 64 bytes, which bypass the frame sender.
- Interleavings of tasks below one command, one push or one drain.
- The list of connected sockets is a parameter of the send task; how sockets enter and leave it is not modelled.
- Provisioning, BLE, mDNS, Wi-Fi, UDP discovery and firmware update.

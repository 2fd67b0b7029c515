/** What every publish, acknowledgement and cancel call reports and does, row by row,
    on the record of its own id; the locality lemmas carry each row to any list. */
module QosTables {
  import opened MqttTypes
  import opened Qos2Protocol
  import opened QosHandlers
  import opened RecordList

  // ---- MQTT_Publish -------------------------------------------------------------------

  /** A publish without an id to track: QoS 0 goes out or fails, and leaves no record;
      QoS 1 and 2 need an id. */
  lemma {:induction false} PublishUntracked(l: seq<Record>, capacity: nat, id: PacketId, qos: QoS, m: Message,
                                            dup: bool, ok: bool)
    ensures PublishCalled(l, capacity, id, QoS0, m, dup, ok) ==
            if ok then Handled(Success, l, [PublishPacket(id, QoS0, m, dup)], []) else Handled(SendFailed, l, [], [])
    ensures qos != QoS0 ==> PublishCalled(l, capacity, 0, qos, m, dup, ok) == Handled(BadParameter, l, [], [])
  {
  }

  /** A duplicate publish, by what the sender holds for the id. Without a record it is
      a first publish that carries the flag. A duplicate of another QoS, or of a
      message already being released, goes out and is then reported. */
  lemma {:induction false} DuplicateTable(id: PacketId, room: nat, qos: QoS, m: Message, ok: bool, r: Record)
    requires id != 0 && qos != QoS0 && r.packetId == id && OutgoingState(r.qos, r.state)
    ensures PublishCalled([], room, id, qos, m, true, ok) ==
            if room == 0 then Handled(NoMemory, [], [], [])
            else if ok then Handled(Success, [Record(id, qos, Awaiting(qos))], [PublishPacket(id, qos, m, true)], [])
            else Handled(SendFailed, [Record(id, qos, PublishSend)], [], [])
    ensures var w := [PublishPacket(id, qos, m, true)];
            PublishCalled([r], room, id, qos, m, true, ok) ==
            if !ok then Handled(SendFailed, [r], [], [])
            else if qos != r.qos then Handled(BadParameter, [r], w, [])
            else if r.state in {PubRelSend, PubCompPending} then Handled(IllegalState, [r], w, [])
            else Handled(Success, [Record(id, qos, Awaiting(qos))], w, [])
  {
    OneRecord(r);
    OneRecord(Record(id, qos, PublishSend));
    assert !HasId([], id);
    assert [] + [Record(id, qos, PublishSend)] == [Record(id, qos, PublishSend)];
  }

  // ---- Incoming PUBLISH ----------------------------------------------------------------

  /** QoS 0 is passed on every time, with no record and no acknowledgement; QoS 1 and 2
      without an id are refused. */
  lemma {:induction false} ReceiveUntracked(l: seq<Record>, capacity: nat, id: PacketId, qos: QoS, m: Message, ok: bool)
    ensures PublishHandled(l, capacity, id, QoS0, m, ok) == Handled(Success, l, [], [m])
    ensures qos != QoS0 ==> PublishHandled(l, capacity, 0, qos, m, ok) == Handled(BadParameter, l, [], [])
  {
  }

  /** A publish under an id whose record has the other QoS: never passed on, and the
      acknowledgement goes out though no record takes it. */
  lemma {:induction false} ReceiveOtherQos(id: PacketId, room: nat, m: Message, ok: bool, r: Record)
    requires id != 0 && r.packetId == id && IncomingState(r.qos, r.state)
    ensures r.qos == QoS2 ==>
              PublishHandled([r], room, id, QoS1, m, ok) ==
              (if ok then Handled(IllegalState, [r], [AckPacket(Puback, id)], []) else Handled(SendFailed, [r], [], []))
    ensures r.qos == QoS1 || r.state == PubCompSend ==>
              PublishHandled([r], room, id, QoS2, m, ok) ==
              (if ok then Handled(IllegalState, [r], [AckPacket(Pubrec, id)], []) else Handled(SendFailed, [r], [], []))
  {
    OneRecord(r);
  }

  // ---- Acknowledgements -------------------------------------------------------------------

  /** Every acknowledgement a sender can be given: three are expected, each in one
      state; any other leaves the record and is reported. */
  lemma {:induction false} SenderAckTable(id: PacketId, ack: AckType, ok: bool, r: Record)
    requires id != 0 && ack != Pubrel && r.packetId == id && OutgoingState(r.qos, r.state)
    ensures AckHandled([r], id, ack, ok) ==
            match (ack, r.state)
            case (Puback, PubAckPending) => Handled(Success, [], [], [])
            case (Pubcomp, PubCompPending) => Handled(Success, [], [], [])
            case (Pubrec, PubRecPending) =>
              if ok then Handled(Success, [Record(id, QoS2, PubCompPending)], [AckPacket(Pubrel, id)], [])
              else Handled(SendFailed, [Record(id, QoS2, PubRelSend)], [], [])
            case _ => Handled(IllegalState, [r], [], [])
  {
    OneRecord(r);
    OneRecord(Record(id, QoS2, PubRelSend));
  }

  /** The same for a PUBREL at the receiver. */
  lemma {:induction false} ReceiverAckTable(id: PacketId, ok: bool, r: Record)
    requires id != 0 && r.packetId == id && IncomingState(r.qos, r.state)
    ensures AckHandled([r], id, Pubrel, ok) ==
            if r.state !in {PubRelPending, PubCompSend} then Handled(IllegalState, [r], [], [])
            else if ok then Handled(Success, [], [AckPacket(Pubcomp, id)], [])
            else Handled(SendFailed, [Record(id, QoS2, PubCompSend)], [], [])
  {
    OneRecord(r);
    OneRecord(Record(id, QoS2, PubCompSend));
  }

  /** An acknowledgement of nothing. */
  lemma {:induction false} AckOfNothing(l: seq<Record>, id: PacketId, ack: AckType, ok: bool)
    requires !HasId(l, id)
    ensures AckHandled(l, id, ack, ok) == Handled(if id == 0 then BadParameter else BadResponse, l, [], [])
  {
  }

  // ---- MQTT_CancelCallback ---------------------------------------------------------------

  /** A cancel takes the record of its id out of the list and touches no other. */
  lemma {:induction false} CancelTakesOne(l: seq<Record>, id: PacketId)
    requires ValidOutgoing(l)
    ensures var o := RecordRemoved(l, id);
            && (o.status == Success <==> HasId(l, id)) && (o.status != Success ==> o.records == l)
            && !HasId(o.records, id)
            && (o.status == Success ==>
                  exists a, r, b :: l == a + [r] + b && r.packetId == id && o.records == a + b)
  {
    hide IndexOf;
    var k := IndexOf(l, id);
    if k < |l| {
      var a, r, b := l[..k], l[k], l[k + 1..];
      assert l == a + [r] + b && HasId(l, id);
      var m := a + b;
      assert forall i :: 0 <= i < |m| ==> m[i] == l[if i < k then i else i + 1];
    }
  }
}

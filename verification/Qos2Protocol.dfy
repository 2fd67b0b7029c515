/** Two coreMQTT endpoints: a sender's outgoing engine and a receiver's incoming
    engine joined by two FIFO channels. Packets may be resent, acknowledgement
    sends may fail, and either kind of reconnect may happen at any point.
    Sections 4.3.2, 4.3.3 and 4.4 of MQTT 3.1.1. */
module Qos2Protocol {
  import opened MqttTypes
  import opened Options
  import opened RecordList
  import opened StateEngine
  import opened QosHandlers

  /** `published[m]` is the QoS of message m; `table` is the sender
      application's copy of each message in flight; `sent` the ids PUBLISHed on
      this connection; `completed` the messages whose final ack arrived. */
  datatype Net = Net(
    out: seq<Record>, outCapacity: nat,
    inc: seq<Record>, incCapacity: nat,
    toReceiver: seq<Packet>, toSender: seq<Packet>,
    published: seq<QoS>, table: map<PacketId, Message>, sent: set<PacketId>,
    delivered: seq<Message>, completed: set<Message>)

  /** Two idle endpoints with so many slots. */
  function Start(outCapacity: nat, incCapacity: nat): Net
  {
    Net([], outCapacity, [], incCapacity, [], [], [], map[], {}, [], {})
  }

  /** `ok` is whether the send this step makes goes through. */
  datatype Step =
    | PublishNew(id: PacketId, qos: QoS, ok: bool)
    | Resend(id: PacketId, ok: bool)
    | ReceiverTakes(ok: bool)
    | SenderTakes(ok: bool)
    | Reconnect(walked: nat)
    | CleanReconnect

  predicate Possible(s: Net, step: Step)
  {
    match step
    case PublishNew(id, qos, _) => id != 0 && qos != QoS0
    case Resend(id, _) =>
      var k := IndexOf(s.out, id);
      k < |s.out| && s.out[k].state in PUBLISH_STATES && id in s.table
    case ReceiverTakes(_) => s.toReceiver != []
    case SenderTakes(_) => s.toSender != []
    case Reconnect(walked) => walked <= |s.out|
    case CleanReconnect => true
  }

  /** A QoS 1 PUBLISH is resent at most once per connection, as the resend loop
      after a reconnect does; a QoS 2 PUBLISH may be resent at any time. */
  predicate Enabled(s: Net, step: Step)
  {
    && Possible(s, step)
    && (step.Resend? ==> s.out[IndexOf(s.out, step.id)].qos == QoS2 || step.id !in s.sent)
  }

  function Next(s: Net, step: Step): Net
    requires Possible(s, step)
  {
    match step
    case PublishNew(id, qos, ok) =>
      var m := |s.published|;
      var h := PublishCalled(s.out, s.outCapacity, id, qos, m, false, ok);
      if Reserved(s.out, s.outCapacity, id, qos).status != Success then s
      else s.(out := h.records, toReceiver := s.toReceiver + h.wire,
              published := s.published + [qos], table := s.table[id := m],
              sent := if ok then s.sent + {id} else s.sent)
    case Resend(id, ok) =>
      var qos := s.out[IndexOf(s.out, id)].qos;
      var h := PublishCalled(s.out, s.outCapacity, id, qos, s.table[id], true, ok);
      s.(out := h.records, toReceiver := s.toReceiver + h.wire, sent := if ok then s.sent + {id} else s.sent)
    case ReceiverTakes(ok) =>
      var p := s.toReceiver[0];
      var h := match p
        case PublishPacket(id, qos, m, _) => PublishHandled(s.inc, s.incCapacity, id, qos, m, ok)
        case AckPacket(ack, id) => AckHandled(s.inc, id, ack, ok);
      s.(inc := h.records, toReceiver := s.toReceiver[1..], toSender := s.toSender + h.wire,
         delivered := s.delivered + h.delivered)
    case SenderTakes(ok) =>
      (match s.toSender[0]
       case PublishPacket(_, _, _, _) => s.(toSender := s.toSender[1..])
       case AckPacket(ack, id) =>
         var h := AckHandled(s.out, id, ack, ok);
         s.(out := h.records, toSender := s.toSender[1..], toReceiver := s.toReceiver + h.wire,
            completed := if HasId(s.out, id) && !HasId(h.records, id) && id in s.table
                         then s.completed + {s.table[id]} else s.completed))
    case Reconnect(walked) =>
      s.(out := Released(s.out, walked), toReceiver := Pubrels(s.out[..walked]), toSender := [], sent := {})
    case CleanReconnect =>
      s.(out := [], inc := [], toReceiver := [], toSender := [], table := map[], sent := {})
  }

  /** Every state a run of `steps` from an initial state goes through. */
  ghost predicate Reaches(s: Net, steps: seq<Step>, t: Net)
    decreases |steps|
  {
    if steps == [] then s == t
    else Enabled(s, steps[0]) && Reaches(Next(s, steps[0]), steps[1..], t)
  }

  // ---- The view one packet id has of the network -----------------------------

  /** The record of `id`, as a list of at most one. */
  function Own(l: seq<Record>, id: PacketId): seq<Record>
  {
    var k := IndexOf(l, id);
    if k < |l| then [l[k]] else []
  }

  /** The packets of `id` in a channel. */
  function Of(ch: seq<Packet>, id: PacketId): seq<Packet>
  {
    if ch == [] then []
    else (if ch[0].id == id then [ch[0]] else []) + Of(ch[1..], id)
  }

  lemma {:induction false} OfAppend(a: seq<Packet>, b: seq<Packet>, id: PacketId)
    ensures Of(a + b, id) == Of(a, id) + Of(b, id)
  {
    if a == [] {
      assert a + b == b;
    } else {
      assert (a + b)[1..] == a[1..] + b;
      OfAppend(a[1..], b, id);
      var first := if a[0].id == id then [a[0]] else [];
      assert first + (Of(a[1..], id) + Of(b, id)) == first + Of(a[1..], id) + Of(b, id);
    }
  }

  /** With distinct ids, the record of an id is the member with that id. */
  lemma {:induction false} OwnIsMember(l: seq<Record>, r: Record)
    requires Distinct(l)
    ensures Own(l, r.packetId) == [r] <==> r in l
  {
    var k := IndexOf(l, r.packetId);
    if r in l {
      var i :| 0 <= i < |l| && l[i] == r;
      assert i == k;
    }
  }

  /** Lists that agree on the members with `id` agree on its record. */
  lemma {:induction false} OwnSame(l: seq<Record>, m: seq<Record>, id: PacketId)
    requires Distinct(l) && Distinct(m)
    requires forall r: Record :: r.packetId == id ==> (r in l <==> r in m)
    ensures Own(l, id) == Own(m, id)
  {
    if Own(l, id) != [] {
      OwnIsMember(l, Own(l, id)[0]);
      OwnIsMember(m, Own(l, id)[0]);
    } else if Own(m, id) != [] {
      OwnIsMember(m, Own(m, id)[0]);
      OwnIsMember(l, Own(m, id)[0]);
    }
  }

  lemma {:induction false} OwnRemoved(l: seq<Record>, k: nat)
    requires k < |l| && Distinct(l)
    ensures Distinct(Removed(l, k)) && Own(Removed(l, k), l[k].packetId) == []
    ensures forall id :: id != l[k].packetId ==> Own(Removed(l, k), id) == Own(l, id)
  {
    RemovedIsDistinct(l, k);
    var m := Removed(l, k);
    forall id | id != l[k].packetId
      ensures Own(m, id) == Own(l, id)
    {
      forall r: Record | r.packetId == id
        ensures r in l <==> r in m
      {
        if r in l {
          var i :| 0 <= i < |l| && l[i] == r;
          assert m[if i < k then i else i - 1] == r;
        }
      }
      OwnSame(m, l, id);
    }
  }

  lemma {:induction false} OwnRestated(l: seq<Record>, k: nat, state: PublishState)
    requires k < |l| && Distinct(l)
    ensures Distinct(Restated(l, k, state))
    ensures Own(Restated(l, k, state), l[k].packetId) == [l[k].(state := state)]
    ensures forall id :: id != l[k].packetId ==> Own(Restated(l, k, state), id) == Own(l, id)
  {
    var m := Restated(l, k, state);
    assert forall i :: 0 <= i < |l| ==> m[i].packetId == l[i].packetId;
    var j := IndexOf(m, l[k].packetId);
    assert m[k].packetId == l[k].packetId && j <= k && l[j].packetId == l[k].packetId;
    forall id | id != l[k].packetId
      ensures Own(m, id) == Own(l, id)
    {
      var a, b := IndexOf(m, id), IndexOf(l, id);
      assert a < |l| ==> l[a].packetId == id;
      assert b < |l| ==> m[b].packetId == id;
    }
  }

  lemma {:induction false} OwnAppended(l: seq<Record>, r: Record)
    requires Distinct(l) && !HasId(l, r.packetId)
    ensures Distinct(l + [r]) && Own(l + [r], r.packetId) == [r]
    ensures forall id :: id != r.packetId ==> Own(l + [r], id) == Own(l, id)
  {
    OwnIsMember(l + [r], r);
    forall id | id != r.packetId
      ensures Own(l + [r], id) == Own(l, id)
    {
      OwnSame(l + [r], l, id);
    }
  }

  /** `l` becomes `m` touching no record but that of `id`. */
  ghost predicate OnlyChanges(l: seq<Record>, m: seq<Record>, id: PacketId)
  {
    Distinct(m) && forall j :: j != id ==> Own(m, j) == Own(l, j)
  }

  /** At most one packet, of `id`. */
  ghost predicate Single(w: seq<Packet>, id: PacketId)
  {
    |w| <= 1 && forall p :: p in w ==> p.id == id
  }

  // ---- Each list operation is local to its id --------------------------------

  lemma {:induction false} AckIsLocal(l: seq<Record>, id: PacketId, ack: AckType, op: Operation)
    requires Distinct(l) && id != 0
    ensures var o, p := AckUpdated(l, id, ack, op), AckUpdated(Own(l, id), id, ack, op);
            && o.status == p.status && o.state == p.state && Own(o.records, id) == p.records
            && OnlyChanges(l, o.records, id)
  {
    var k := IndexOf(l, id);
    if k < |l| {
      var next := CalculateStateAck(ack, op, l[k].qos);
      OwnRemoved(l, k);
      OwnRestated(l, k, next);
      RemovedIsDistinct(l, k);
      OwnAppended(Removed(l, k), Record(id, QoS2, PubRelSend));
      assert IndexOf([l[k]], id) == 0;
    }
  }

  /** Room for one more record, as seen by an id that owns none. */
  function Room(l: seq<Record>, capacity: nat): nat { if |l| < capacity then 1 else 0 }

  lemma {:induction false} AddedIsLocal(l: seq<Record>, capacity: nat, r: Record)
    requires Distinct(l)
    ensures var id := r.packetId;
            var o, p := Added(l, capacity, r), Added(Own(l, id), Room(l, capacity), r);
            && o.status == p.status && o.state == p.state && Own(o.records, id) == p.records
            && OnlyChanges(l, o.records, id)
  {
    var id := r.packetId;
    assert HasId(l, id) <==> IndexOf(l, id) < |l|;
    if HasId(l, id) {
      assert Own(l, id)[0].packetId == id;
    } else {
      OwnAppended(l, r);
    }
  }

  lemma {:induction false} SentIsLocal(l: seq<Record>, id: PacketId, qos: QoS)
    requires Distinct(l)
    ensures var o, p := PublishSent(l, id, qos), PublishSent(Own(l, id), id, qos);
            && o.status == p.status && o.state == p.state && Own(o.records, id) == p.records
            && OnlyChanges(l, o.records, id)
  {
    var k := IndexOf(l, id);
    if k < |l| {
      OwnRestated(l, k, CalculateStatePublish(Send, qos));
      assert IndexOf([l[k]], id) == 0;
    }
  }

  lemma {:induction false} AckSentIsLocal(l: seq<Record>, id: PacketId, state: PublishState, ok: bool)
    requires Distinct(l) && id != 0
    ensures var h, g := AckSent(l, id, state, ok), AckSent(Own(l, id), id, state, ok);
            && h.status == g.status && h.wire == g.wire && h.delivered == g.delivered
            && Own(h.records, id) == g.records
            && Single(h.wire, id) && OnlyChanges(l, h.records, id)
  {
    if AckToSend(state) != None {
      AckIsLocal(l, id, AckToSend(state).value, Send);
    }
  }

  lemma {:induction false} AckHandledIsLocal(l: seq<Record>, id: PacketId, ack: AckType, ok: bool)
    requires Distinct(l) && id != 0
    ensures var h, g := AckHandled(l, id, ack, ok), AckHandled(Own(l, id), id, ack, ok);
            && h.status == g.status && h.wire == g.wire && h.delivered == g.delivered
            && Own(h.records, id) == g.records
            && Single(h.wire, id) && OnlyChanges(l, h.records, id)
  {
    AckIsLocal(l, id, ack, Receive);
    var o := AckUpdated(l, id, ack, Receive);
    AckSentIsLocal(o.records, id, o.state, ok);
  }

  lemma {:induction false} PublishHandledIsLocal(l: seq<Record>, capacity: nat, id: PacketId, qos: QoS, m: Message,
                                                 ok: bool)
    requires Distinct(l) && id != 0 && qos != QoS0
    ensures var h := PublishHandled(l, capacity, id, qos, m, ok);
            var g := PublishHandled(Own(l, id), Room(l, capacity), id, qos, m, ok);
            && h.status == g.status && h.wire == g.wire && h.delivered == g.delivered
            && Own(h.records, id) == g.records
            && Single(h.wire, id) && OnlyChanges(l, h.records, id)
  {
    AddedIsLocal(l, capacity, Record(id, qos, CalculateStatePublish(Receive, qos)));
    var o := PublishReceived(l, capacity, id, qos);
    AckSentIsLocal(o.records, id, CalculateStatePublish(Receive, qos), ok);
  }

  lemma {:induction false} PublishCalledIsLocal(l: seq<Record>, capacity: nat, id: PacketId, qos: QoS, m: Message,
                                                dup: bool, ok: bool)
    requires Distinct(l) && id != 0 && qos != QoS0
    ensures var h := PublishCalled(l, capacity, id, qos, m, dup, ok);
            var g := PublishCalled(Own(l, id), Room(l, capacity), id, qos, m, dup, ok);
            && h.status == g.status && h.wire == g.wire && Own(h.records, id) == g.records
            && Single(h.wire, id) && OnlyChanges(l, h.records, id)
    ensures Reserved(l, capacity, id, qos).status == Reserved(Own(l, id), Room(l, capacity), id, qos).status
  {
    AddedIsLocal(l, capacity, Record(id, qos, PublishSend));
    SentIsLocal(Reserved(l, capacity, id, qos).records, id, qos);
  }

  // ---- The invariant of one packet id -----------------------------------------

  /** What one id sees: its sender and receiver records, its packets each way,
      its message, how often that was delivered, and whether it was PUBLISHed
      on this connection. */
  datatype View = View(id: PacketId, out: seq<Record>, inc: seq<Record>, a: seq<Packet>, b: seq<Packet>,
                       m: Message, n: nat, sent: bool)

  function MessageOf(s: Net, id: PacketId): Message { if id in s.table then s.table[id] else 0 }

  function Times(s: Net, m: Message): nat { multiset(s.delivered)[m] }

  function ViewOf(s: Net, id: PacketId): View
  {
    var out := Own(s.out, id);
    View(id, out, Own(s.inc, id), Of(s.toReceiver, id), Of(s.toSender, id),
         if out == [] then 0 else MessageOf(s, id),
         if out == [] then 0 else Times(s, MessageOf(s, id)),
         out != [] && id in s.sent)
  }

  ghost predicate AllPublish(a: seq<Packet>, id: PacketId, qos: QoS, m: Message)
  {
    forall i :: 0 <= i < |a| ==> a[i].PublishPacket? && a[i].id == id && a[i].qos == qos && a[i].message == m
  }

  ghost predicate AllAck(b: seq<Packet>, ack: AckType, id: PacketId)
  {
    forall i :: 0 <= i < |b| ==> b[i] == AckPacket(ack, id)
  }

  /** PUBLISHes, possibly followed by one PUBREL. */
  ghost predicate PublishesThenPubrel(v: View)
  {
    || AllPublish(v.a, v.id, QoS2, v.m)
    || (v.a != [] && v.a[|v.a| - 1] == AckPacket(Pubrel, v.id) && AllPublish(v.a[..|v.a| - 1], v.id, QoS2, v.m))
  }

  /** PUBRECs followed by one PUBCOMP. */
  ghost predicate PubrecsThenPubcomp(v: View)
  {
    v.b != [] && v.b[|v.b| - 1] == AckPacket(Pubcomp, v.id) && AllAck(v.b[..|v.b| - 1], Pubrec, v.id)
  }

  /** The sender waits for PUBCOMP. */
  ghost predicate Releasing(v: View)
  {
    if v.inc == [Record(v.id, QoS2, PubRelPending)] then PublishesThenPubrel(v) && AllAck(v.b, Pubrec, v.id)
    else if v.inc == [Record(v.id, QoS2, PubCompSend)] then
      (v.a == [] || v.a == [AckPacket(Pubrel, v.id)]) && AllAck(v.b, Pubrec, v.id)
    else
      && v.inc == []
      && (|| (v.a == [] && PubrecsThenPubcomp(v))
          || ((v.a == [] || v.a == [AckPacket(Pubrel, v.id)]) && AllAck(v.b, Pubrec, v.id)))
  }

  ghost predicate Fine(v: View)
  {
    if v.out == [] then v.inc == [] && v.a == [] && v.b == []
    else
      && |v.out| == 1 && v.out[0].packetId == v.id && v.id != 0
      && match (v.out[0].qos, v.out[0].state)
         case (QoS1, PublishSend) => v.inc == [] && v.a == [] && v.b == []
         case (QoS1, PubAckPending) =>
           && (v.inc == [] || (v.inc == [Record(v.id, QoS1, PubAckSend)] && v.n >= 1))
           && (|v.a| <= 1 && AllPublish(v.a, v.id, QoS1, v.m))
           && (v.b == [] || (v.b == [AckPacket(Puback, v.id)] && v.a == [] && v.inc == [] && v.n >= 1))
           && (v.a != [] || v.b != [] ==> v.sent)
         case (QoS2, PublishSend) => v.inc == [] && v.a == [] && v.b == [] && v.n == 0
         case (QoS2, PubRecPending) =>
           && AllPublish(v.a, v.id, QoS2, v.m) && AllAck(v.b, Pubrec, v.id)
           && (|| (v.inc == [] && v.b == [] && v.n == 0)
               || (v.inc == [Record(v.id, QoS2, PubRecSend)] && v.b == [] && v.n == 1)
               || (v.inc == [Record(v.id, QoS2, PubRelPending)] && v.n == 1))
         case (QoS2, PubRelSend) =>
           && v.n == 1 && v.inc == [Record(v.id, QoS2, PubRelPending)]
           && AllPublish(v.a, v.id, QoS2, v.m) && AllAck(v.b, Pubrec, v.id)
         case (QoS2, PubCompPending) => v.n == 1 && Releasing(v)
         case _ => false
  }

  /** A list of one record, updated. */
  lemma {:induction false} OneRecord(r: Record)
    ensures HasId([r], r.packetId) && IndexOf([r], r.packetId) == 0
    ensures Removed([r], 0) == [] && forall state :: Restated([r], 0, state) == [r.(state := state)]
  {
    assert [r][0].packetId == r.packetId;
  }

  /** What the sender of a message does with each acknowledgement. */
  lemma {:induction false} SenderTable(id: PacketId, ok: bool)
    requires id != 0
    ensures AckHandled([Record(id, QoS1, PubAckPending)], id, Puback, ok) == Handled(Success, [], [], [])
    ensures AckHandled([Record(id, QoS2, PubRecPending)], id, Pubrec, ok) ==
            if ok then Handled(Success, [Record(id, QoS2, PubCompPending)], [AckPacket(Pubrel, id)], [])
            else Handled(SendFailed, [Record(id, QoS2, PubRelSend)], [], [])
    ensures AckHandled([Record(id, QoS2, PubRelSend)], id, Pubrec, ok) ==
            Handled(IllegalState, [Record(id, QoS2, PubRelSend)], [], [])
    ensures AckHandled([Record(id, QoS2, PubCompPending)], id, Pubrec, ok) ==
            Handled(IllegalState, [Record(id, QoS2, PubCompPending)], [], [])
    ensures AckHandled([Record(id, QoS2, PubCompPending)], id, Pubcomp, ok) == Handled(Success, [], [], [])
  {
    OneRecord(Record(id, QoS1, PubAckPending));
    OneRecord(Record(id, QoS2, PubRecPending));
    OneRecord(Record(id, QoS2, PubRelSend));
    OneRecord(Record(id, QoS2, PubCompPending));
  }

  /** What the receiver does with a PUBLISH, by what it holds for the id. */
  lemma {:induction false} ReceiverTable(id: PacketId, room: nat, m: Message, ok: bool)
    requires id != 0
    ensures room == 0 ==> forall qos :: qos != QoS0 ==>
              PublishHandled([], room, id, qos, m, ok) == Handled(NoMemory, [], [], [])
    ensures room > 0 ==>
              PublishHandled([], room, id, QoS1, m, ok) ==
              (if ok then Handled(Success, [], [AckPacket(Puback, id)], [m])
               else Handled(SendFailed, [Record(id, QoS1, PubAckSend)], [], [m]))
    ensures PublishHandled([Record(id, QoS1, PubAckSend)], room, id, QoS1, m, ok) ==
            if ok then Handled(Success, [], [AckPacket(Puback, id)], [])
            else Handled(SendFailed, [Record(id, QoS1, PubAckSend)], [], [])
    ensures room > 0 ==>
              PublishHandled([], room, id, QoS2, m, ok) ==
              (if ok then Handled(Success, [Record(id, QoS2, PubRelPending)], [AckPacket(Pubrec, id)], [m])
               else Handled(SendFailed, [Record(id, QoS2, PubRecSend)], [], [m]))
    ensures PublishHandled([Record(id, QoS2, PubRecSend)], room, id, QoS2, m, ok) ==
            if ok then Handled(Success, [Record(id, QoS2, PubRelPending)], [AckPacket(Pubrec, id)], [])
            else Handled(SendFailed, [Record(id, QoS2, PubRecSend)], [], [])
    ensures PublishHandled([Record(id, QoS2, PubRelPending)], room, id, QoS2, m, ok) ==
            if ok then Handled(Success, [Record(id, QoS2, PubRelPending)], [AckPacket(Pubrec, id)], [])
            else Handled(SendFailed, [Record(id, QoS2, PubRelPending)], [], [])
  {
    OneRecord(Record(id, QoS1, PubAckSend));
    OneRecord(Record(id, QoS2, PubRecSend));
    OneRecord(Record(id, QoS2, PubRelPending));
    assert !HasId([], id);
  }

  /** What the receiver does with a PUBREL. */
  lemma {:induction false} PubrelTable(id: PacketId, ok: bool)
    requires id != 0
    ensures AckHandled([], id, Pubrel, ok) == Handled(BadResponse, [], [], [])
    ensures forall state :: state in {PubRelPending, PubCompSend} ==>
              AckHandled([Record(id, QoS2, state)], id, Pubrel, ok) ==
              if ok then Handled(Success, [], [AckPacket(Pubcomp, id)], [])
              else Handled(SendFailed, [Record(id, QoS2, PubCompSend)], [], [])
  {
    OneRecord(Record(id, QoS2, PubRelPending));
    OneRecord(Record(id, QoS2, PubCompSend));
  }

  /** What handling the PUBLISH at the head does to one id. */
  ghost predicate PublishTaken(v: View, room: nat, ok: bool)
    requires v.a != [] && v.a[0].PublishPacket?
  {
    var h := PublishHandled(v.inc, room, v.id, v.a[0].qos, v.m, ok);
    && Fine(v.(inc := h.records, a := v.a[1..], b := v.b + h.wire, n := v.n + |h.delivered|))
    && (h.delivered == [] || h.delivered == [v.m])
    && (v.a[0].qos == QoS2 && h.delivered == [v.m] ==> v.n == 0)
  }

  lemma {:induction false} TakePublishOnce(v: View, room: nat, ok: bool)
    requires Fine(v) && v.a != [] && v.a[0].PublishPacket? && v.out != [] && v.out[0].qos == QoS1
    ensures v.a[0].message == v.m && v.a[0].qos == QoS1 && PublishTaken(v, room, ok)
  {
    hide PublishHandled, Releasing;
    ReceiverTable(v.id, room, v.m, ok);
    assert v.out == [Record(v.id, QoS1, v.out[0].state)];
    assert v.a[1..] == [] && v.b == [] && v.b + [] == [];
  }

  /** The receiver still waits for the release: a repeat, answered or not. */
  lemma {:induction false} TakeRepeat(v: View)
    requires Fine(v) && v.a != [] && v.a[0].PublishPacket? && v.inc == [Record(v.id, QoS2, PubRelPending)]
    requires v.out != [] && v.out[0].qos == QoS2
    ensures v.n == 1 && Fine(v.(a := v.a[1..])) && Fine(v.(a := v.a[1..], b := v.b + [AckPacket(Pubrec, v.id)]))
  {
    var out, b := v.out, v.b + [AckPacket(Pubrec, v.id)];
    assert out == [Record(v.id, QoS2, out[0].state)];
    assert AllAck(v.b, Pubrec, v.id);
    assert AllAck(b, Pubrec, v.id);
    assert |v.a| > 1 ==> v.a[1..][..|v.a| - 2] == v.a[..|v.a| - 1][1..];
  }

  /** The first PUBLISH, or a repeat before any PUBREC got away. */
  lemma {:induction false} TakeEarly(v: View)
    requires Fine(v) && v.a != [] && v.a[0].PublishPacket? && v.inc != [Record(v.id, QoS2, PubRelPending)]
    requires v.out != [] && v.out[0].qos == QoS2
    ensures v.b == [] && (if v.inc == [] then v.n == 0 else v.inc == [Record(v.id, QoS2, PubRecSend)] && v.n == 1)
    ensures Fine(v.(a := v.a[1..])) && Fine(v.(inc := [Record(v.id, QoS2, PubRecSend)], a := v.a[1..], n := 1))
    ensures Fine(v.(inc := [Record(v.id, QoS2, PubRelPending)], a := v.a[1..], b := [AckPacket(Pubrec, v.id)], n := 1))
  {
    assert v.out == [Record(v.id, QoS2, PubRecPending)];
  }

  lemma {:induction false} HeadIsOurs(v: View)
    requires Fine(v) && v.a != [] && v.a[0].PublishPacket? && v.out != [] && v.out[0].qos != QoS1
    ensures v.id != 0 && v.out[0].qos == QoS2 && v.a[0].message == v.m && v.a[0].qos == QoS2
  {
  }

  lemma {:induction false} TakePublishTwice(v: View, room: nat, ok: bool)
    requires Fine(v) && v.a != [] && v.a[0].PublishPacket? && v.out != [] && v.out[0].qos != QoS1
    ensures v.a[0].message == v.m && v.out[0].qos == QoS2 && v.a[0].qos == QoS2 && PublishTaken(v, room, ok)
  {
    hide PublishHandled, Fine;
    HeadIsOurs(v);
    ReceiverTable(v.id, room, v.m, ok);
    assert v.b + [] == v.b && [] + [AckPacket(Pubrec, v.id)] == [AckPacket(Pubrec, v.id)];
    if v.inc == [Record(v.id, QoS2, PubRelPending)] {
      TakeRepeat(v);
    } else {
      TakeEarly(v);
    }
  }

  /** The receiver handles a PUBLISH: a QoS 2 message is passed on only if it never was. */
  lemma {:induction false} TakePublish(v: View, room: nat, ok: bool)
    requires Fine(v) && v.a != [] && v.a[0].PublishPacket?
    ensures v.out != [] && v.id != 0
    ensures v.a[0].message == v.m && v.a[0].qos == v.out[0].qos && v.a[0].qos != QoS0
    ensures PublishTaken(v, room, ok)
  {
    hide PublishTaken, Releasing;
    assert v.out != [] && v.id != 0;
    if v.out[0].qos == QoS1 {
      TakePublishOnce(v, room, ok);
    } else {
      TakePublishTwice(v, room, ok);
    }
  }

  /** The receiver handles a PUBREL. */
  lemma {:induction false} TakePubrel(v: View, ok: bool)
    requires Fine(v) && v.a != [] && v.a[0].AckPacket?
    ensures v.out != [] && v.id != 0 && v.a[0] == AckPacket(Pubrel, v.id)
    ensures var h := AckHandled(v.inc, v.id, Pubrel, ok);
            Fine(v.(inc := h.records, a := v.a[1..], b := v.b + h.wire)) && h.delivered == []
  {
    hide AckHandled;
    PubrelTable(v.id, ok);
  }

  /** The first PUBREC: the PUBREL goes out, or is left to be resent. */
  lemma {:induction false} TakeFirstPubrec(v: View)
    requires Fine(v) && v.b != [] && v.out == [Record(v.id, QoS2, PubRecPending)]
    ensures v.b[0] == AckPacket(Pubrec, v.id)
    ensures Fine(v.(out := [Record(v.id, QoS2, PubCompPending)], a := v.a + [AckPacket(Pubrel, v.id)], b := v.b[1..]))
    ensures Fine(v.(out := [Record(v.id, QoS2, PubRelSend)], b := v.b[1..]))
  {
    assert (v.a + [AckPacket(Pubrel, v.id)])[..|v.a|] == v.a;
  }

  /** A repeated PUBREC changes nothing at the sender. */
  lemma {:induction false} TakeStalePubrec(v: View)
    requires Fine(v) && v.b != [] && v.b[0] == AckPacket(Pubrec, v.id)
    requires v.out == [Record(v.id, QoS2, PubRelSend)] || v.out == [Record(v.id, QoS2, PubCompPending)]
    ensures Fine(v.(b := v.b[1..]))
  {
    assert |v.b| > 1 ==> v.b[1..][..|v.b| - 2] == v.b[..|v.b| - 1][1..];
  }

  /** PUBACK and PUBCOMP come last, after a delivery. */
  lemma {:induction false} TakeLastAck(v: View)
    requires Fine(v) && v.b != [] && v.b[0] != AckPacket(Pubrec, v.id)
    ensures v.out != [] && v.n >= 1 && v.inc == [] && v.a == [] && v.b[1..] == [] && v.id != 0
    ensures || (v.out == [Record(v.id, QoS1, PubAckPending)] && v.b[0] == AckPacket(Puback, v.id))
            || (v.out == [Record(v.id, QoS2, PubCompPending)] && v.b[0] == AckPacket(Pubcomp, v.id))
  {
    assert forall i :: 0 <= i < |v.b| - 1 ==> v.b[..|v.b| - 1][i] == v.b[i];
    assert v.out != [] ==> v.out == [Record(v.id, v.out[0].qos, v.out[0].state)];
  }

  lemma {:induction false} PubrecAwaited(v: View)
    requires Fine(v) && v.b != [] && v.b[0] == AckPacket(Pubrec, v.id)
    ensures v.id != 0 && |v.out| == 1
    ensures exists state :: state in {PubRecPending, PubRelSend, PubCompPending} && v.out == [Record(v.id, QoS2, state)]
  {
    assert v.out == [Record(v.id, v.out[0].qos, v.out[0].state)];
  }

  /** The sender handles an acknowledgement; a record that goes has been delivered. */
  lemma {:induction false} TakeAck(v: View, ok: bool)
    requires Fine(v) && v.b != []
    ensures v.out != [] && v.id != 0 && v.b[0].AckPacket?
    ensures var h := AckHandled(v.out, v.id, v.b[0].ack, ok);
            && (h.records != [] ==> Fine(v.(out := h.records, a := v.a + h.wire, b := v.b[1..])))
            && (h.records != [] ==> h.records[0].qos == v.out[0].qos)
            && (h.records == [] ==> Fine(View(v.id, [], v.inc, v.a + h.wire, v.b[1..], 0, 0, false)) && v.n >= 1)
  {
    hide AckHandled, Fine;
    assert v.a + [] == v.a;
    if v.b[0] == AckPacket(Pubrec, v.id) {
      PubrecAwaited(v);
      SenderTable(v.id, ok);
      if v.out[0].state == PubRecPending {
        TakeFirstPubrec(v);
      } else {
        TakeStalePubrec(v);
      }
    } else {
      TakeLastAck(v);
      SenderTable(v.id, ok);
      NothingIsFine(v.id);
    }
  }

  lemma {:induction false} NothingIsFine(id: PacketId)
    ensures Fine(View(id, [], [], [], [], 0, 0, false))
  {
  }

  /** A reconnect empties both channels and may resend the PUBREL owed. */
  lemma {:induction false} Cut(v: View)
    requires Fine(v)
    ensures Fine(v.(a := [], b := [], sent := false))
    ensures v.out != [] && v.out[0].state in PUBREL_STATES ==>
              Fine(v.(out := [v.out[0].(state := PubCompPending)],
                      a := [AckPacket(Pubrel, v.id)], b := [], sent := false))
  {
  }

  /** A PUBLISH is sent for the first time. */
  lemma {:induction false} SendFirst(v: View, m: Message, qos: QoS, ok: bool)
    requires Fine(v) && v.id != 0 && v.out == [] && qos != QoS0
    ensures var h := PublishCalled([], 1, v.id, qos, m, false, ok);
            && Fine(View(v.id, h.records, v.inc, v.a + h.wire, v.b, m, 0, ok))
            && Fine(View(v.id, h.records, v.inc, v.a + h.wire, v.b, m, 0, true))
            && h.records != [] && h.records[0].qos == qos
  {
    assert !HasId([], v.id);
  }

  /** A PUBLISH is sent again: QoS 2 at any time, QoS 1 once per connection. */
  lemma {:induction false} SendAgain(v: View, room: nat, ok: bool)
    requires Fine(v) && v.out != [] && v.out[0].state in PUBLISH_STATES && (v.out[0].qos == QoS2 || !v.sent)
    ensures v.id != 0 && v.out[0].qos != QoS0
    ensures var h := PublishCalled(v.out, room, v.id, v.out[0].qos, v.m, true, ok);
            && Fine(v.(out := h.records, a := v.a + h.wire, sent := v.sent || ok))
            && h.records != [] && h.records[0].qos == v.out[0].qos
  {
    assert HasId(v.out, v.id) by { assert v.out[0].packetId == v.id; }
    assert IndexOf(v.out, v.id) == 0;
  }

  // ---- The invariant of the whole network ---------------------------------------

  ghost predicate AllFine(s: Net) { forall id :: Fine(ViewOf(s, id)) }

  /** The message of a live record is known, of the record's QoS, and not completed. */
  ghost predicate Current(s: Net, id: PacketId)
  {
    Own(s.out, id) != [] ==>
      && id in s.table && s.table[id] < |s.published| && s.table[id] !in s.completed
      && s.published[s.table[id]] == Own(s.out, id)[0].qos
  }

  /** Records and messages in flight correspond one to one. */
  ghost predicate Tables(s: Net)
  {
    && Distinct(s.out) && Distinct(s.inc)
    && (forall id :: Current(s, id))
    && (forall i, j :: i != j && Own(s.out, i) != [] && Own(s.out, j) != [] ==> MessageOf(s, i) != MessageOf(s, j))
  }

  ghost predicate Counts(s: Net)
  {
    && (forall m :: m in s.delivered ==> m < |s.published|)
    && (forall m :: 0 <= m < |s.published| && s.published[m] == QoS2 ==> Times(s, m) <= 1)
    && (forall m :: m in s.completed ==> m < |s.published| && Times(s, m) >= 1)
  }

  ghost predicate Inv(s: Net) { AllFine(s) && Tables(s) && Counts(s) }

  /** All but one id see no change. */
  ghost predicate OthersSame(s: Net, t: Net, id: PacketId)
  {
    forall j :: j != id ==> ViewOf(t, j) == ViewOf(s, j)
  }

  lemma {:induction false} FineByView(s: Net, t: Net, id: PacketId)
    requires AllFine(s) && OthersSame(s, t, id) && Fine(ViewOf(t, id))
    ensures AllFine(t)
  {
    hide Fine, Own, Of, IndexOf, HasId, PublishCalled, PublishHandled, AckHandled, Released, Pubrels;
    forall j ensures Fine(ViewOf(t, j)) {
      if j != id {
        assert ViewOf(t, j) == ViewOf(s, j);
      }
    }
  }

  /** Packets of one id, seen from that id and from the others. */
  lemma {:induction false} OfWire(w: seq<Packet>, id: PacketId)
    requires Single(w, id)
    ensures Of(w, id) == w
    ensures forall j :: j != id ==> Of(w, j) == []
  {
    if w != [] {
      assert w[0] in w;
      assert w == [w[0]];
    }
  }

  /** Appending `w`, a packet of `id` at most, to a channel. */
  lemma {:induction false} Posted(ch: seq<Packet>, w: seq<Packet>, id: PacketId)
    requires Single(w, id)
    ensures Of(ch + w, id) == Of(ch, id) + w
    ensures forall j :: j != id ==> Of(ch + w, j) == Of(ch, j)
  {
    OfWire(w, id);
    forall j ensures Of(ch + w, j) == Of(ch, j) + Of(w, j) {
      OfAppend(ch, w, j);
    }
  }

  /** Taking the head of a channel. */
  lemma {:induction false} HeadOf(ch: seq<Packet>)
    requires ch != []
    ensures var id := ch[0].id; Of(ch, id) != [] && Of(ch, id)[0] == ch[0] && Of(ch, id)[1..] == Of(ch[1..], id)
    ensures forall j :: j != ch[0].id ==> Of(ch[1..], j) == Of(ch, j)
  {
  }

  lemma {:induction false} NoneOf(id: PacketId)
    ensures Of([], id) == []
  {
  }

  lemma {:induction false} OwnHas(l: seq<Record>, id: PacketId)
    ensures HasId(l, id) <==> Own(l, id) != []
    ensures Own(l, id) != [] ==> Own(l, id)[0].packetId == id
  {
  }

  // ---- Sender application: PUBLISH ---------------------------------------------

  lemma {:induction false} PublishNewView(s: Net, id: PacketId, qos: QoS, ok: bool)
    requires Tables(s) && Counts(s) && id != 0 && qos != QoS0 && Fine(ViewOf(s, id))
    requires Reserved(s.out, s.outCapacity, id, qos).status == Success
    ensures var t := Next(s, PublishNew(id, qos, ok));
            && Own(s.out, id) == [] && OthersSame(s, t, id) && Distinct(t.out)
            && Fine(ViewOf(t, id)) && Own(t.out, id) != [] && Own(t.out, id)[0].qos == qos
  {
    hide Fine, Own, Of, PublishCalled;
    var m := |s.published|;
    PublishCalledIsLocal(s.out, s.outCapacity, id, qos, m, false, ok);
    Posted(s.toReceiver, PublishCalled(s.out, s.outCapacity, id, qos, m, false, ok).wire, id);
    OwnHas(s.out, id);
    assert Times(s, m) == 0 by { assert m !in s.delivered; }
    SendFirst(ViewOf(s, id), m, qos, ok);
  }

  lemma {:induction false} KeepPublishNew(s: Net, id: PacketId, qos: QoS, ok: bool)
    requires Inv(s) && id != 0 && qos != QoS0
    ensures Inv(Next(s, PublishNew(id, qos, ok)))
  {
    hide Fine, Own, Of, HasId, PublishCalled;
    if Reserved(s.out, s.outCapacity, id, qos).status == Success {
      var t := Next(s, PublishNew(id, qos, ok));
      PublishNewView(s, id, qos, ok);
      FineByView(s, t, id);
      forall j ensures Current(t, j) && (j != id ==> Own(t.out, j) == Own(s.out, j)) {
        assert Current(s, j);
        assert j != id ==> ViewOf(t, j) == ViewOf(s, j);
      }
      forall i, j | i != j && Own(t.out, i) != [] && Own(t.out, j) != []
        ensures MessageOf(t, i) != MessageOf(t, j)
      {
        assert Current(s, i) && Current(s, j);
      }
      assert forall m :: Times(t, m) == Times(s, m);
      assert Counts(t) by { assert |s.published| !in s.delivered; }
    }
  }

  lemma {:induction false} ResendView(s: Net, id: PacketId, ok: bool)
    requires Tables(s) && Enabled(s, Resend(id, ok)) && Fine(ViewOf(s, id))
    ensures var t := Next(s, Resend(id, ok));
            && OthersSame(s, t, id) && Distinct(t.out) && Own(s.out, id) != []
            && Fine(ViewOf(t, id)) && Own(t.out, id) != [] && Own(t.out, id)[0].qos == Own(s.out, id)[0].qos
  {
    hide Fine, Of, IndexOf, HasId, PublishCalled;
    var qos, m := s.out[IndexOf(s.out, id)].qos, s.table[id];
    SendAgain(ViewOf(s, id), Room(s.out, s.outCapacity), ok);
    PublishCalledIsLocal(s.out, s.outCapacity, id, qos, m, true, ok);
    Posted(s.toReceiver, PublishCalled(s.out, s.outCapacity, id, qos, m, true, ok).wire, id);
  }

  lemma {:induction false} KeepResend(s: Net, id: PacketId, ok: bool)
    requires Inv(s) && Enabled(s, Resend(id, ok))
    ensures Inv(Next(s, Resend(id, ok)))
  {
    hide Fine, Own, Of, HasId, PublishCalled;
    var t := Next(s, Resend(id, ok));
    ResendView(s, id, ok);
    FineByView(s, t, id);
    forall j ensures Current(t, j) && (j != id ==> Own(t.out, j) == Own(s.out, j)) {
      assert Current(s, j);
      assert j != id ==> ViewOf(t, j) == ViewOf(s, j);
    }
    assert forall m :: Times(t, m) == Times(s, m);
  }

  // ---- Receiver -----------------------------------------------------------------

  /** The receiver's step, as far as the id of the packet it takes is concerned. */
  ghost predicate ReceiverStep(s: Net, t: Net, id: PacketId)
  {
    && OthersSame(s, t, id) && Distinct(t.inc) && Fine(ViewOf(t, id)) && Own(s.out, id) != []
    && (|| t.delivered == s.delivered
        || (t.delivered == s.delivered + [MessageOf(s, id)]
            && (Own(s.out, id)[0].qos == QoS2 ==> Times(s, MessageOf(s, id)) == 0)))
  }

  /** Delivering the message of one id does not count for any other id. */
  lemma {:induction false} CountsApart(s: Net, id: PacketId, d: seq<Message>)
    requires Tables(s) && Own(s.out, id) != [] && (d == [] || d == [MessageOf(s, id)])
    ensures multiset(s.delivered + d)[MessageOf(s, id)] == Times(s, MessageOf(s, id)) + |d|
    ensures forall j :: j != id && Own(s.out, j) != [] ==>
              multiset(s.delivered + d)[MessageOf(s, j)] == Times(s, MessageOf(s, j))
  {
    hide Own, Current;
    assert s.delivered + [] == s.delivered;
  }

  /** The next state when the head of the channel is a PUBLISH. */
  lemma {:induction false} NextTakesPublish(s: Net, ok: bool)
    requires s.toReceiver != [] && s.toReceiver[0].PublishPacket?
    ensures var p, t := s.toReceiver[0], Next(s, ReceiverTakes(ok));
            var h := PublishHandled(s.inc, s.incCapacity, p.id, p.qos, p.message, ok);
            && t.out == s.out && t.table == s.table && t.sent == s.sent && t.inc == h.records
            && t.toReceiver == s.toReceiver[1..] && t.toSender == s.toSender + h.wire
            && t.delivered == s.delivered + h.delivered
  {
    hide PublishHandled;
  }

  lemma {:induction false} ReceiverTakesPublish(s: Net, ok: bool)
    requires Tables(s) && s.toReceiver != [] && Fine(ViewOf(s, s.toReceiver[0].id)) && s.toReceiver[0].PublishPacket?
    ensures ReceiverStep(s, Next(s, ReceiverTakes(ok)), s.toReceiver[0].id)
  {
    hide Fine, Own, Of, PublishHandled, IndexOf, HasId, Next, Current;
    var p := s.toReceiver[0];
    HeadOf(s.toReceiver);
    TakePublish(ViewOf(s, p.id), Room(s.inc, s.incCapacity), ok);
    PublishHandledIsLocal(s.inc, s.incCapacity, p.id, p.qos, p.message, ok);
    var h := PublishHandled(s.inc, s.incCapacity, p.id, p.qos, p.message, ok);
    NextTakesPublish(s, ok);
    Posted(s.toSender, h.wire, p.id);
    CountsApart(s, p.id, h.delivered);
    assert s.delivered + [] == s.delivered;
  }

  lemma {:induction false} ReceiverTakesPubrel(s: Net, ok: bool)
    requires Tables(s) && s.toReceiver != [] && Fine(ViewOf(s, s.toReceiver[0].id)) && s.toReceiver[0].AckPacket?
    ensures ReceiverStep(s, Next(s, ReceiverTakes(ok)), s.toReceiver[0].id)
  {
    hide Fine, Own, Of, AckHandled;
    var p := s.toReceiver[0];
    HeadOf(s.toReceiver);
    TakePubrel(ViewOf(s, p.id), ok);
    AckHandledIsLocal(s.inc, p.id, p.ack, ok);
    Posted(s.toSender, AckHandled(s.inc, p.id, p.ack, ok).wire, p.id);
  }

  lemma {:induction false} KeepReceiverTakes(s: Net, ok: bool)
    requires Inv(s) && s.toReceiver != []
    ensures Inv(Next(s, ReceiverTakes(ok)))
  {
    hide Fine, Own, Of, IndexOf, HasId, PublishCalled, PublishHandled, AckHandled, Released, Pubrels;
    var t, id := Next(s, ReceiverTakes(ok)), s.toReceiver[0].id;
    if s.toReceiver[0].PublishPacket? {
      ReceiverTakesPublish(s, ok);
    } else {
      ReceiverTakesPubrel(s, ok);
    }
    FineByView(s, t, id);
    assert Current(s, id);
    forall j ensures Current(t, j) { assert Current(s, j); }
  }

  // ---- Sender -------------------------------------------------------------------

  lemma {:induction false} SenderView(s: Net, ok: bool)
    requires Tables(s) && s.toSender != [] && Fine(ViewOf(s, s.toSender[0].id))
    ensures var t, id := Next(s, SenderTakes(ok)), s.toSender[0].id;
            && OthersSame(s, t, id) && Distinct(t.out)
            && Fine(ViewOf(t, id)) && Own(s.out, id) != []
            && (if Own(t.out, id) == [] then Times(s, MessageOf(s, id)) >= 1
                && t.completed == s.completed + {MessageOf(s, id)}
                else Own(t.out, id)[0].qos == Own(s.out, id)[0].qos && t.completed == s.completed)
  {
    hide Fine, Own, Of, IndexOf, HasId, PublishCalled, PublishHandled, AckHandled, Released, Pubrels;
    var p := s.toSender[0];
    var id := p.id;
    var v := ViewOf(s, id);
    HeadOf(s.toSender);
    TakeAck(v, ok);
    AckHandledIsLocal(s.out, id, p.ack, ok);
    var h := AckHandled(s.out, id, p.ack, ok);
    Posted(s.toReceiver, h.wire, id);
    assert Current(s, id);
    OwnHas(s.out, id);
    OwnHas(h.records, id);
  }

  lemma {:induction false} KeepSenderTakes(s: Net, ok: bool)
    requires Inv(s) && s.toSender != []
    ensures Inv(Next(s, SenderTakes(ok)))
  {
    hide Fine, Own, Of, IndexOf, HasId, PublishCalled, PublishHandled, AckHandled, Released, Pubrels;
    var t, id := Next(s, SenderTakes(ok)), s.toSender[0].id;
    SenderView(s, ok);
    FineByView(s, t, id);
    assert Current(s, id);
    forall j ensures Current(t, j) && (j != id ==> Own(t.out, j) == Own(s.out, j)) {
      assert Current(s, j);
      assert j != id ==> ViewOf(t, j) == ViewOf(s, j);
    }
    assert forall m :: Times(t, m) == Times(s, m);
  }

  // ---- Reconnection ---------------------------------------------------------------

  lemma {:induction false} PubrelsStep(l: seq<Record>, k: nat)
    requires 0 < k <= |l|
    ensures Pubrels(l[..k]) ==
            Pubrels(l[..k - 1]) + if l[k - 1].state in PUBREL_STATES then [AckPacket(Pubrel, l[k - 1].packetId)] else []
  {
    assert l[..k][..k - 1] == l[..k - 1];
  }

  lemma {:induction false} OfPubrels(l: seq<Record>, k: nat, id: PacketId)
    requires Distinct(l) && k <= |l|
    ensures Of(Pubrels(l[..k]), id) ==
            if IndexOf(l, id) < k && l[IndexOf(l, id)].state in PUBREL_STATES then [AckPacket(Pubrel, id)] else []
  {
    if k == 0 {
      assert l[..k] == [] && Pubrels([]) == [];
    } else {
      hide Pubrels, Of, IndexOf;
      var r := l[k - 1];
      OfPubrels(l, k - 1, id);
      var w := if r.state in PUBREL_STATES then [AckPacket(Pubrel, r.packetId)] else [];
      PubrelsStep(l, k);
      OfAppend(Pubrels(l[..k - 1]), w, id);
      OfWire(w, r.packetId);
    }
  }

  /** What a walk of the first k records leaves of each id, and sends for it. */
  lemma {:induction false} OwnReleased(l: seq<Record>, k: nat, id: PacketId)
    requires Distinct(l) && k <= |l|
    ensures Distinct(Released(l, k))
    ensures || (Own(Released(l, k), id) == Own(l, id) && Of(Pubrels(l[..k]), id) == [])
            || (Own(l, id) != [] && Own(l, id)[0].state in PUBREL_STATES
                && Own(Released(l, k), id) == [Own(l, id)[0].(state := PubCompPending)]
                && Of(Pubrels(l[..k]), id) == [AckPacket(Pubrel, id)])
  {
    hide Of, Pubrels, IndexOf;
    var t, i := Released(l, k), IndexOf(l, id);
    var j := IndexOf(t, id);
    assert i < |l| ==> t[i].packetId == id;
    assert j < |l| ==> l[j].packetId == id;
    OfPubrels(l, k, id);
  }

  lemma {:induction false} ReconnectView(s: Net, walked: nat, id: PacketId)
    requires Distinct(s.out) && walked <= |s.out| && Fine(ViewOf(s, id)) && Current(s, id)
    ensures var t := Next(s, Reconnect(walked));
            && Fine(ViewOf(t, id)) && Current(t, id) && (Own(t.out, id) != [] <==> Own(s.out, id) != [])
  {
    hide Fine, Own, Of, Released, Pubrels;
    OwnReleased(s.out, walked, id);
    NoneOf(id);
    Cut(ViewOf(s, id));
  }

  lemma {:induction false} KeepReconnect(s: Net, walked: nat)
    requires Inv(s) && walked <= |s.out|
    ensures Inv(Next(s, Reconnect(walked)))
  {
    hide Fine, Own, Of, IndexOf, HasId, PublishCalled, PublishHandled, AckHandled, Released, Pubrels;
    var t := Next(s, Reconnect(walked));
    forall id ensures Fine(ViewOf(t, id)) && Current(t, id) && (Own(t.out, id) != [] <==> Own(s.out, id) != []) {
      ReconnectView(s, walked, id);
    }
    OwnReleased(s.out, walked, 0);
    assert forall m :: Times(t, m) == Times(s, m);
  }

  lemma {:induction false} KeepCleanReconnect(s: Net)
    requires Inv(s)
    ensures Inv(Next(s, CleanReconnect))
  {
    var t := Next(s, CleanReconnect);
    forall id ensures Fine(ViewOf(t, id)) && Current(t, id) {}
    assert forall m :: Times(t, m) == Times(s, m);
  }

  lemma {:induction false} Kept(s: Net, step: Step)
    requires Inv(s) && Enabled(s, step)
    ensures Inv(Next(s, step))
  {
    match step
    case PublishNew(id, qos, ok) => KeepPublishNew(s, id, qos, ok);
    case Resend(id, ok) => KeepResend(s, id, ok);
    case ReceiverTakes(ok) => KeepReceiverTakes(s, ok);
    case SenderTakes(ok) => KeepSenderTakes(s, ok);
    case Reconnect(walked) => KeepReconnect(s, walked);
    case CleanReconnect => KeepCleanReconnect(s);
  }

  lemma {:induction false} KeptOverRuns(s: Net, steps: seq<Step>, t: Net)
    requires Inv(s) && Reaches(s, steps, t)
    ensures Inv(t)
    decreases |steps|
  {
    if steps != [] {
      Kept(s, steps[0]);
      KeptOverRuns(Next(s, steps[0]), steps[1..], t);
    }
  }

  /** What the application is promised: a QoS 2 message is delivered at most once, a
      completed message was delivered, exactly once for QoS 2, and nothing is
      delivered that was not published. */
  ghost predicate Promised(t: Net)
  {
    && (forall m :: 0 <= m < |t.published| && t.published[m] == QoS2 ==> Times(t, m) <= 1)
    && (forall m :: m in t.completed ==>
          m < |t.published| && Times(t, m) >= 1 && (t.published[m] == QoS2 ==> Times(t, m) == 1))
    && (forall m :: m in t.delivered ==> m < |t.published|)
  }

  /** QoS 2 exactly once, QoS 1 at least once, over every run: a QoS 2 message
      never reaches the receiving application twice, and a message whose final
      ack the sender has taken has reached it. */
  lemma {:induction false} ExactlyOnce(outCapacity: nat, incCapacity: nat)
    ensures forall steps, t :: Reaches(Start(outCapacity, incCapacity), steps, t) ==> Promised(t)
  {
    hide Promised, Reaches;
    forall steps, t | Reaches(Start(outCapacity, incCapacity), steps, t)
      ensures Promised(t)
    {
      StartKept(outCapacity, incCapacity);
      PromisedOnwards(Start(outCapacity, incCapacity), steps, t);
    }
  }

  lemma {:induction false} StartKept(outCapacity: nat, incCapacity: nat)
    ensures Inv(Start(outCapacity, incCapacity))
  {
    var s := Start(outCapacity, incCapacity);
    forall id ensures Fine(ViewOf(s, id)) && Current(s, id) {}
  }

  lemma {:induction false} PromisedOnwards(s: Net, steps: seq<Step>, t: Net)
    requires Inv(s) && Reaches(s, steps, t)
    ensures Promised(t)
  {
    hide Reaches;
    KeptOverRuns(s, steps, t);
  }
}

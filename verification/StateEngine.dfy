/** The public calls of core_mqtt_state.c on a context with two record arrays. */
module StateEngine {
  import opened MqttTypes
  import opened RecordList
  import opened RecordArray

  // ---- Every call keeps the reachable-record invariant of its list ---------

  lemma {:induction false} RemovedIsDistinct(l: seq<Record>, k: nat)
    requires k < |l| && Distinct(l)
    ensures Distinct(Removed(l, k)) && !HasId(Removed(l, k), l[k].packetId)
  {
    var m := Removed(l, k);
    assert forall i :: 0 <= i < |m| ==> m[i] == l[if i < k then i else i + 1];
  }

  lemma {:induction false} AddedKeepsOutgoing(l: seq<Record>, capacity: nat, r: Record)
    requires ValidOutgoing(l) && IsLive(r) && OutgoingState(r.qos, r.state)
    ensures ValidOutgoing(Added(l, capacity, r).records)
  {
  }

  lemma {:induction false} AddedKeepsIncoming(l: seq<Record>, capacity: nat, r: Record)
    requires ValidIncoming(l) && IsLive(r) && IncomingState(r.qos, r.state)
    ensures ValidIncoming(Added(l, capacity, r).records)
  {
  }

  /** A sent PUBLISH keeps the outgoing invariant. */
  lemma {:induction false} PublishSentKeepsOutgoing(l: seq<Record>, id: PacketId, qos: QoS)
    requires ValidOutgoing(l)
    ensures ValidOutgoing(PublishSent(l, id, qos).records)
  {
  }

  /** Any ack applied to the outgoing list keeps its invariant and never fails
      for want of a slot: the list does not grow. */
  lemma {:induction false} AckKeepsOutgoing(l: seq<Record>, id: PacketId, ack: AckType, op: Operation)
    requires ValidOutgoing(l) && IsPublishOutgoing(ack, op)
    ensures ValidOutgoing(AckUpdated(l, id, ack, op).records)
    ensures |AckUpdated(l, id, ack, op).records| <= |l|
  {
    var k := IndexOf(l, id);
    if k < |l| {
      RemovedIsDistinct(l, k);
    }
  }

  /** Any ack applied to the incoming list keeps its invariant. */
  lemma {:induction false} AckKeepsIncoming(l: seq<Record>, id: PacketId, ack: AckType, op: Operation)
    requires ValidIncoming(l) && !IsPublishOutgoing(ack, op)
    ensures ValidIncoming(AckUpdated(l, id, ack, op).records)
    ensures AckUpdated(l, id, ack, op).state != PubRelSend
  {
    var k := IndexOf(l, id);
    if k < |l| {
      RemovedIsDistinct(l, k);
    }
  }

  /** PUBREC bookkeeping: a received PUBREC moves exactly its own record to the
      end and keeps the relative order of all others. */
  lemma {:induction false} PubrecMovesToEnd(l: seq<Record>, id: PacketId)
    requires ValidOutgoing(l) && AckUpdated(l, id, Pubrec, Receive).status == Success
    ensures var m := AckUpdated(l, id, Pubrec, Receive).records;
            && |m| == |l| && m[|m| - 1] == Record(id, QoS2, PubRelSend)
            && m[..|m| - 1] == Removed(l, IndexOf(l, id))
            && l[IndexOf(l, id)] == Record(id, QoS2, PubRecPending)
  {
  }

  /** The slots of `s` searched from `cursor`: the first in one of `states`, or the end. */
  function NextIn(s: seq<Record>, states: set<PublishState>, cursor: nat): (k: nat)
    requires cursor <= |s|
    ensures cursor <= k <= |s|
    ensures k < |s| ==> s[k].state in states
    ensures forall i :: cursor <= i < k ==> s[i].state !in states
    decreases |s| - cursor
  {
    if cursor == |s| || s[cursor].state in states then cursor else NextIn(s, states, cursor + 1)
  }

  const PUBREL_STATES := {PubCompPending, PubRelSend}
  const PUBLISH_STATES := {PublishSend, PubAckPending, PubRecPending}

  class Engine {
    const outgoing: array<Record>
    const incoming: array<Record>

    ghost predicate Valid()
      reads this, outgoing, incoming
    {
      && outgoing != incoming && outgoing.Length > 0 && incoming.Length > 0
      && FreeZeroed(outgoing[..]) && FreeZeroed(incoming[..])
      && ValidOutgoing(Out()) && ValidIncoming(In())
    }

    ghost function Out(): seq<Record>
      reads outgoing
    {
      Live(outgoing[..])
    }

    ghost function In(): seq<Record>
      reads incoming
    {
      Live(incoming[..])
    }

    /** Zeroed arrays, as MQTT_InitStatefulQoS is handed. */
    constructor (outgoingCount: nat, incomingCount: nat)
      requires outgoingCount > 0 && incomingCount > 0
      ensures Valid() && fresh(outgoing) && fresh(incoming)
      ensures outgoing.Length == outgoingCount && incoming.Length == incomingCount
      ensures Out() == [] && In() == []
    {
      outgoing := new Record[outgoingCount](_ => FREE);
      incoming := new Record[incomingCount](_ => FREE);
      new;
      LiveNone(outgoing[..]);
      LiveNone(incoming[..]);
    }

    method ReserveState(id: PacketId, qos: QoS) returns (status: Status)
      requires Valid()
      modifies outgoing
      ensures Valid() && unchanged(incoming)
      ensures Outcome(status, if status == Success && qos != QoS0 then PublishSend else StateNull, Out())
              == Reserved(old(Out()), outgoing.Length, id, qos)
      ensures status != Success && qos != QoS0 && id != 0 ==> outgoing[..] == Roomy(old(outgoing[..]))
      ensures id == 0 || qos == QoS0 ==> unchanged(outgoing)
    {
      if qos == QoS0 {
        return Success;
      }
      if id == 0 {
        return BadParameter;
      }
      AddedKeepsOutgoing(Out(), outgoing.Length, Record(id, qos, PublishSend));
      status := AddRecord(outgoing, id, qos, PublishSend);
    }

    /** MQTT_UpdateStatePublish for a sent PUBLISH: changes at most one slot's state. */
    method PublishWasSent(id: PacketId, qos: QoS) returns (status: Status, newState: PublishState)
      requires Valid()
      modifies outgoing
      ensures Valid() && unchanged(incoming)
      ensures Outcome(status, newState, Out()) == PublishSent(old(Out()), id, qos)
      ensures forall i :: 0 <= i < outgoing.Length ==>
                outgoing[i] == old(outgoing[i]) ||
                (outgoing[i] == old(outgoing[i]).(state := newState) && outgoing[i].packetId == id
                 && old(outgoing[i]).state == PublishSend && newState in {PubAckPending, PubRecPending})
    {
      hide Live, IndexOf;
      newState := StateNull;
      if qos == QoS0 {
        return Success, PublishDone;
      }
      if id == 0 {
        return BadParameter, StateNull;
      }
      var index, foundQoS, current := FindInRecord(outgoing, id);
      if index == outgoing.Length || foundQoS != qos {
        return BadParameter, StateNull;
      }
      var next := CalculateStatePublish(Send, qos);
      if !ValidTransitionPublish(current, next, Send, qos) {
        return IllegalState, StateNull;
      }
      PublishSentKeepsOutgoing(Out(), id, qos);
      assert outgoing[..][index] in outgoing[..];
      if current != next {
        UpdateRecord(outgoing, index, next, false);
      }
      return Success, next;
    }

    /** MQTT_UpdateStatePublish for a received PUBLISH. */
    method PublishWasReceived(id: PacketId, qos: QoS) returns (status: Status, newState: PublishState)
      requires Valid()
      modifies incoming
      ensures Valid() && unchanged(outgoing)
      ensures Outcome(status, newState, In()) == PublishReceived(old(In()), incoming.Length, id, qos)
    {
      newState := StateNull;
      if qos == QoS0 {
        return Success, PublishDone;
      }
      if id == 0 {
        return BadParameter, StateNull;
      }
      var next := CalculateStatePublish(Receive, qos);
      AddedKeepsIncoming(In(), incoming.Length, Record(id, qos, next));
      status := AddRecord(incoming, id, qos, next);
      if status == Success {
        newState := next;
      }
    }

    /** MQTT_RemoveStateRecord (MQTT_CancelCallback). */
    method RemoveStateRecord(id: PacketId) returns (status: Status)
      requires Valid() && id != 0
      modifies outgoing
      ensures Valid() && unchanged(incoming)
      ensures Outcome(status, StateNull, Out()) == RecordRemoved(old(Out()), id)
      ensures status == Success <==> HasId(old(Out()), id)
    {
      hide Live, IndexOf;
      var index, qos, current := FindInRecord(outgoing, id);
      if current == StateNull || (qos != QoS1 && qos != QoS2) {
        return BadParameter;
      }
      RemovedIsDistinct(Out(), |Live(outgoing[..index])|);
      UpdateRecord(outgoing, index, StateNull, true);
      return Success;
    }

    /** updateStateAck on the array the ack belongs to. */
    method ApplyAck(records: array<Record>, index: nat, id: PacketId, current: PublishState, next: PublishState)
      returns (status: Status)
      requires id != 0 && index < records.Length && records[index].packetId == id && records[index].state == current
      requires index == IndexOf(records[..], id)
      requires FreeZeroed(records[..]) && Distinct(Live(records[..]))
      modifies records
      ensures FreeZeroed(records[..])
      ensures !ValidTransitionAck(current, next) ==> status == IllegalState && records[..] == old(records[..])
      ensures ValidTransitionAck(current, next) ==> status == Success
      ensures ValidTransitionAck(current, next) ==>
                var l := old(Live(records[..]));
                var k := IndexOf(l, id);
                && k < |l|
                && Live(records[..]) ==
                   if next == PublishDone then Removed(l, k)
                   else if next == PubRelSend then Removed(l, k) + [Record(id, QoS2, PubRelSend)]
                   else Restated(l, k, next)
      ensures next == PubCompPending && ValidTransitionAck(current, next) ==>
                records[..] == old(records[..])[index := old(records[index]).(state := next)]
    {
      if !ValidTransitionAck(current, next) {
        return IllegalState;
      }
      ghost var l := Live(records[..]);
      LiveIndex(records[..], index, id);
      assert Restated(l, |Live(records[..index])|, current) == l;
      assert records[..] == records[..][index := records[index].(state := current)];
      status := Success;
      if current != next {
        UpdateRecord(records, index, next, next == PublishDone || next == PubRelSend);
        if next == PubRelSend {
          RemovedIsDistinct(l, IndexOf(l, id));
          status := AddRecord(records, id, QoS2, PubRelSend);
        }
      }
    }

    method UpdateStateAck(id: PacketId, ack: AckType, op: Operation) returns (status: Status, newState: PublishState)
      requires Valid()
      modifies outgoing, incoming
      ensures Valid()
      ensures IsPublishOutgoing(ack, op) ==>
                unchanged(incoming) && Outcome(status, newState, Out()) == AckUpdated(old(Out()), id, ack, op)
      ensures !IsPublishOutgoing(ack, op) ==>
                unchanged(outgoing) && Outcome(status, newState, In()) == AckUpdated(old(In()), id, ack, op)
      ensures status != Success ==> outgoing[..] == old(outgoing[..]) && incoming[..] == old(incoming[..])
      ensures ack == Pubrel && op == Send && status == Success ==>
                var k := old(IndexOf(outgoing[..], id));
                && k < outgoing.Length
                && outgoing[..] == old(outgoing[..])[k := old(outgoing[..])[k].(state := PubCompPending)]
    {
      hide Live, IndexOf, Removed, Restated, FreeZeroed;
      newState := StateNull;
      if id == 0 {
        return BadParameter, StateNull;
      }
      var out := IsPublishOutgoing(ack, op);
      var records := if out then outgoing else incoming;
      var index, qos, current := FindInRecord(records, id);
      if index == records.Length {
        return BadResponse, StateNull;
      }
      var next := CalculateStateAck(ack, op, qos);
      if out {
        AckKeepsOutgoing(Out(), id, ack, op);
      } else {
        AckKeepsIncoming(In(), id, ack, op);
      }
      status := ApplyAck(records, index, id, current, next);
      if status == Success {
        newState := next;
      }
    }

    /** stateSelect: the id of the next record in one of `states`, and the cursor after it. */
    method StateSelect(states: set<PublishState>, cursor: nat) returns (id: PacketId, next: nat)
      requires Valid() && StateNull !in states
      requires cursor <= outgoing.Length
      ensures var k := NextIn(outgoing[..], states, cursor);
              if k < outgoing.Length then id == outgoing[k].packetId != 0 && next == k + 1
              else id == 0 && next == outgoing.Length
    {
      id, next := 0, cursor;
      while next < outgoing.Length
        invariant cursor <= next <= outgoing.Length
        invariant NextIn(outgoing[..], states, cursor) == NextIn(outgoing[..], states, next)
      {
        if outgoing[next].state in states {
          assert outgoing[..][next] != FREE;
          return outgoing[next].packetId, next + 1;
        }
        next := next + 1;
      }
    }
  }
}

/** The abstract view of a record array: the ordered list of its live records,
    and what each state-engine call does to that list. */
module RecordList {
  import opened MqttTypes

  const FREE: Record := Record(0, QoS0, StateNull)

  predicate IsLive(r: Record) { r.packetId != 0 }

  /** The live records of a slot array, in slot order. */
  function Live(s: seq<Record>): (l: seq<Record>)
    ensures |l| <= |s|
    ensures forall i :: 0 <= i < |l| ==> IsLive(l[i])
  {
    if s == [] then []
    else
      var l := Live(s[..|s| - 1]);
      if IsLive(s[|s| - 1]) then l + [s[|s| - 1]] else l
  }

  /** Every free slot is fully zeroed. */
  predicate FreeZeroed(s: seq<Record>)
  {
    forall i :: 0 <= i < |s| ==> IsLive(s[i]) || s[i] == FREE
  }

  predicate HasId(l: seq<Record>, id: PacketId)
  {
    exists i :: 0 <= i < |l| && l[i].packetId == id
  }

  /** First index holding `id`, or the length. */
  function IndexOf(l: seq<Record>, id: PacketId): (k: nat)
    ensures k <= |l|
    ensures k < |l| ==> l[k].packetId == id
    ensures forall i :: 0 <= i < k ==> l[i].packetId != id
  {
    if l == [] then 0
    else if l[0].packetId == id then 0
    else 1 + IndexOf(l[1..], id)
  }

  predicate Distinct(l: seq<Record>)
  {
    forall i, j :: 0 <= i < j < |l| ==> l[i].packetId != l[j].packetId
  }

  predicate ValidOutgoing(l: seq<Record>)
  {
    && Distinct(l)
    && forall i :: 0 <= i < |l| ==> IsLive(l[i]) && OutgoingState(l[i].qos, l[i].state)
  }

  predicate ValidIncoming(l: seq<Record>)
  {
    && Distinct(l)
    && forall i :: 0 <= i < |l| ==> IsLive(l[i]) && IncomingState(l[i].qos, l[i].state)
  }

  // ---- What the engine calls do to the list --------------------------------

  datatype Outcome = Outcome(status: Status, state: PublishState, records: seq<Record>)

  function Removed(l: seq<Record>, k: nat): seq<Record>
    requires k < |l|
  {
    l[..k] + l[k + 1..]
  }

  function Restated(l: seq<Record>, k: nat, state: PublishState): seq<Record>
    requires k < |l|
  {
    l[k := l[k].(state := state)]
  }

  /** addRecord with `capacity` slots. */
  function Added(l: seq<Record>, capacity: nat, r: Record): Outcome
  {
    if HasId(l, r.packetId) then Outcome(StateCollision, StateNull, l)
    else if |l| >= capacity then Outcome(NoMemory, StateNull, l)
    else Outcome(Success, r.state, l + [r])
  }

  /** MQTT_ReserveState */
  function Reserved(l: seq<Record>, capacity: nat, id: PacketId, qos: QoS): Outcome
  {
    if qos == QoS0 then Outcome(Success, StateNull, l)
    else if id == 0 then Outcome(BadParameter, StateNull, l)
    else Added(l, capacity, Record(id, qos, PublishSend))
  }

  /** MQTT_UpdateStatePublish, opType MQTT_RECEIVE, on the incoming list. */
  function PublishReceived(l: seq<Record>, capacity: nat, id: PacketId, qos: QoS): Outcome
  {
    if qos == QoS0 then Outcome(Success, PublishDone, l)
    else if id == 0 then Outcome(BadParameter, StateNull, l)
    else Added(l, capacity, Record(id, qos, CalculateStatePublish(Receive, qos)))
  }

  /** MQTT_UpdateStatePublish, opType MQTT_SEND, on the outgoing list. */
  function PublishSent(l: seq<Record>, id: PacketId, qos: QoS): Outcome
  {
    var k := IndexOf(l, id);
    if qos == QoS0 then Outcome(Success, PublishDone, l)
    else if id == 0 || k == |l| || l[k].qos != qos then Outcome(BadParameter, StateNull, l)
    else
      var next := CalculateStatePublish(Send, qos);
      if !ValidTransitionPublish(l[k].state, next, Send, qos) then Outcome(IllegalState, StateNull, l)
      else Outcome(Success, next, Restated(l, k, next))
  }

  /** MQTT_UpdateStateAck on the list the ack belongs to. A received PUBREC
      moves its record to the end; a finished exchange drops it. */
  function AckUpdated(l: seq<Record>, id: PacketId, ack: AckType, op: Operation): Outcome
  {
    var k := IndexOf(l, id);
    if id == 0 then Outcome(BadParameter, StateNull, l)
    else if k == |l| then Outcome(BadResponse, StateNull, l)
    else
      var next := CalculateStateAck(ack, op, l[k].qos);
      if !ValidTransitionAck(l[k].state, next) then Outcome(IllegalState, StateNull, l)
      else if next == PublishDone then Outcome(Success, next, Removed(l, k))
      else if next == PubRelSend then Outcome(Success, next, Removed(l, k) + [Record(id, QoS2, PubRelSend)])
      else Outcome(Success, next, Restated(l, k, next))
  }

  /** MQTT_RemoveStateRecord */
  function RecordRemoved(l: seq<Record>, id: PacketId): Outcome
  {
    var k := IndexOf(l, id);
    if k == |l| || l[k].state == StateNull || l[k].qos == QoS0 then Outcome(BadParameter, StateNull, l)
    else Outcome(Success, StateNull, Removed(l, k))
  }

  // ---- Live and slot updates -----------------------------------------------

  lemma {:induction false} LiveAppend(a: seq<Record>, b: seq<Record>)
    ensures Live(a + b) == Live(a) + Live(b)
  {
    if b == [] {
      assert a + b == a;
    } else {
      var c := b[..|b| - 1];
      assert (a + b)[..|a + b| - 1] == a + c;
      LiveAppend(a, c);
    }
  }

  /** Where slot k's record sits in the list, and what surrounds it. */
  lemma {:induction false} LiveAround(s: seq<Record>, k: nat)
    requires k < |s|
    ensures Live(s) == Live(s[..k]) + Live([s[k]]) + Live(s[k + 1..])
    ensures Live([s[k]]) == if IsLive(s[k]) then [s[k]] else []
  {
    assert s == s[..k] + [s[k]] + s[k + 1..];
    LiveAppend(s[..k] + [s[k]], s[k + 1..]);
    LiveAppend(s[..k], [s[k]]);
    assert Live([s[k]][..0]) == [];
  }

  lemma {:induction false} LivePut(s: seq<Record>, k: nat, r: Record)
    requires k < |s|
    ensures Live(s[k := r]) == Live(s[..k]) + (if IsLive(r) then [r] else []) + Live(s[k + 1..])
    ensures Live(s) == Live(s[..k]) + (if IsLive(s[k]) then [s[k]] else []) + Live(s[k + 1..])
  {
    LiveAround(s, k);
    LiveAround(s[k := r], k);
    assert s[k := r][..k] == s[..k] && s[k := r][k + 1..] == s[k + 1..];
  }

  /** A run of free slots contributes nothing. */
  lemma {:induction false} LiveNone(s: seq<Record>)
    requires forall i :: 0 <= i < |s| ==> !IsLive(s[i])
    ensures Live(s) == []
  {
    if s != [] {
      LiveNone(s[..|s| - 1]);
    }
  }

  lemma {:induction false} LiveAll(s: seq<Record>)
    requires forall i :: 0 <= i < |s| ==> IsLive(s[i])
    ensures Live(s) == s
  {
    if s != [] {
      LiveAll(s[..|s| - 1]);
      assert s == s[..|s| - 1] + [s[|s| - 1]];
    }
  }

  lemma {:induction false} LiveFull(s: seq<Record>)
    ensures |Live(s)| == |s| <==> forall i :: 0 <= i < |s| ==> IsLive(s[i])
  {
    if s != [] {
      LiveFull(s[..|s| - 1]);
      assert forall i :: 0 <= i < |s| - 1 ==> s[..|s| - 1][i] == s[i];
    }
  }

  /** An id is live in the slots exactly when it is in the list. */
  lemma {:induction false} LiveHasId(s: seq<Record>, id: PacketId)
    requires id != 0
    ensures HasId(Live(s), id) <==> HasId(s, id)
  {
    if s != [] {
      var t := s[..|s| - 1];
      LiveHasId(t, id);
      var l := Live(t);
      var last := s[|s| - 1];
      assert forall i :: 0 <= i < |t| ==> s[i] == t[i];
      if HasId(l, id) {
        var i :| 0 <= i < |l| && l[i].packetId == id;
        assert Live(s)[i].packetId == id;
      }
      if last.packetId == id {
        assert Live(s)[|l|] == last;
      }
      if HasId(Live(s), id) && last.packetId != id {
        var i :| 0 <= i < |Live(s)| && Live(s)[i].packetId == id;
        assert i < |l| && l[i].packetId == id;
      }
      if HasId(s, id) && last.packetId != id {
        var i :| 0 <= i < |s| && s[i].packetId == id;
        assert t[i].packetId == id;
      }
    }
  }

  /** If slot k is the first with `id`, its record is the list's first with `id`. */
  lemma {:induction false} LiveIndex(s: seq<Record>, k: nat, id: PacketId)
    requires id != 0 && k < |s| && s[k].packetId == id
    requires forall i :: 0 <= i < k ==> s[i].packetId != id
    ensures |Live(s[..k])| < |Live(s)|
    ensures Live(s)[|Live(s[..k])|] == s[k]
    ensures IndexOf(Live(s), id) == |Live(s[..k])|
  {
    LiveAround(s, k);
    LiveHasId(s[..k], id);
    var l := Live(s);
    var p := |Live(s[..k])|;
    assert forall i :: 0 <= i < p ==> l[i] == Live(s[..k])[i];
  }
}

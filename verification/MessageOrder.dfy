/** Message ordering (section 4.6 of MQTT 3.1.1) over whole runs of the outgoing
    records: publishes stand in the order they were reserved, and releases in the
    order their PUBRECs arrived, so a resumption resends both in that order. */
module MessageOrder {
  import opened MqttTypes
  import opened PublishResend
  import opened QosHandlers
  import opened RecordList
  import opened StateEngine

  /** A call that can change the outgoing records. A resumption that stops early has
      walked only the first records. */
  datatype Call =
    | Reserve(id: PacketId, qos: QoS)
    | Sent(id: PacketId, qos: QoS)
    | Cancel(id: PacketId)
    | Acked(id: PacketId, ack: AckType, op: Operation)
    | Resume(walked: nat)
    | Clean

  /** The records, and when each id was last reserved and last got its PUBREC. */
  datatype History = History(records: seq<Record>, reserved: map<PacketId, nat>, released: map<PacketId, nat>, now: nat)

  const START := History([], map[], map[], 0)

  function At(m: map<PacketId, nat>, id: PacketId): nat { if id in m then m[id] else 0 }

  function Next(h: History, capacity: nat, call: Call): History
  {
    match call
    case Reserve(id, qos) =>
      var o := Reserved(h.records, capacity, id, qos);
      var m := if o.status == Success && qos != QoS0 then h.reserved[id := h.now] else h.reserved;
      History(o.records, m, h.released, h.now + 1)
    case Sent(id, qos) => h.(records := PublishSent(h.records, id, qos).records)
    case Cancel(id) => h.(records := RecordRemoved(h.records, id).records)
    case Acked(id, ack, op) =>
      if !IsPublishOutgoing(ack, op) then h
      else
        var o := AckUpdated(h.records, id, ack, op);
        var m := if o.status == Success && ack == Pubrec then h.released[id := h.now] else h.released;
        History(o.records, h.reserved, m, h.now + 1)
    case Resume(walked) => if walked <= |h.records| then h.(records := Released(h.records, walked)) else h
    case Clean => h.(records := [])
  }

  function Run(h: History, capacity: nat, calls: seq<Call>): History
    decreases |calls|
  {
    if calls == [] then h else Run(Next(h, capacity, calls[0]), capacity, calls[1..])
  }

  /** The records in one of `states` stand in the order of their stamps, all past. */
  predicate Sorted(l: seq<Record>, states: set<PublishState>, at: map<PacketId, nat>, now: nat)
  {
    && (forall i :: 0 <= i < |l| && l[i].state in states ==> At(at, l[i].packetId) < now)
    && (forall i, j :: 0 <= i < j < |l| && l[i].state in states && l[j].state in states ==>
          At(at, l[i].packetId) < At(at, l[j].packetId))
  }

  predicate Ordered(h: History)
  {
    && ValidOutgoing(h.records)
    && Sorted(h.records, PUBLISH_STATES, h.reserved, h.now) && Sorted(h.records, PUBREL_STATES, h.released, h.now)
  }

  lemma {:induction false} SortedLater(l: seq<Record>, states: set<PublishState>, at: map<PacketId, nat>, now: nat)
    requires Sorted(l, states, at, now)
    ensures Sorted(l, states, at, now + 1)
  {
  }

  lemma {:induction false} SortedRemoved(l: seq<Record>, states: set<PublishState>, at: map<PacketId, nat>, now: nat,
                                         k: nat)
    requires Sorted(l, states, at, now) && k < |l|
    ensures Sorted(Removed(l, k), states, at, now)
  {
    var m := Removed(l, k);
    assert forall i :: 0 <= i < |m| ==> m[i] == l[if i < k then i else i + 1];
  }

  lemma {:induction false} SortedRestated(l: seq<Record>, states: set<PublishState>, at: map<PacketId, nat>, now: nat,
                                          k: nat, state: PublishState)
    requires Sorted(l, states, at, now) && k < |l| && (state in states <==> l[k].state in states)
    ensures Sorted(Restated(l, k, state), states, at, now)
  {
    var m := Restated(l, k, state);
    assert forall i :: 0 <= i < |m| ==>
             m[i].packetId == l[i].packetId && (m[i].state in states <==> l[i].state in states);
  }

  /** A record at the end, stamped now if it is in `states`. */
  lemma {:induction false} SortedAppended(l: seq<Record>, states: set<PublishState>, at: map<PacketId, nat>, now: nat,
                                          r: Record)
    requires Sorted(l, states, at, now) && !HasId(l, r.packetId)
    ensures Sorted(l + [r], states, at[r.packetId := now], now + 1)
    ensures r.state !in states ==> Sorted(l + [r], states, at, now + 1)
  {
    assert forall i :: 0 <= i < |l| ==> l[i].packetId != r.packetId && (l + [r])[i] == l[i];
  }

  lemma {:induction false} ReserveOrdered(h: History, capacity: nat, id: PacketId, qos: QoS)
    requires Ordered(h)
    ensures Ordered(Next(h, capacity, Reserve(id, qos)))
  {
    hide Sorted, ValidOutgoing, HasId;
    SortedLater(h.records, PUBLISH_STATES, h.reserved, h.now);
    SortedLater(h.records, PUBREL_STATES, h.released, h.now);
    if qos != QoS0 && id != 0 {
      var r := Record(id, qos, PublishSend);
      AddedKeepsOutgoing(h.records, capacity, r);
      if !HasId(h.records, id) {
        SortedAppended(h.records, PUBLISH_STATES, h.reserved, h.now, r);
        SortedAppended(h.records, PUBREL_STATES, h.released, h.now, r);
      }
    }
  }

  lemma {:induction false} SentOrdered(h: History, capacity: nat, id: PacketId, qos: QoS)
    requires Ordered(h)
    ensures Ordered(Next(h, capacity, Sent(id, qos)))
  {
    hide Sorted, IndexOf, Restated;
    PublishSentKeepsOutgoing(h.records, id, qos);
    var k := IndexOf(h.records, id);
    var next := CalculateStatePublish(Send, qos);
    if qos != QoS0 && k < |h.records| && ValidTransitionPublish(h.records[k].state, next, Send, qos) {
      SortedRestated(h.records, PUBLISH_STATES, h.reserved, h.now, k, next);
      SortedRestated(h.records, PUBREL_STATES, h.released, h.now, k, next);
    }
  }

  lemma {:induction false} CancelOrdered(h: History, capacity: nat, id: PacketId)
    requires Ordered(h)
    ensures Ordered(Next(h, capacity, Cancel(id)))
  {
    hide Sorted, IndexOf;
    var k := IndexOf(h.records, id);
    if k < |h.records| {
      RemovedIsDistinct(h.records, k);
      SortedRemoved(h.records, PUBLISH_STATES, h.reserved, h.now, k);
      SortedRemoved(h.records, PUBREL_STATES, h.released, h.now, k);
      var m := Removed(h.records, k);
      assert forall i :: 0 <= i < |m| ==> m[i] == h.records[if i < k then i else i + 1];
    }
  }

  /** What an acknowledgement does to the list: nothing, deletes the record, moves it
      to the end for release, or restates it within the same group. */
  lemma {:induction false} AckKinds(l: seq<Record>, id: PacketId, ack: AckType, op: Operation)
    requires ValidOutgoing(l) && IsPublishOutgoing(ack, op)
    ensures var o, k := AckUpdated(l, id, ack, op), IndexOf(l, id);
            || (o.records == l && (ack == Pubrec ==> o.status != Success))
            || (k < |l| && o.records == Removed(l, k) && ack != Pubrec)
            || (k < |l| && l[k].state in PUBLISH_STATES && o.status == Success && ack == Pubrec
                && o.records == Removed(l, k) + [Record(id, QoS2, PubRelSend)])
            || (k < |l| && l[k].state in PUBREL_STATES && ack != Pubrec && o.records == Restated(l, k, PubCompPending))
  {
    hide IndexOf, Removed, Restated;
  }

  lemma {:induction false} RemovedLacks(l: seq<Record>, id: PacketId)
    requires Distinct(l) && IndexOf(l, id) < |l|
    ensures !HasId(Removed(l, IndexOf(l, id)), id)
  {
    var k := IndexOf(l, id);
    var m := Removed(l, k);
    assert forall i :: 0 <= i < |m| ==> m[i] == l[if i < k then i else i + 1];
  }

  lemma {:induction false} AckOrdered(h: History, capacity: nat, id: PacketId, ack: AckType, op: Operation)
    requires Ordered(h) && IsPublishOutgoing(ack, op)
    ensures Ordered(Next(h, capacity, Acked(id, ack, op)))
  {
    hide Sorted, IndexOf, Removed, Restated, AckUpdated, HasId;
    var l, k, o := h.records, IndexOf(h.records, id), AckUpdated(h.records, id, ack, op);
    AckKeepsOutgoing(l, id, ack, op);
    AckKinds(l, id, ack, op);
    SortedLater(l, PUBLISH_STATES, h.reserved, h.now);
    SortedLater(l, PUBREL_STATES, h.released, h.now);
    if k < |l| {
      SortedRemoved(l, PUBLISH_STATES, h.reserved, h.now, k);
      SortedRemoved(l, PUBREL_STATES, h.released, h.now, k);
      var m, r := Removed(l, k), Record(id, QoS2, PubRelSend);
      SortedLater(m, PUBLISH_STATES, h.reserved, h.now);
      SortedLater(m, PUBREL_STATES, h.released, h.now);
      RemovedLacks(l, id);
      SortedAppended(m, PUBLISH_STATES, h.reserved, h.now, r);
      SortedAppended(m, PUBREL_STATES, h.released, h.now, r);
      if l[k].state in PUBREL_STATES {
        SortedRestated(l, PUBLISH_STATES, h.reserved, h.now + 1, k, PubCompPending);
        SortedRestated(l, PUBREL_STATES, h.released, h.now + 1, k, PubCompPending);
      }
    }
  }

  lemma {:induction false} ResumeOrdered(h: History, capacity: nat, walked: nat)
    requires Ordered(h)
    ensures Ordered(Next(h, capacity, Resume(walked)))
  {
    if walked <= |h.records| {
      var l, m := h.records, Released(h.records, walked);
      assert forall i :: 0 <= i < |l| ==> m[i].packetId == l[i].packetId && m[i].qos == l[i].qos
                                          && (m[i].state in PUBREL_STATES <==> l[i].state in PUBREL_STATES)
                                          && (m[i].state in PUBLISH_STATES <==> l[i].state in PUBLISH_STATES);
    }
  }

  lemma {:induction false} NextOrdered(h: History, capacity: nat, call: Call)
    requires Ordered(h)
    ensures Ordered(Next(h, capacity, call))
  {
    hide Ordered;
    match call
    case Reserve(id, qos) => ReserveOrdered(h, capacity, id, qos);
    case Sent(id, qos) => SentOrdered(h, capacity, id, qos);
    case Cancel(id) => CancelOrdered(h, capacity, id);
    case Acked(id, ack, op) =>
      if IsPublishOutgoing(ack, op) {
        AckOrdered(h, capacity, id, ack, op);
      }
    case Resume(walked) => ResumeOrdered(h, capacity, walked);
    case Clean => CleanOrdered(h, capacity);
  }

  lemma {:induction false} CleanOrdered(h: History, capacity: nat)
    ensures Ordered(Next(h, capacity, Clean))
  {
  }

  lemma {:induction false} OrderedOnwards(h: History, capacity: nat, calls: seq<Call>)
    requires Ordered(h)
    ensures Ordered(Run(h, capacity, calls))
    decreases |calls|
  {
    hide Ordered, Next;
    if calls != [] {
      NextOrdered(h, capacity, calls[0]);
      OrderedOnwards(Next(h, capacity, calls[0]), capacity, calls[1..]);
    }
  }

  // ---- Which records a resumption owes what ------------------------------------------------

  /** The id got its PUBREC since it was last reserved. */
  predicate PubrecCame(h: History, id: PacketId) { id in h.released && At(h.reserved, id) < h.released[id] }

  /** The record waits for its release exactly if its PUBREC has come, and to be
      published or acknowledged otherwise. */
  predicate Told(h: History, r: Record)
  {
    && (r.state in PUBREL_STATES <==> PubrecCame(h, r.packetId))
    && (r.state in PUBLISH_STATES <==> !PubrecCame(h, r.packetId))
  }

  predicate AllTold(h: History)
  {
    && ValidOutgoing(h.records)
    && (forall id :: id in h.reserved ==> h.reserved[id] < h.now)
    && (forall id :: id in h.released ==> h.released[id] < h.now)
    && (forall i :: 0 <= i < |h.records| ==> h.records[i].packetId in h.reserved && Told(h, h.records[i]))
  }

  lemma {:induction false} ReserveTold(h: History, capacity: nat, id: PacketId, qos: QoS)
    requires AllTold(h)
    ensures AllTold(Next(h, capacity, Reserve(id, qos)))
  {
    hide ValidOutgoing;
    if qos != QoS0 && id != 0 {
      AddedKeepsOutgoing(h.records, capacity, Record(id, qos, PublishSend));
    }
    var g := Next(h, capacity, Reserve(id, qos));
    forall i | 0 <= i < |g.records|
      ensures g.records[i].packetId in g.reserved && Told(g, g.records[i])
    {
      if i < |h.records| {
        assert g.records[i] == h.records[i] && Told(h, h.records[i]);
      }
    }
  }

  /** A call that moves no stamp, keeps ids, and keeps each record in its group. */
  lemma {:induction false} RegroupedTold(h: History, l: seq<Record>)
    requires AllTold(h) && ValidOutgoing(l)
    requires AllAlike(l, h.records)
    ensures AllTold(h.(records := l)) && AllTold(h.(records := l, now := h.now + 1))
  {
    hide ValidOutgoing;
    forall i | 0 <= i < |l|
      ensures Told(h, l[i])
    {
      assert SomeAlike(h.records, l[i]);
      var j :| 0 <= j < |h.records| && Alike(l[i], h.records[j]);
      assert Told(h, h.records[j]);
    }
    assert forall i :: 0 <= i < |l| ==> Told(h.(records := l), l[i]) && Told(h.(records := l, now := h.now + 1), l[i]);
  }

  predicate Alike(r: Record, q: Record)
  {
    && r.packetId == q.packetId
    && (r.state in PUBREL_STATES <==> q.state in PUBREL_STATES)
    && (r.state in PUBLISH_STATES <==> q.state in PUBLISH_STATES)
  }

  predicate SomeAlike(l: seq<Record>, r: Record) { exists j :: 0 <= j < |l| && Alike(r, l[j]) }

  predicate AllAlike(m: seq<Record>, l: seq<Record>) { forall i :: 0 <= i < |m| ==> SomeAlike(l, m[i]) }

  lemma {:induction false} RemovedAlike(l: seq<Record>, k: nat)
    requires k < |l|
    ensures AllAlike(Removed(l, k), l)
  {
    var m := Removed(l, k);
    forall i | 0 <= i < |m|
      ensures SomeAlike(l, m[i])
    {
      var j := if i < k then i else i + 1;
      assert m[i] == l[j] && Alike(m[i], l[j]);
    }
  }

  lemma {:induction false} RestatedAlike(l: seq<Record>, k: nat, state: PublishState)
    requires k < |l| && Alike(l[k].(state := state), l[k])
    ensures AllAlike(Restated(l, k, state), l) && AllAlike(l, l)
  {
    var m := Restated(l, k, state);
    forall i | 0 <= i < |m|
      ensures SomeAlike(l, m[i]) && SomeAlike(l, l[i])
    {
      assert Alike(m[i], l[i]) && Alike(l[i], l[i]);
    }
  }

  lemma {:induction false} SameAlike(l: seq<Record>)
    ensures AllAlike(l, l)
  {
    forall i | 0 <= i < |l|
      ensures SomeAlike(l, l[i])
    {
      assert Alike(l[i], l[i]);
    }
  }

  lemma {:induction false} SentTold(h: History, capacity: nat, id: PacketId, qos: QoS)
    requires AllTold(h)
    ensures AllTold(Next(h, capacity, Sent(id, qos)))
  {
    hide IndexOf, Restated, Alike, AllAlike;
    PublishSentKeepsOutgoing(h.records, id, qos);
    var k := IndexOf(h.records, id);
    var next := CalculateStatePublish(Send, qos);
    if qos != QoS0 && k < |h.records| && ValidTransitionPublish(h.records[k].state, next, Send, qos) {
      PublishAlike(h.records[k], qos);
      RestatedAlike(h.records, k, next);
      RegroupedTold(h, PublishSent(h.records, id, qos).records);
    }
  }

  lemma {:induction false} PublishAlike(r: Record, qos: QoS)
    requires qos != QoS0 && ValidTransitionPublish(r.state, CalculateStatePublish(Send, qos), Send, qos)
    ensures Alike(r.(state := CalculateStatePublish(Send, qos)), r)
  {
  }

  lemma {:induction false} CancelTold(h: History, capacity: nat, id: PacketId)
    requires AllTold(h)
    ensures AllTold(Next(h, capacity, Cancel(id)))
  {
    hide IndexOf, Alike, AllAlike;
    var k := IndexOf(h.records, id);
    if k < |h.records| {
      RemovedIsDistinct(h.records, k);
      RemovedAlike(h.records, k);
      var m := Removed(h.records, k);
      assert forall i :: 0 <= i < |m| ==> m[i] == h.records[if i < k then i else i + 1];
      RegroupedTold(h, m);
    }
  }

  lemma {:induction false} AckTold(h: History, capacity: nat, id: PacketId, ack: AckType, op: Operation)
    requires AllTold(h) && IsPublishOutgoing(ack, op)
    ensures AllTold(Next(h, capacity, Acked(id, ack, op)))
  {
    hide IndexOf, Removed, Restated, AckUpdated, Alike, AllAlike, ValidOutgoing, Told;
    var l, k, o := h.records, IndexOf(h.records, id), AckUpdated(h.records, id, ack, op);
    AckKeepsOutgoing(l, id, ack, op);
    AckKinds(l, id, ack, op);
    SameAlike(l);
    if o.records == l && (ack == Pubrec ==> o.status != Success) {
      RegroupedTold(h, l);
    } else if ack == Pubrec {
      PubrecTold(h, id, o.records);
    } else if l[k].state in PUBREL_STATES && o.records == Restated(l, k, PubCompPending) {
      PubrelAlike(l[k]);
      RestatedAlike(l, k, PubCompPending);
      RegroupedTold(h, o.records);
    } else {
      RemovedAlike(l, k);
      RegroupedTold(h, o.records);
    }
  }

  lemma {:induction false} PubrelAlike(r: Record)
    requires r.state in PUBREL_STATES
    ensures Alike(r.(state := PubCompPending), r)
  {
  }

  lemma {:induction false} PubrecTold(h: History, id: PacketId, l: seq<Record>)
    requires AllTold(h) && ValidOutgoing(l) && IndexOf(h.records, id) < |h.records|
    requires l == Removed(h.records, IndexOf(h.records, id)) + [Record(id, QoS2, PubRelSend)]
    requires h.records[IndexOf(h.records, id)].state in PUBLISH_STATES
    ensures AllTold(History(l, h.reserved, h.released[id := h.now], h.now + 1))
  {
    hide IndexOf, ValidOutgoing;
    var g, k := History(l, h.reserved, h.released[id := h.now], h.now + 1), IndexOf(h.records, id);
    assert Distinct(l) by { ValidIsDistinct(l); }
    forall i | 0 <= i < |l|
      ensures Told(g, l[i])
    {
      if i < |l| - 1 {
        var j := if i < k then i else i + 1;
        assert l[i] == h.records[j] && Told(h, h.records[j]);
        assert l[i].packetId != l[|l| - 1].packetId;
      } else {
        assert l[i] == Record(id, QoS2, PubRelSend);
        assert At(h.reserved, id) < h.now by { assert Told(h, h.records[k]); Stamped(h, k); }
      }
    }
  }

  /** A record awaiting its PUBREC was reserved before now. */
  lemma {:induction false} Stamped(h: History, k: nat)
    requires AllTold(h) && k < |h.records|
    ensures At(h.reserved, h.records[k].packetId) < h.now
  {
  }

  lemma {:induction false} ValidIsDistinct(l: seq<Record>)
    requires ValidOutgoing(l)
    ensures Distinct(l)
  {
  }

  lemma {:induction false} ResumeTold(h: History, capacity: nat, walked: nat)
    requires AllTold(h)
    ensures AllTold(Next(h, capacity, Resume(walked)))
  {
    if walked <= |h.records| {
      var l, m := h.records, Released(h.records, walked);
      forall i | 0 <= i < |l|
        ensures Told(h, m[i])
      {
        assert Told(h, l[i]);
      }
      assert forall i :: 0 <= i < |m| ==> Told(h.(records := m), m[i]);
    }
  }

  lemma {:induction false} NextTold(h: History, capacity: nat, call: Call)
    requires AllTold(h)
    ensures AllTold(Next(h, capacity, call))
  {
    hide AllTold;
    match call
    case Reserve(id, qos) => ReserveTold(h, capacity, id, qos);
    case Sent(id, qos) => SentTold(h, capacity, id, qos);
    case Cancel(id) => CancelTold(h, capacity, id);
    case Acked(id, ack, op) =>
      if IsPublishOutgoing(ack, op) {
        AckTold(h, capacity, id, ack, op);
      }
    case Resume(walked) => ResumeTold(h, capacity, walked);
    case Clean => CleanTold(h, capacity);
  }

  lemma {:induction false} CleanTold(h: History, capacity: nat)
    requires AllTold(h)
    ensures AllTold(Next(h, capacity, Clean))
  {
  }

  lemma {:induction false} ToldOnwards(h: History, capacity: nat, calls: seq<Call>)
    requires AllTold(h)
    ensures AllTold(Run(h, capacity, calls))
    decreases |calls|
  {
    hide AllTold, Next;
    if calls != [] {
      NextTold(h, capacity, calls[0]);
      ToldOnwards(Next(h, capacity, calls[0]), capacity, calls[1..]);
    }
  }

  /** After any calls from an empty list, a resumption owes a PUBREL for exactly the
      records whose PUBREC has come, and a PUBLISH for exactly the others. */
  lemma {:induction false} OwedOverRuns(capacity: nat, calls: seq<Call>)
    ensures var h := Run(START, capacity, calls);
            forall i :: 0 <= i < |h.records| ==> Told(h, h.records[i])
  {
    hide Run, Told;
    ToldOnwards(START, capacity, calls);
  }

  // ---- What a resumption sends ----------------------------------------------------------

  predicate Increasing(ids: seq<PacketId>, at: map<PacketId, nat>)
  {
    forall i, j :: 0 <= i < j < |ids| ==> At(at, ids[i]) < At(at, ids[j])
  }

  function IdsOf(w: seq<Packet>): (ids: seq<PacketId>)
    ensures |ids| == |w|
  {
    seq(|w|, i requires 0 <= i < |w| => w[i].id)
  }

  predicate From(l: seq<Record>, states: set<PublishState>, id: PacketId)
  {
    exists j :: 0 <= j < |l| && l[j].state in states && l[j].packetId == id
  }

  predicate AllFrom(ids: seq<PacketId>, l: seq<Record>, states: set<PublishState>)
  {
    forall i :: 0 <= i < |ids| ==> From(l, states, ids[i])
  }

  lemma {:induction false} FromLonger(a: seq<Record>, l: seq<Record>, b: seq<Record>, states: set<PublishState>,
                                      id: PacketId)
    requires From(l, states, id)
    ensures From(a + l + b, states, id)
  {
    var j :| 0 <= j < |l| && l[j].state in states && l[j].packetId == id;
    assert (a + l + b)[|a| + j] == l[j];
  }

  lemma {:induction false} PubrelIdsStep(l: seq<Record>)
    requires l != []
    ensures var n := |l| - 1;
            IdsOf(Pubrels(l)) ==
            IdsOf(Pubrels(l[..n])) + if l[n].state in PUBREL_STATES then [l[n].packetId] else []
  {
  }

  /** One more id, of the last record. */
  lemma {:induction false} IncreasingSnoc(ids: seq<PacketId>, l: seq<Record>, states: set<PublishState>,
                                          at: map<PacketId, nat>, now: nat)
    requires l != [] && Sorted(l, states, at, now) && l[|l| - 1].state in states
    requires Increasing(ids, at) && AllFrom(ids, l[..|l| - 1], states)
    ensures Increasing(ids + [l[|l| - 1].packetId], at)
  {
    var n := |l| - 1;
    forall i | 0 <= i < |ids|
      ensures At(at, ids[i]) < At(at, l[n].packetId)
    {
      assert From(l[..n], states, ids[i]);
      var j :| 0 <= j < n && l[..n][j].state in states && l[..n][j].packetId == ids[i];
      assert l[j] == l[..n][j];
    }
  }

  lemma {:induction false} SortedPart(a: seq<Record>, l: seq<Record>, b: seq<Record>, states: set<PublishState>,
                                      at: map<PacketId, nat>, now: nat)
    requires Sorted(a + l + b, states, at, now)
    ensures Sorted(l, states, at, now)
  {
    assert forall i :: 0 <= i < |l| ==> l[i] == (a + l + b)[|a| + i];
  }

  lemma {:induction false} PubrelIds(l: seq<Record>, at: map<PacketId, nat>, now: nat)
    requires Sorted(l, PUBREL_STATES, at, now)
    ensures Increasing(IdsOf(Pubrels(l)), at) && AllFrom(IdsOf(Pubrels(l)), l, PUBREL_STATES)
  {
    hide Sorted, Increasing, From;
    if l == [] {
      assert Increasing([], at) by { NoneIncreasing(at); }
    } else {
      hide Pubrels;
      var n := |l| - 1;
      var init, ids := l[..n], IdsOf(Pubrels(l[..n]));
      assert l == [] + init + l[n..];
      SortedPart([], init, l[n..], PUBREL_STATES, at, now);
      PubrelIds(init, at, now);
      PubrelIdsStep(l);
      forall i | 0 <= i < |ids|
        ensures From(l, PUBREL_STATES, ids[i])
      {
        FromLonger([], init, l[n..], PUBREL_STATES, ids[i]);
      }
      if l[n].state in PUBREL_STATES {
        IncreasingSnoc(ids, l, PUBREL_STATES, at, now);
        FromAt(l, n, PUBREL_STATES);
      } else {
        assert ids + [] == ids;
      }
    }
  }

  lemma {:induction false} NoneIncreasing(at: map<PacketId, nat>)
    ensures Increasing([], at)
  {
  }

  lemma {:induction false} FromAt(l: seq<Record>, j: nat, states: set<PublishState>)
    requires j < |l| && l[j].state in states
    ensures From(l, states, l[j].packetId)
  {
  }

  /** One id before the others, of the first record. */
  lemma {:induction false} IncreasingCons(ids: seq<PacketId>, l: seq<Record>, states: set<PublishState>,
                                          at: map<PacketId, nat>, now: nat)
    requires l != [] && Sorted(l, states, at, now) && l[0].state in states
    requires Increasing(ids, at) && AllFrom(ids, l[1..], states)
    ensures Increasing([l[0].packetId] + ids, at)
  {
    forall i | 0 <= i < |ids|
      ensures At(at, l[0].packetId) < At(at, ids[i])
    {
      assert From(l[1..], states, ids[i]);
      var j :| 0 <= j < |l| - 1 && l[1..][j].state in states && l[1..][j].packetId == ids[i];
      assert l[j + 1] == l[1..][j];
    }
  }

  lemma {:induction false} PendingOrder(l: seq<Record>, at: map<PacketId, nat>, now: nat)
    requires Sorted(l, PUBLISH_STATES, at, now)
    ensures Increasing(PendingIds(l), at) && AllFrom(PendingIds(l), l, PUBLISH_STATES)
  {
    hide Sorted, Increasing, From;
    if l == [] {
      NoneIncreasing(at);
    } else {
      var rest, ids := l[1..], PendingIds(l[1..]);
      assert l == l[..1] + rest + [];
      SortedPart(l[..1], rest, [], PUBLISH_STATES, at, now);
      PendingOrder(rest, at, now);
      forall i | 0 <= i < |ids|
        ensures From(l, PUBLISH_STATES, ids[i])
      {
        FromLonger(l[..1], rest, [], PUBLISH_STATES, ids[i]);
      }
      if l[0].state in PUBLISH_STATES {
        IncreasingCons(ids, l, PUBLISH_STATES, at, now);
        FromAt(l, 0, PUBLISH_STATES);
      }
    }
  }

  /** After any calls from an empty list, the publishes waiting for a resend stand in
      the order they were reserved, and the PUBRELs a resumption sends are in the
      order their PUBRECs arrived. */
  lemma {:induction false} OrderOverRuns(capacity: nat, calls: seq<Call>)
    ensures var h := Run(START, capacity, calls);
            Increasing(PendingIds(h.records), h.reserved) && Increasing(IdsOf(Pubrels(h.records)), h.released)
  {
    hide Run, PendingIds, Pubrels;
    OrderedOnwards(START, capacity, calls);
    var h := Run(START, capacity, calls);
    PendingOrder(h.records, h.reserved, h.now);
    PubrelIds(h.records, h.released, h.now);
  }
}

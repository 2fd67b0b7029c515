/** The publish, acknowledgement and session steps of core_mqtt.c: what each
    does to a record list, to the wire and to the application callback. */
module QosHandlers {
  import opened Options
  import opened MqttTypes
  import opened RecordList
  import opened RecordArray
  import opened StateEngine

  /** Message contents are opaque to the QoS engine. */
  type Message = nat

  datatype Packet =
    | PublishPacket(id: PacketId, qos: QoS, message: Message, dup: bool)
    | AckPacket(ack: AckType, id: PacketId)

  datatype Handled = Handled(status: Status, records: seq<Record>, wire: seq<Packet>, delivered: seq<Message>)

  /** getAckTypeToSend */
  function AckToSend(state: PublishState): Option<AckType>
  {
    match state
    case PubAckSend => Some(Puback)
    case PubRecSend => Some(Pubrec)
    case PubRelSend => Some(Pubrel)
    case PubCompSend => Some(Pubcomp)
    case _ => None
  }

  /** sendPublishAcks; `ok` is whether the transport takes the four bytes. */
  function AckSent(l: seq<Record>, id: PacketId, state: PublishState, ok: bool): Handled
  {
    match AckToSend(state)
    case None => Handled(Success, l, [], [])
    case Some(ack) =>
      if id == 0 || !ok then Handled(SendFailed, l, [], [])
      else
        var o := AckUpdated(l, id, ack, Send);
        Handled(o.status, o.records, [AckPacket(ack, id)], [])
  }

  /** handleIncomingPublish on the incoming list. */
  function PublishHandled(l: seq<Record>, capacity: nat, id: PacketId, qos: QoS, message: Message, ok: bool): Handled
  {
    var o := PublishReceived(l, capacity, id, qos);
    if o.status == Success then
      AckSent(o.records, id, o.state, ok).(delivered := [message])
    else if o.status == StateCollision then
      AckSent(l, id, CalculateStatePublish(Receive, qos), ok)
    else
      Handled(o.status, l, [], [])
  }

  /** handlePublishAcks on the list the ack belongs to. */
  function AckHandled(l: seq<Record>, id: PacketId, ack: AckType, ok: bool): Handled
  {
    var o := AckUpdated(l, id, ack, Receive);
    if o.status == Success then AckSent(o.records, id, o.state, ok)
    else Handled(o.status, l, [], [])
  }

  /** MQTT_Publish on the outgoing list, for a message whose size is accepted. */
  function PublishCalled(l: seq<Record>, capacity: nat, id: PacketId, qos: QoS, message: Message, dup: bool,
                         ok: bool): Handled
  {
    var r := Reserved(l, capacity, id, qos);
    if r.status != Success && !(r.status == StateCollision && dup) then Handled(r.status, l, [], [])
    else if !ok then Handled(SendFailed, r.records, [], [])
    else
      var o := PublishSent(r.records, id, qos);
      Handled(if qos == QoS0 then Success else o.status, o.records, [PublishPacket(id, qos, message, dup)], [])
  }

  /** The state of a publish that has just gone out. */
  function Awaiting(qos: QoS): PublishState { if qos == QoS1 then PubAckPending else PubRecPending }

  /** What a first publish of a QoS 1 or 2 message reports and does: refused because
      the id is in use, or because every slot is taken; kept to be resent because
      the send failed; or on the wire, once. */
  predicate FirstPublish(l: seq<Record>, capacity: nat, id: PacketId, qos: QoS, message: Message, ok: bool, h: Handled)
  {
    && (h.status == StateCollision <==> HasId(l, id))
    && (h.status == NoMemory <==> !HasId(l, id) && |l| >= capacity)
    && (h.status == SendFailed <==> !HasId(l, id) && |l| < capacity && !ok)
    && (h.status == Success <==> !HasId(l, id) && |l| < capacity && ok)
    && h.wire == (if h.status == Success then [PublishPacket(id, qos, message, false)] else [])
    && h.records == (if h.status == Success then l + [Record(id, qos, Awaiting(qos))]
                     else if h.status == SendFailed then l + [Record(id, qos, PublishSend)]
                     else l)
    && h.delivered == []
  }

  lemma {:induction false} FirstPublishIs(l: seq<Record>, capacity: nat, id: PacketId, qos: QoS, message: Message,
                                          ok: bool)
    requires id != 0 && qos != QoS0
    ensures FirstPublish(l, capacity, id, qos, message, ok, PublishCalled(l, capacity, id, qos, message, false, ok))
  {
    if !HasId(l, id) && |l| < capacity {
      var r := Record(id, qos, PublishSend);
      LastIndex(l, r);
      assert (l + [r])[|l| := r.(state := Awaiting(qos))] == l + [r.(state := Awaiting(qos))];
    }
  }

  lemma {:induction false} LastIndex(l: seq<Record>, r: Record)
    requires !HasId(l, r.packetId)
    ensures IndexOf(l + [r], r.packetId) == |l|
  {
    hide IndexOf;
    var m := l + [r];
    assert m[|l|] == r && forall i :: 0 <= i < |l| ==> m[i] == l[i];
  }

  // ---- Session resumption ----------------------------------------------------

  /** The PUBRELs owed by `s`, one per record awaiting release, in order. */
  function Pubrels(s: seq<Record>): (w: seq<Packet>)
    ensures |w| <= |s|
  {
    if s == [] then []
    else
      var r := s[|s| - 1];
      Pubrels(s[..|s| - 1]) + if r.state in PUBREL_STATES then [AckPacket(Pubrel, r.packetId)] else []
  }

  /** `s` with the records awaiting release among its first `k` moved to PubCompPending. */
  function Released(s: seq<Record>, k: nat): (t: seq<Record>)
    ensures |t| == |s|
    ensures forall i :: 0 <= i < |s| ==> t[i].packetId == s[i].packetId && t[i].qos == s[i].qos
  {
    seq(|s|, i requires 0 <= i < |s| =>
      if i < k && s[i].state in PUBREL_STATES then s[i].(state := PubCompPending) else s[i])
  }

  /** The walk over slots owes exactly what the list owes. */
  lemma {:induction false} PubrelsOfLive(s: seq<Record>)
    requires FreeZeroed(s)
    ensures Pubrels(s) == Pubrels(Live(s))
  {
    if s != [] {
      PubrelsOfLive(s[..|s| - 1]);
      var l := Live(s[..|s| - 1]);
      assert (l + [s[|s| - 1]])[..|l|] == l;
    }
  }

  lemma {:induction false} PubrelsSkip(s: seq<Record>, from: nat, to: nat)
    requires from <= to <= |s|
    requires forall i :: from <= i < to ==> s[i].state !in PUBREL_STATES
    ensures Pubrels(s[..from]) == Pubrels(s[..to])
  {
    if from < to {
      PubrelsSkip(s, from, to - 1);
      assert s[..to][..to - 1] == s[..to - 1];
    }
  }

  lemma {:induction false} ReleasedStep(s: seq<Record>, k: nat)
    requires k < |s| && s[k].state in PUBREL_STATES
    ensures Released(s, k)[k := s[k].(state := PubCompPending)] == Released(s, k + 1)
    ensures Released(s, k)[k] == s[k]
    ensures Pubrels(s[..k + 1]) == Pubrels(s[..k]) + [AckPacket(Pubrel, s[k].packetId)]
  {
    assert s[..k + 1][..k] == s[..k];
  }

  /** Slots in no PUBREL state are passed over without effect. */
  lemma {:induction false} SkipTo(s: seq<Record>, from: nat, to: nat)
    requires from <= to <= |s|
    requires forall i :: from <= i < to ==> s[i].state !in PUBREL_STATES
    ensures Released(s, from) == Released(s, to)
    ensures Pubrels(s[..from]) == Pubrels(s[..to])
  {
    PubrelsSkip(s, from, to);
  }

  /** With distinct live ids, an id is found in its own slot, and its list entry is that record. */
  lemma {:induction false} IdAtSlot(s: seq<Record>, k: nat)
    requires k < |s| && IsLive(s[k]) && Distinct(Live(s))
    ensures IndexOf(s, s[k].packetId) == k
    ensures var l, id := Live(s), s[k].packetId; IndexOf(l, id) < |l| && l[IndexOf(l, id)] == s[k]
  {
    hide Live;
    var id := s[k].packetId;
    var l, p := Live(s), |Live(s[..k])|;
    LiveAround(s, k);
    assert l[p] == s[k];
    assert forall i :: 0 <= i < p ==> Live(s[..k])[i] == l[i] && l[i].packetId != l[p].packetId;
    LiveHasId(s[..k], id);
    assert forall i :: 0 <= i < k ==> s[..k][i] == s[i];
    LiveIndex(s, k, id);
  }

  /** The next slot to release, from `done` on, is what the last stateSelect returned. */
  ghost predicate AtNext(s: seq<Record>, done: nat, id: PacketId, cursor: nat)
    requires done <= |s|
  {
    var k := NextIn(s, PUBREL_STATES, done);
    if k < |s| then id == s[k].packetId && id != 0 && cursor == k + 1 else id == 0 && cursor == |s|
  }

  lemma {:induction false} NothingWalked(s: seq<Record>)
    ensures Released(s, 0) == s && Pubrels(s[..0]) == []
  {
  }

  lemma {:induction false} NothingLeft(s: seq<Record>, done: nat, cursor: nat)
    requires done <= |s| && AtNext(s, done, 0, cursor)
    ensures Released(s, done) == Released(s, |s|) && Pubrels(s[..done]) == Pubrels(s[..|s|])
  {
    SkipTo(s, done, |s|);
  }

  lemma {:induction false} NextInReleased(s: seq<Record>, done: nat, from: nat)
    requires done <= from <= |s|
    ensures NextIn(Released(s, done), PUBREL_STATES, from) == NextIn(s, PUBREL_STATES, from)
    decreases |s| - from
  {
    if from < |s| {
      NextInReleased(s, done, from + 1);
    }
  }

  /** On the list, walking k slots is walking the live records among them. */
  lemma {:induction false} ResumedOnList(s: seq<Record>, k: nat)
    requires FreeZeroed(s) && k <= |s|
    ensures var p := |Live(s[..k])|;
            && p <= |Live(s)|
            && Live(Released(s, k)) == Released(Live(s), p)
            && Pubrels(s[..k]) == Pubrels(Live(s)[..p])
  {
    hide Live, Pubrels;
    var a, b := s[..k], s[k..];
    assert s == a + b;
    LiveAppend(a, b);
    PubrelsOfLive(a);
    assert Live(s)[..|Live(a)|] == Live(a);
    assert Released(s, k) == Released(a, k) + b;
    LiveAppend(Released(a, k), b);
    ReleasedOfLive(a);
    assert Released(Live(a) + Live(b), |Live(a)|) == Released(Live(a), |Live(a)|) + Live(b);
  }

  lemma {:induction false} ReleasedOfLive(s: seq<Record>)
    requires FreeZeroed(s)
    ensures Live(Released(s, |s|)) == Released(Live(s), |Live(s)|)
  {
    if s != [] {
      var c := s[..|s| - 1];
      ReleasedOfLive(c);
      assert Released(s, |s|)[..|s| - 1] == Released(c, |c|);
      assert IsLive(s[|s| - 1]) ==> Released(Live(s), |Live(s)|)[..|Live(c)|] == Released(Live(c), |Live(c)|);
    }
  }

  /** The first n sends work. */
  predicate AllWork(n: nat, ok: nat -> bool) { forall i :: 0 <= i < n ==> ok(i) }

  /** What a resumption did to the slots and the wire: the first k slots were
      walked, every send up to there worked, and it stopped there only at the end
      or at a failed send. */
  ghost predicate Resumed(was: seq<Record>, now: seq<Record>, wireWas: seq<Packet>, wireNow: seq<Packet>,
                          status: Status, k: nat, ok: nat -> bool)
  {
    && k <= |was|
    && now == Released(was, k)
    && wireNow == wireWas + Pubrels(was[..k])
    && AllWork(|Pubrels(was[..k])|, ok)
    && (status == Success ==> k == |was|)
    && (status != Success ==>
          status == SendFailed && k < |was| && was[k].state in PUBREL_STATES && !ok(|Pubrels(was[..k])|))
  }

  /** Fewer PUBRELs are due before a slot that is due one than in all. */
  lemma {:induction false} PubrelsBefore(s: seq<Record>, k: nat)
    requires k < |s| && s[k].state in PUBREL_STATES
    ensures |Pubrels(s[..k])| < |Pubrels(s)|
    decreases |s|
  {
    var n := |s| - 1;
    if k < n {
      PubrelsBefore(s[..n], k);
      assert s[..n][..k] == s[..k];
    }
  }

  /** Same ids and same pending publishes, slot by slot. */
  predicate SameShape(a: seq<Record>, b: seq<Record>)
  {
    && |a| == |b|
    && forall i :: 0 <= i < |a| ==>
         a[i].packetId == b[i].packetId && (a[i].state in PUBLISH_STATES <==> b[i].state in PUBLISH_STATES)
  }

  class Client {
    const engine: Engine
    var wire: seq<Packet>
    var delivered: seq<Message>

    ghost predicate Valid()
      reads this, engine, engine.outgoing, engine.incoming
    {
      engine.Valid()
    }

    constructor (outgoingCount: nat, incomingCount: nat)
      requires outgoingCount > 0 && incomingCount > 0
      ensures Valid() && fresh(engine) && fresh(engine.outgoing) && fresh(engine.incoming)
      ensures engine.Out() == [] && engine.In() == [] && wire == [] && delivered == []
    {
      engine := new Engine(outgoingCount, incomingCount);
      wire, delivered := [], [];
    }

    method SendPublishAcks(id: PacketId, state: PublishState, ok: bool) returns (status: Status)
      requires Valid()
      modifies this, engine.outgoing, engine.incoming
      ensures Valid() && delivered == old(delivered)
      ensures state == PubRelSend ==>
                var h := AckSent(old(engine.Out()), id, state, ok);
                unchanged(engine.incoming) && status == h.status && engine.Out() == h.records
                    && wire == old(wire) + h.wire
      ensures state != PubRelSend ==>
                var h := AckSent(old(engine.In()), id, state, ok);
                unchanged(engine.outgoing) && status == h.status && engine.In() == h.records
                    && wire == old(wire) + h.wire
      ensures AckToSend(state) == None ==> unchanged(engine.outgoing) && unchanged(engine.incoming)
      ensures !ok ==> engine.outgoing[..] == old(engine.outgoing[..])
      ensures state == PubRelSend && status == Success ==>
                var k := old(IndexOf(engine.outgoing[..], id));
                && k < engine.outgoing.Length
                && engine.outgoing[..] ==
                   old(engine.outgoing[..])[k := old(engine.outgoing[..])[k].(state := PubCompPending)]
    {
      var ack := AckToSend(state);
      if ack == None {
        return Success;
      }
      if id == 0 || !ok {
        return SendFailed;
      }
      wire := wire + [AckPacket(ack.value, id)];
      var newState;
      status, newState := engine.UpdateStateAck(id, ack.value, Send);
    }

    method HandleIncomingPublish(id: PacketId, qos: QoS, message: Message, ok: bool) returns (status: Status)
      requires Valid()
      modifies this, engine.outgoing, engine.incoming
      ensures Valid() && unchanged(engine.outgoing)
      ensures var h := PublishHandled(old(engine.In()), engine.incoming.Length, id, qos, message, ok);
              && status == h.status && engine.In() == h.records
              && wire == old(wire) + h.wire && delivered == old(delivered) + h.delivered
    {
      var state, duplicate := StateNull, false;
      status, state := engine.PublishWasReceived(id, qos);
      if status == StateCollision {
        status, duplicate := Success, true;
        state := CalculateStatePublish(Receive, qos);
      }
      if status == Success {
        if !duplicate {
          delivered := delivered + [message];
        }
        status := SendPublishAcks(id, state, ok);
      }
    }

    method HandlePublishAcks(id: PacketId, ack: AckType, ok: bool) returns (status: Status)
      requires Valid()
      modifies this, engine.outgoing, engine.incoming
      ensures Valid() && delivered == old(delivered)
      ensures ack != Pubrel ==>
                var h := AckHandled(old(engine.Out()), id, ack, ok);
                && unchanged(engine.incoming)
                && status == h.status && engine.Out() == h.records && wire == old(wire) + h.wire
      ensures ack == Pubrel ==>
                var h := AckHandled(old(engine.In()), id, ack, ok);
                && unchanged(engine.outgoing)
                && status == h.status && engine.In() == h.records && wire == old(wire) + h.wire
    {
      hide Live, IndexOf, Engine.Valid, Engine.Out, Engine.In;
      var state;
      status, state := engine.UpdateStateAck(id, ack, Receive);
      if status == Success {
        status := SendPublishAcks(id, state, ok);
      }
    }

    method Publish(id: PacketId, qos: QoS, message: Message, dup: bool, ok: bool) returns (status: Status)
      requires Valid()
      modifies this, engine.outgoing
      ensures Valid() && delivered == old(delivered)
      ensures var h := PublishCalled(old(engine.Out()), engine.outgoing.Length, id, qos, message, dup, ok);
              status == h.status && engine.Out() == h.records && wire == old(wire) + h.wire
      ensures !dup && qos != QoS0 && id != 0 ==>
                && old(wire) <= wire
                && FirstPublish(old(engine.Out()), engine.outgoing.Length, id, qos, message, ok,
                                Handled(status, engine.Out(), wire[|old(wire)|..], []))
      ensures qos == QoS0 ==>
                && status == (if ok then Success else SendFailed) && engine.Out() == old(engine.Out())
                && wire == old(wire) + if ok then [PublishPacket(id, QoS0, message, dup)] else []
      ensures dup && qos != QoS0 && id != 0 && HasId(old(engine.Out()), id) ==>
                SameShape(engine.outgoing[..], Roomy(old(engine.outgoing[..])))
    {
      if !dup && qos != QoS0 && id != 0 {
        FirstPublishIs(engine.Out(), engine.outgoing.Length, id, qos, message, ok);
      }
      ghost var was := engine.outgoing[..];
      status := engine.ReserveState(id, qos);
      if status == StateCollision && dup {
        status := Success;
      }
      if status != Success {
        return;
      }
      if !ok {
        return SendFailed;
      }
      wire := wire + [PublishPacket(id, qos, message, dup)];
      if qos != QoS0 {
        var newState;
        status, newState := engine.PublishWasSent(id, qos);
      }
    }

    /** One resend of the PUBREL for the record in slot k. */
    method ReleaseSlot(ghost was: seq<Record>, ghost k: nat, id: PacketId, ok: bool) returns (status: Status)
      requires Valid() && k < |was| && engine.outgoing[..] == Released(was, k)
      requires id == was[k].packetId && id != 0 && was[k].state in PUBREL_STATES
      modifies this, engine.outgoing, engine.incoming
      ensures Valid() && unchanged(engine.incoming) && delivered == old(delivered)
      ensures status == if ok then Success else SendFailed
      ensures engine.outgoing[..] == Released(was, if ok then k + 1 else k)
      ensures wire == old(wire) + if ok then [AckPacket(Pubrel, id)] else []
    {
      hide Live, IndexOf;
      ReleasedStep(was, k);
      IdAtSlot(engine.outgoing[..], k);
      status := SendPublishAcks(id, PubRelSend, ok);
    }

    /** The slots before `done` have been walked, starting from slots `was` and wire `w`. */
    ghost predicate Walked(was: seq<Record>, w: seq<Packet>, done: nat)
      reads this, engine, engine.outgoing, engine.incoming
    {
      && Valid() && done <= |was|
      && engine.outgoing[..] == Released(was, done)
      && wire == w + Pubrels(was[..done])
    }

    /** One turn of the PUBREL loop: send for the slot just before the cursor, then look for the next. */
    method ResumeStep(ghost was: seq<Record>, ghost w: seq<Packet>, ghost done: nat, id: PacketId, cursor: nat,
                      ok: bool)
      returns (status: Status, nextId: PacketId, next: nat)
      requires Walked(was, w, done) && id != 0 && AtNext(was, done, id, cursor)
      modifies this, engine.outgoing, engine.incoming
      ensures unchanged(engine.incoming) && delivered == old(delivered)
      ensures done < cursor <= next <= |was|
      ensures was[cursor - 1].state in PUBREL_STATES
      ensures Pubrels(was[..cursor - 1]) == Pubrels(was[..done])
      ensures |Pubrels(was[..cursor])| == |Pubrels(was[..done])| + 1
      ensures status == if ok then Success else SendFailed
      ensures Walked(was, w, if ok then cursor else cursor - 1)
      ensures ok ==> AtNext(was, cursor, nextId, next)
    {
      ghost var k := cursor - 1;
      SkipTo(was, done, k);
      ReleasedStep(was, k);
      status := ReleaseSlot(was, k, id, ok);
      assert ok ==> wire == w + Pubrels(was[..cursor]);
      NextInReleased(was, if ok then cursor else k, cursor);
      nextId, next := engine.StateSelect(PUBREL_STATES, cursor);
    }

    /** The PUBREL loop of handleSessionResumption; `ok(n)` is the outcome of
        the n-th send. PUBRELs go out in record order, each once, until the
        first failed send, and no record moves. */
    method ResendPubrels(ok: nat -> bool) returns (status: Status)
      requires Valid()
      modifies this, engine.outgoing, engine.incoming
      ensures Valid() && unchanged(engine.incoming) && delivered == old(delivered)
      ensures exists k :: Resumed(old(engine.outgoing[..]), engine.outgoing[..], old(wire), wire, status, k, ok)
      ensures status == Success <==> AllWork(|Pubrels(old(engine.outgoing[..]))|, ok)
    {
      hide Pubrels, Released, NextIn, Live, Engine.Valid;
      ghost var was, w, done := engine.outgoing[..], wire, 0;
      var sends := 0;
      status := Success;
      NothingWalked(was);
      var id, cursor := engine.StateSelect(PUBREL_STATES, 0);
      while id != 0 && status == Success
        invariant Walked(was, w, done)
        invariant unchanged(engine.incoming) && delivered == old(delivered)
        invariant status == Success ==> sends == |Pubrels(was[..done])| && AtNext(was, done, id, cursor)
        invariant status == Success ==> AllWork(sends, ok)
        invariant status != Success ==> Resumed(was, engine.outgoing[..], w, wire, status, done, ok)
        decreases |was| - done, if status == Success then 1 else 0
      {
        var at := cursor;
        status, id, cursor := ResumeStep(was, w, done, id, at, ok(sends));
        done := if status == Success then at else at - 1;
        sends := sends + 1;
      }
      if status == Success {
        NothingLeft(was, done, cursor);
        assert Resumed(was, engine.outgoing[..], w, wire, status, |was|, ok);
        assert was[..|was|] == was;
      } else {
        PubrelsBefore(was, done);
      }
    }

    /** handleSessionResumption: resend PUBRELs, or clear both arrays. */
    method HandleSessionResumption(sessionPresent: bool, ok: nat -> bool) returns (status: Status)
      requires Valid()
      modifies this, engine.outgoing, engine.incoming
      ensures Valid() && delivered == old(delivered)
      ensures sessionPresent ==>
                && unchanged(engine.incoming)
                && (exists k :: Resumed(old(engine.outgoing[..]), engine.outgoing[..], old(wire), wire, status, k, ok))
                && (status == Success <==> AllWork(|Pubrels(old(engine.outgoing[..]))|, ok))
      ensures !sessionPresent ==> status == Success && engine.Out() == [] && engine.In() == [] && wire == old(wire)
    {
      if sessionPresent {
        status := ResendPubrels(ok);
      } else {
        status := Success;
        forall i | 0 <= i < engine.outgoing.Length { engine.outgoing[i] := FREE; }
        forall i | 0 <= i < engine.incoming.Length { engine.incoming[i] := FREE; }
        LiveNone(engine.outgoing[..]);
        LiveNone(engine.incoming[..]);
      }
    }
  }
}

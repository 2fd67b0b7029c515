/** Why the protocol lets a QoS 1 PUBLISH be resent only once per connection: a run
    in which a second resend makes a message count as completed that was never
    delivered. */
module QosResendLimit {
  import opened MqttTypes
  import opened Qos2Protocol
  import opened QosHandlers
  import opened RecordList

  const ONE := Record(1, QoS1, PubAckPending)

  lemma {:induction false} OnePublished(s: Net, dup: bool)
    requires if dup then s.out == [ONE] && 1 in s.table else s.out == [] && s.outCapacity == 1
    ensures var step := if dup then Resend(1, true) else PublishNew(1, QoS1, true);
            && Possible(s, step)
            && var t := Next(s, step);
               && t.out == [ONE] && t.inc == s.inc && t.toSender == s.toSender
               && t.outCapacity == s.outCapacity && t.incCapacity == s.incCapacity
               && t.delivered == s.delivered && t.completed == s.completed
               && t.published == s.published + (if dup then [] else [QoS1])
               && t.table == (if dup then s.table else s.table[1 := |s.published|])
               && t.toReceiver == s.toReceiver + [PublishPacket(1, QoS1, t.table[1], dup)]
  {
    OneRecord(ONE);
    OneRecord(Record(1, QoS1, PublishSend));
    assert !HasId([], 1);
  }

  lemma {:induction false} OneReceived(s: Net)
    requires s.inc == [] && s.incCapacity == 1 && s.toReceiver != []
    requires s.toReceiver[0].PublishPacket? && s.toReceiver[0].id == 1 && s.toReceiver[0].qos == QoS1
    ensures Possible(s, ReceiverTakes(true))
    ensures Next(s, ReceiverTakes(true)) ==
            s.(toReceiver := s.toReceiver[1..], toSender := s.toSender + [AckPacket(Puback, 1)],
               delivered := s.delivered + [s.toReceiver[0].message])
  {
    ReceiverTable(1, 1, s.toReceiver[0].message, true);
  }

  lemma {:induction false} OneCompleted(s: Net)
    requires s.out == [ONE] && 1 in s.table && s.toSender == [AckPacket(Puback, 1)]
    ensures Possible(s, SenderTakes(true))
    ensures var t := Next(s, SenderTakes(true));
            && t.out == [] && t.toSender == [] && t.completed == s.completed + {s.table[1]}
            && t.toReceiver == s.toReceiver && t.inc == s.inc && t.delivered == s.delivered
            && t.published == s.published
            && t.outCapacity == s.outCapacity && t.incCapacity == s.incCapacity
  {
    SenderTable(1, true);
    OneRecord(ONE);
    assert !HasId([], 1);
  }

  /** Sent twice on one connection, a QoS 1 message is acknowledged twice, and
      the second PUBACK completes the next message to use the id although that
      one was never delivered. */
  lemma {:induction false} SecondResendLosesMessage() returns (steps: seq<Step>, t: Net, m: Message)
    ensures PossiblyReaches(Start(1, 1), steps, t) && m in t.completed && m !in t.delivered
  {
    hide Next, Possible;
    var p, r, w, a := PublishNew(1, QoS1, true), Resend(1, true), ReceiverTakes(true), SenderTakes(true);
    var s0 := Start(1, 1);
    OnePublished(s0, false);
    var s1 := Next(s0, p);
    OnePublished(s1, true);
    var s2 := Next(s1, r);
    OneReceived(s2);
    var s3 := Next(s2, w);
    OneCompleted(s3);
    var s4 := Next(s3, a);
    OnePublished(s4, false);
    var s5 := Next(s4, p);
    OneReceived(s5);
    var s6 := Next(s5, w);
    OneCompleted(s6);
    var s7 := Next(s6, a);
    RunStep(s6, a, [], s7);
    RunStep(s5, w, [a], s7);
    RunStep(s4, p, [w, a], s7);
    RunStep(s3, a, [p, w, a], s7);
    RunStep(s2, w, [a, p, w, a], s7);
    RunStep(s1, r, [w, a, p, w, a], s7);
    RunStep(s0, p, [r, w, a, p, w, a], s7);
    assert s7.delivered == [0, 0];
    return [p] + [r, w, a, p, w, a], s7, 1;
  }

  ghost predicate PossiblyReaches(s: Net, steps: seq<Step>, t: Net)
    decreases |steps|
  {
    if steps == [] then s == t
    else Possible(s, steps[0]) && PossiblyReaches(Next(s, steps[0]), steps[1..], t)
  }

  lemma {:induction false} RunStep(s: Net, step: Step, rest: seq<Step>, t: Net)
    requires Possible(s, step) && PossiblyReaches(Next(s, step), rest, t)
    ensures PossiblyReaches(s, [step] + rest, t)
  {
    assert ([step] + rest)[1..] == rest;
  }
}

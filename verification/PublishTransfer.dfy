/** Publishes from one end to the other: sent without copying, received in pieces of
    any size, and parsed. */
module PublishTransfer {
  import opened ByteSeq
  import opened MqttTypes
  import opened PacketCodec
  import opened PacketStream
  import opened RemainingLength
  import opened VectorSend
  import opened ZeroCopy

  datatype Message = Message(info: PublishInfo, id: U16)

  predicate CanSend(m: Message) { Sendable(m.info, m.id) && |PublishBody(m.info, m.id)| <= MAX_REMAINING_LENGTH }

  function FrameOf(m: Message): Frame { Frame(PublishFlags(m.info), PublishBody(m.info, m.id)) }

  function Frames(ms: seq<Message>): (ps: seq<Frame>)
    ensures |ps| == |ms|
  {
    seq(|ms|, i requires 0 <= i < |ms| => FrameOf(ms[i]))
  }

  /** A serialized PUBLISH is a packet the receiver knows. */
  lemma {:induction false} PublishIsFrame(m: Message)
    requires CanSend(m)
    ensures PublishBytes(m.info, m.id) == FrameBytes(FrameOf(m)) && WellFormed(FrameOf(m))
  {
    hide Encoded, PublishBody;
    assert PublishFlags(m.info) / 16 == 3;
  }

  /** What the application gets for a message: a QoS 0 publish has no id. */
  function FieldsOf(m: Message): Parsed { Parsed.Publish(m.info, if m.info.qos == QoS0 then 0 else m.id) }

  /** The messages whose packet fits a buffer of `size` bytes. */
  function Small(ms: seq<Message>, size: nat): seq<Message>
  {
    if ms == [] then []
    else
      var n := |ms| - 1;
      Small(ms[..n], size) + if |PublishBytes(ms[n].info, ms[n].id)| <= size then [ms[n]] else []
  }

  function Parses(ps: seq<Frame>): (r: seq<Parsed>)
    ensures |r| == |ps|
  {
    seq(|ps|, i requires 0 <= i < |ps| => ParsePublish(ps[i].first, ps[i].body))
  }

  function AllFields(ms: seq<Message>): (r: seq<Parsed>)
    ensures |r| == |ms|
  {
    seq(|ms|, i requires 0 <= i < |ms| => FieldsOf(ms[i]))
  }

  predicate AllCanSend(ms: seq<Message>) { forall i :: 0 <= i < |ms| ==> CanSend(ms[i]) }

  /** The packets that fit parse back to the messages that fit. */
  lemma {:induction false} FittingParses(ms: seq<Message>, size: nat)
    requires AllCanSend(ms)
    ensures Parses(Fitting(Frames(ms), size)) == AllFields(Small(ms, size))
  {
    hide FrameBytes, PublishBytes, ParsePublish, PublishBody, PublishFlags;
    if ms != [] {
      var n := |ms| - 1;
      FittingParses(ms[..n], size);
      assert Frames(ms)[..n] == Frames(ms[..n]);
      PublishIsFrame(ms[n]);
      ParseInvertsBody(ms[n].info, ms[n].id);
      var f, m, p := Fitting(Frames(ms[..n]), size), Small(ms[..n], size), FrameOf(ms[n]);
      assert Parses(f + [p]) == Parses(f) + [ParsePublish(p.first, p.body)];
      assert AllFields(m + [ms[n]]) == AllFields(m) + [FieldsOf(ms[n])];
      assert f + [] == f && m + [] == m;
    }
  }

  lemma {:induction false} StreamSnoc(ps: seq<Frame>, p: Frame)
    ensures Stream(ps + [p]) == Stream(ps) + FrameBytes(p)
  {
    hide FrameBytes;
    if ps == [] {
      assert ps + [p] == [p] && Stream([p][1..]) == [];
      assert FrameBytes(p) + [] == FrameBytes(p) == [] + FrameBytes(p);
    } else {
      StreamSnoc(ps[1..], p);
      assert (ps + [p])[1..] == ps[1..] + [p];
      var a, b, c := FrameBytes(ps[0]), Stream(ps[1..]), FrameBytes(p);
      assert a + (b + c) == a + b + c;
    }
  }

  /** One publish after another, until one fails. */
  method PublishAll(t: Transport, ms: seq<Message>, hasWritev: bool) returns (ok: bool)
    requires AllCanSend(ms)
    modifies t
    ensures ok ==> t.wire == old(t.wire) + Stream(Frames(ms))
    ensures !ok ==> t.failures > old(t.failures) || t.now >= old(t.now) + SEND_TIMEOUT_MS
  {
    hide Stream, PublishBytes, PublishBody, FrameBytes, Gained;
    ok := true;
    var i := 0;
    assert t.wire + Stream(Frames(ms)[..0]) == t.wire by { NoFrames(Frames(ms)); }
    while i < |ms|
      invariant 0 <= i <= |ms| && ok && t.failures == old(t.failures) && t.now >= old(t.now)
      invariant t.wire == old(t.wire) + Stream(Frames(ms)[..i])
    {
      PublishIsFrame(ms[i]);
      StreamSnoc(Frames(ms)[..i], FrameOf(ms[i]));
      assert Frames(ms)[..i + 1] == Frames(ms)[..i] + [FrameOf(ms[i])];
      ghost var sent, bytes := Stream(Frames(ms)[..i]), FrameBytes(FrameOf(ms[i]));
      assert old(t.wire) + sent + bytes == old(t.wire) + (sent + bytes);
      var status := SendPublishWithoutCopy(t, ms[i].info, ms[i].id, hasWritev);
      if status != Success {
        return false;
      }
      i := i + 1;
    }
    assert Frames(ms)[..i] == Frames(ms);
  }

  lemma {:induction false} NoFrames(ps: seq<Frame>)
    ensures Stream(ps[..0]) == []
  {
  }

  /** Everything that went out is received: whatever the chunks, and as long as no
      read fails, the first k messages that fit the buffer have come out with their
      fields, in order, and once the stream is used up that is all of them. */
  method Transfer(t: Transport, ms: seq<Message>, size: nat, polls: nat, rounds: nat, hasWritev: bool)
    returns (sent: bool, r: Receiver, received: seq<Parsed>, ghost k: nat)
    requires AllCanSend(ms) && size >= 5
    modifies t
    ensures !sent ==> t.failures > old(t.failures) || t.now >= old(t.now) + SEND_TIMEOUT_MS
    ensures sent && r.source.failures == 0 ==> k <= |ms| && received == AllFields(Small(ms[..k], size))
    ensures sent && r.source.failures == 0 && r.index == 0 && r.source.pending == [] ==>
              received == AllFields(Small(ms, size))
  {
    hide Stream, Fitting, FrameBytes, Parses, AllFields, Small, PublishBytes;
    var before := |t.wire|;
    sent := PublishAll(t, ms, hasWritev);
    var link := if before <= |t.wire| then t.wire[before..] else [];
    var source := new Source(link, polls);
    r := new Receiver(size, source);
    received, k := [], 0;
    if sent {
      ghost var ps := Frames(ms);
      assert r.buffer[..0] + link == Stream(ps[0..]) + [] by { assert ps[0..] == ps && [] + link == link; }
      assert r.Synced(ps, [], 0) by { AllWellFormed(ms); NoneFit(ps, size); }
      var inSync, bad;
      k, inSync, bad := ReceiveLoop(r, rounds, ps, []);
      received := Parses(r.handled);
      if inSync {
        assert ps[..k] == Frames(ms[..k]);
        FittingParses(ms[..k], size);
        FittingParses(ms, size);
      }
    }
  }

  lemma {:induction false} AllWellFormed(ms: seq<Message>)
    requires AllCanSend(ms)
    ensures forall p :: p in Frames(ms) ==> WellFormed(p)
  {
    forall i | 0 <= i < |ms|
      ensures WellFormed(Frames(ms)[i])
    {
      PublishIsFrame(ms[i]);
    }
  }

  lemma {:induction false} NoneFit(ps: seq<Frame>, size: nat)
    ensures Fitting(ps[..0], size) == []
  {
  }
}

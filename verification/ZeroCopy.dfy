/** The send paths of core_mqtt.c that gather a packet from the caller's own
    buffers instead of copying it: each puts on the wire exactly the bytes the
    copying serializer writes, or a prefix of them when it fails. */
module ZeroCopy {
  import opened ByteSeq
  import opened MqttTypes
  import opened Options
  import opened PacketCodec
  import opened RemainingLength
  import opened VectorSend

  /** What a send owes its caller: everything on success, and otherwise a
      prefix, with a failed write or a timeout during this call to blame. */
  twostate predicate Owed(t: Transport, status: Status, packet: seq<Byte>)
    reads t
  {
    && Gained(old(t.wire), t.wire, packet) && t.now >= old(t.now)
    && (status == Success ==> t.wire == old(t.wire) + packet && t.failures == old(t.failures))
    && (status != Success ==>
          status == SendFailed && (t.failures > old(t.failures) || t.now >= old(t.now) + SEND_TIMEOUT_MS))
  }

  /** Store one vector after the first `at`. */
  method Store(vec: array<seq<Byte>>, at: nat, bytes: seq<Byte>)
    requires at < vec.Length
    modifies vec
    ensures vec[..at] == old(vec[..at])
    ensures Flat(vec[..at + 1]) == Flat(old(vec[..at])) + bytes
  {
    vec[at] := bytes;
    FlatSnoc(vec[..at], bytes);
    assert vec[..at + 1] == vec[..at] + [bytes];
  }

  /** addEncodedStringToVector: the two length bytes, then the string unless it is empty. */
  method AddEncodedString(vec: array<seq<Byte>>, at: nat, s: Text) returns (added: nat)
    requires at + 1 < vec.Length
    modifies vec
    ensures 1 <= added <= 2
    ensures Flat(vec[..at + added]) == Flat(old(vec[..at])) + EncodedString(s)
  {
    hide Flat;
    ghost var before := Flat(vec[..at]);
    Store(vec, at, BigEndian(|s|));
    added := 1;
    if s != [] {
      Store(vec, at + 1, s);
      added := 2;
    }
    assert before + BigEndian(|s|) + s == before + EncodedString(s);
  }

  method SendAll(t: Transport, vec: array<seq<Byte>>, count: nat, total: nat, hasWritev: bool) returns (status: Status)
    requires 0 < count <= vec.Length && total == |Flat(vec[..count])|
    modifies t, vec
    ensures Owed(t, status, Flat(old(vec[..count])))
  {
    var sent := SendMessageVector(t, vec, count, hasWritev);
    status := if sent != total then SendFailed else Success;
  }

  /** sendPublishWithoutCopy, after MQTT_SerializePublishHeaderWithoutTopic. */
  method SendPublishWithoutCopy(t: Transport, info: PublishInfo, id: U16, hasWritev: bool) returns (status: Status)
    requires |PublishBody(info, id)| <= MAX_REMAINING_LENGTH
    modifies t
    ensures Owed(t, status, PublishBytes(info, id))
  {
    hide Flat, Encoded;
    var length := |PublishBody(info, id)|;
    var header := [PublishFlags(info)] + Encoded(length) + BigEndian(|info.topic|);
    var vec := new seq<Byte>[4](_ => []);
    assert Flat(vec[..0]) == [] by { FlatNone(vec[..0]); }
    Store(vec, 0, header);
    Store(vec, 1, info.topic);
    var count, total := 2, |header| + |info.topic|;
    if info.qos != QoS0 {
      Store(vec, count, BigEndian(id));
      count, total := count + 1, total + 2;
    }
    if |info.payload| > 0 {
      Store(vec, count, info.payload);
      count, total := count + 1, total + |info.payload|;
    }
    assert Flat(vec[..count]) == header + info.topic + IdBytes(info, id) + info.payload;
    PublishJoins(info, id);
    status := SendAll(t, vec, count, total, hasWritev);
  }

  /** The vectors of a PUBLISH join up to its bytes. */
  lemma {:induction false} PublishJoins(info: PublishInfo, id: U16)
    ensures var header := [PublishFlags(info)] + Encoded(|PublishBody(info, id)|) + BigEndian(|info.topic|);
            header + info.topic + IdBytes(info, id) + info.payload == PublishBytes(info, id)
  {
    hide Encoded, IdBytes, PublishFlags, BigEndian;
    var a, b, c := [PublishFlags(info)], Encoded(|PublishBody(info, id)|), BigEndian(|info.topic|);
    assert a + b + c + info.topic + IdBytes(info, id) + info.payload ==
           a + b + (c + info.topic + IdBytes(info, id) + info.payload);
  }

  lemma {:induction false} FlatNone(v: seq<seq<Byte>>)
    requires v == []
    ensures Flat(v) == []
  {
  }

  /** Part of a packet has gone; the next part was attempted. */
  lemma {:induction false} GainedMore(start: seq<Byte>, done: seq<Byte>, now: seq<Byte>, pending: seq<Byte>,
                                      whole: seq<Byte>)
    requires Gained(start + done, now, pending) && done + pending <= whole
    ensures Gained(start, now, whole)
  {
    var more := now[|start + done|..];
    assert now == start + (done + more);
    assert done + more <= done + pending;
  }

  /** One subscription's vectors, appended after the first `count`. */
  method AddEntry(vec: array<seq<Byte>>, count: nat, s: Subscription, subscribe: bool) returns (added: nat)
    requires count + (if subscribe then 3 else 2) <= vec.Length
    modifies vec
    ensures 1 <= added <= if subscribe then 3 else 2
    ensures Flat(vec[..count + added]) == Flat(old(vec[..count])) + Entry(s, subscribe)
  {
    hide Flat;
    ghost var before := Flat(vec[..count]);
    added := AddEncodedString(vec, count, s.filter);
    if subscribe {
      Store(vec, count + added, [QosByte(s.qos)]);
      added := added + 1;
      assert before + EncodedString(s.filter) + [QosByte(s.qos)] == before + Entry(s, subscribe);
    }
  }

  /** The inner loop: as many entries as fit, after the vectors already held. */
  method FillBatch(vec: array<seq<Byte>>, list: seq<Subscription>, from: nat, held: nat, before: nat, subscribe: bool,
                   ghost done: seq<Byte>, ghost header: seq<Byte>)
    returns (count: nat, i: nat, total: nat)
    requires from < |list| && held <= 1 && vec.Length >= (if subscribe then 3 else 2)
    requires before == |Flat(vec[..held])|
    requires done + Flat(vec[..held]) == header + Entries(list[..from], subscribe)
    modifies vec
    ensures 0 < count <= vec.Length && from <= i <= |list| && total == |Flat(vec[..count])|
    ensures held == 0 ==> i > from
    ensures done + Flat(vec[..count]) == header + Entries(list[..i], subscribe)
  {
    hide Flat, Entries, Entry;
    var slots := if subscribe then 3 else 2;
    count, i, total := held, from, before;
    while count <= vec.Length - slots && i < |list|
      invariant 0 <= count <= vec.Length && from <= i <= |list|
      invariant i == from ==> count == held
      invariant i > from ==> count > 0
      invariant total == |Flat(vec[..count])|
      invariant done + Flat(vec[..count]) == header + Entries(list[..i], subscribe)
    {
      EntriesStep(header, list, i, subscribe);
      ghost var pending := Flat(vec[..count]);
      var added := AddEntry(vec, count, list[i], subscribe);
      assert done + (pending + Entry(list[i], subscribe)) == done + pending + Entry(list[i], subscribe);
      total := total + |Entry(list[i], subscribe)|;
      count, i := count + added, i + 1;
    }
  }

  /** sendSubscribeWithoutCopy and sendUnsubscribeWithoutCopy: the packet goes
      out in batches of at most `maxVectors` vectors; the arrays are never
      overrun, and for any limit that holds one entry the batches join up to
      the serialized packet. */
  method SendSubscriptionsWithoutCopy(t: Transport, list: seq<Subscription>, id: U16, remainingLength: nat,
                                      maxVectors: nat, subscribe: bool, hasWritev: bool) returns (status: Status)
    requires list != [] && remainingLength == 2 + |Entries(list, subscribe)|
    requires maxVectors >= if subscribe then 3 else 2
    modifies t
    ensures Owed(t, status, SubscriptionBytes(list, id, subscribe))
  {
    hide Flat, Encoded, Entries, Entry, Gained, SubscriptionHeader;
    var header := SubscriptionHeader(remainingLength, id, subscribe);
    var vec := new seq<Byte>[maxVectors](_ => []);
    ghost var start, began, whole, done := t.wire, t.now, SubscriptionBytes(list, id, subscribe), [];
    assert Flat(vec[..0]) == [] by { FlatNone(vec[..0]); }
    Store(vec, 0, header);
    var count, total, i := 1, |header|, 0;
    status := Success;
    EntriesPrefix(list, 0, subscribe);
    assert done + Flat(vec[..count]) == header + Entries(list[..0], subscribe);
    while status == Success && i < |list|
      invariant 0 <= count <= 1 && 0 <= i <= |list| && t.now >= began
      invariant i > 0 ==> count == 0
      invariant total == |Flat(vec[..count])|
      invariant status == Success ==>
                  && t.wire == start + done && t.failures == old(t.failures)
                  && done + Flat(vec[..count]) == header + Entries(list[..i], subscribe)
      invariant status != Success ==>
                  && status == SendFailed && Gained(start, t.wire, whole)
                  && (t.failures > old(t.failures) || t.now >= began + SEND_TIMEOUT_MS)
      decreases |list| - i, count
    {
      count, i, total := FillBatch(vec, list, i, count, total, subscribe, done, header);
      ghost var pending := Flat(vec[..count]);
      EntriesPrefix(list, i, subscribe);
      assert header + Entries(list[..i], subscribe) <= whole;
      status := SendAll(t, vec, count, total, hasWritev);
      GainedMore(start, done, t.wire, pending, whole);
      done := done + pending;
      count, total := 0, 0;
      FlatNone(vec[..0]);
    }
    assert list[..|list|] == list;
    if status == Success {
      FlatNone(vec[..0]);
      assert done == done + [] == whole;
      GainedAll(start, whole);
    }
  }

  lemma {:induction false} GainedAll(start: seq<Byte>, whole: seq<Byte>)
    ensures Gained(start, start + whole, whole)
  {
  }

  lemma {:induction false} EntriesPrefix(list: seq<Subscription>, i: nat, subscribe: bool)
    requires i <= |list|
    ensures Entries(list[..i], subscribe) <= Entries(list, subscribe)
    ensures i == 0 ==> Entries(list[..i], subscribe) == []
    decreases |list|
  {
    if i < |list| {
      var c := list[..|list| - 1];
      EntriesPrefix(c, i, subscribe);
      assert c[..i] == list[..i];
    } else {
      assert list[..i] == list;
    }
  }

  lemma {:induction false} EntriesStep(header: seq<Byte>, list: seq<Subscription>, i: nat, subscribe: bool)
    requires i < |list|
    ensures header + Entries(list[..i + 1], subscribe) ==
            header + Entries(list[..i], subscribe) + Entry(list[i], subscribe)
  {
    EntriesFit(list, i, subscribe);
  }

  /** An optional string of a CONNECT packet. */
  method AddOptional(vec: array<seq<Byte>>, at: nat, s: Option<Text>) returns (added: nat)
    requires at + 1 < vec.Length
    modifies vec
    ensures added <= 2
    ensures Flat(vec[..at + added]) == Flat(old(vec[..at])) + OptionalString(s)
  {
    added := 0;
    if s.Some? {
      added := AddEncodedString(vec, at, s.value);
    } else {
      assert Flat(vec[..at]) + [] == Flat(vec[..at]);
    }
  }

  /** The vectors of a CONNECT, eleven at most. */
  method GatherConnect(c: ConnectInfo, will: Option<PublishInfo>, remainingLength: nat)
    returns (vec: array<seq<Byte>>, count: nat)
    requires WillFits(will) && remainingLength == 10 + |ConnectPayload(c, will)|
    ensures fresh(vec) && 0 < count <= vec.Length == 11 && Flat(vec[..count]) == ConnectBytes(c, will)
  {
    hide Flat, Encoded, EncodedString, ConnectHeader, OptionalString, WillBytes, ConnectBytes, ConnectPayload;
    var header := ConnectHeader(c, will, remainingLength);
    vec := new seq<Byte>[11](_ => []);
    FlatNone(vec[..0]);
    Store(vec, 0, header);
    var added := AddEncodedString(vec, 1, c.clientId);
    count := 1 + added;
    added := AddWill(vec, count, will);
    count := count + added;
    added := AddOptional(vec, count, c.userName);
    count := count + added;
    added := AddOptional(vec, count, c.password);
    count := count + added;
    ConnectJoins(c, will);
  }

  /** sendConnectWithoutCopy */
  method SendConnectWithoutCopy(t: Transport, c: ConnectInfo, will: Option<PublishInfo>, remainingLength: nat,
                                hasWritev: bool)
    returns (status: Status)
    requires WillFits(will) && remainingLength == 10 + |ConnectPayload(c, will)|
    modifies t
    ensures Owed(t, status, ConnectBytes(c, will))
  {
    hide Flat, ConnectBytes, ConnectPayload;
    var vec, count := GatherConnect(c, will, remainingLength);
    var total := TotalLength(vec, count);
    status := SendAll(t, vec, count, total, hasWritev);
  }

  method AddWill(vec: array<seq<Byte>>, at: nat, will: Option<PublishInfo>) returns (added: nat)
    requires at + 3 < vec.Length && WillFits(will)
    modifies vec
    ensures added <= 4
    ensures Flat(vec[..at + added]) == Flat(old(vec[..at])) + WillBytes(will)
  {
    hide Flat, EncodedString;
    ghost var before := Flat(vec[..at]);
    added := 0;
    if will.Some? {
      var topic := AddEncodedString(vec, at, will.value.topic);
      var payload := AddEncodedString(vec, at + topic, will.value.payload);
      added := topic + payload;
      var x, y := EncodedString(will.value.topic), EncodedString(will.value.payload);
      assert before + x + y == before + (x + y);
    } else {
      assert before + [] == before;
    }
  }
}

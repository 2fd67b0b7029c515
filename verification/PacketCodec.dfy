/** The packet layouts of core_mqtt_serializer.c: the copying serializers, the
    size calculators and the PUBLISH parser. */
module PacketCodec {
  import opened ByteSeq
  import opened MqttTypes
  import opened Options
  import opened RemainingLength

  type U16 = x: int | 0 <= x < 65536

  /** A string or topic as the API takes it: its length is a uint16_t. */
  type Text = s: seq<Byte> | |s| < 65536

  /** MQTTPublishInfo_t */
  datatype PublishInfo = PublishInfo(qos: QoS, retain: bool, dup: bool, topic: Text, payload: seq<Byte>)

  /** MQTTSubscribeInfo_t */
  datatype Subscription = Subscription(filter: Text, qos: QoS)

  /** MQTTConnectInfo_t; a NULL user name or password is None. */
  datatype ConnectInfo = ConnectInfo(cleanSession: bool, keepAlive: U16, clientId: Text,
                                     userName: Option<Text>, password: Option<Text>)

  function BigEndian(n: U16): seq<Byte> { [n / 256, n % 256] }

  /** encodeString */
  function EncodedString(s: Text): seq<Byte> { BigEndian(|s|) + s }

  function QosByte(qos: QoS): Byte { match qos case QoS0 => 0 case QoS1 => 1 case QoS2 => 2 }

  // ---- PUBLISH -----------------------------------------------------------------

  /** The first byte: packet type 3, then dup, QoS and retain bits. */
  function PublishFlags(info: PublishInfo): Byte
  {
    48 + (if info.retain then 1 else 0) + 2 * QosByte(info.qos) + (if info.dup then 8 else 0)
  }

  function IdBytes(info: PublishInfo, id: U16): seq<Byte>
  {
    if info.qos == QoS0 then [] else BigEndian(id)
  }

  /** Variable header and payload. */
  function PublishBody(info: PublishInfo, id: U16): seq<Byte>
  {
    EncodedString(info.topic) + IdBytes(info, id) + info.payload
  }

  function PublishBytes(info: PublishInfo, id: U16): seq<Byte>
  {
    [PublishFlags(info)] + Encoded(|PublishBody(info, id)|) + PublishBody(info, id)
  }

  /** calculatePublishPacketSize: what a body of this size needs, or a refusal.
      The code keeps the whole packet, not only its remaining length, within
      the maximum. */
  method CalculatePublishPacketSize(info: PublishInfo) returns (ok: bool, remainingLength: nat, packetSize: nat)
    ensures forall id :: ok <==> |PublishBytes(info, id)| <= MAX_REMAINING_LENGTH
    ensures ok ==> forall id :: remainingLength == |PublishBody(info, id)| && packetSize == |PublishBytes(info, id)|
  {
    var size := |info.topic| + 2;
    if info.qos != QoS0 {
      size := size + 2;
    }
    var limit := MAX_REMAINING_LENGTH - size - 1;
    ghost var body := size + |info.payload|;
    assert forall id :: |PublishBody(info, id)| == body;
    if body <= MAX_REMAINING_LENGTH {
      SizeOfEncoded(body);
    }
    if |info.payload| > limit {
      return false, 0, 0;
    }
    size := size + |info.payload|;
    limit := limit - EncodedSize(size);
    if |info.payload| > limit {
      return false, 0, 0;
    }
    return true, size, size + 1 + EncodedSize(size);
  }

  datatype Parsed = Bad | Publish(info: PublishInfo, id: U16)

  /** processPublishFlags and deserializePublish: the low four bits of the first
      byte, then the remaining data. */
  function ParsePublish(first: Byte, body: seq<Byte>): Parsed
  {
    var flags: int := first % 16;
    var two, one := flags / 4 % 2 == 1, flags / 2 % 2 == 1;
    var qos := if two then QoS2 else if one then QoS1 else QoS0;
    var extra := if qos == QoS0 then 0 else 2;
    if two && one then Bad
    else if |body| < 3 + extra then Bad
    else
      var topicLength: int := 256 * body[0] as int + body[1] as int;
      if |body| < topicLength + 2 + extra then Bad
      else
        var at := 2 + topicLength;
        var id: int := if qos == QoS0 then 0 else 256 * body[at] as int + body[at + 1] as int;
        if qos != QoS0 && id == 0 then Bad
        else Publish(PublishInfo(qos, flags % 2 == 1, flags / 8 == 1, body[2..at], body[at + extra..]), id)
  }

  /** A PUBLISH the API can be asked to send. */
  predicate Sendable(info: PublishInfo, id: U16)
  {
    info.topic != [] && (info.qos == QoS0 || id != 0)
  }

  lemma {:induction false} FlagsParse(info: PublishInfo)
    ensures var f: int := PublishFlags(info) % 16;
            && (f / 4 % 2 == 1 <==> info.qos == QoS2) && (f / 2 % 2 == 1 <==> info.qos == QoS1)
            && (f % 2 == 1 <==> info.retain) && (f / 8 == 1 <==> info.dup)
  {
  }

  /** Parsing the serialized flags and body gives back every field. */
  lemma {:induction false} ParseInvertsBody(info: PublishInfo, id: U16)
    requires (info.topic != [] || info.payload != []) && (info.qos == QoS0 || id != 0)
    ensures ParsePublish(PublishFlags(info), PublishBody(info, id)) == Publish(info, if info.qos == QoS0 then 0 else id)
  {
    hide PublishFlags;
    FlagsParse(info);
    var body, n := PublishBody(info, id), |info.topic|;
    assert body[0] == n / 256 && body[1] == n % 256;
    assert body[2..2 + n] == info.topic;
    if info.qos == QoS0 {
      assert body[2 + n..] == info.payload;
    } else {
      assert body[2 + n] == id / 256 && body[3 + n] == id % 256;
      assert body[4 + n..] == info.payload;
    }
  }

  /** The whole packet: type byte, remaining length and body are recovered from
      the serialized bytes, whatever follows them on the stream. */
  lemma {:induction false} PublishRoundTrip(info: PublishInfo, id: U16, rest: seq<Byte>)
    requires Sendable(info, id) && |PublishBody(info, id)| <= MAX_REMAINING_LENGTH
    ensures var bytes := PublishBytes(info, id) + rest;
            var d := Decode(bytes[1..]);
            && bytes[0] / 16 == 3
            && d == Value(|PublishBody(info, id)|, |Encoded(|PublishBody(info, id)|)|)
            && 1 + d.used + d.length + |rest| == |bytes|
            && ParsePublish(bytes[0], bytes[1 + d.used..1 + d.used + d.length])
               == Publish(info, if info.qos == QoS0 then 0 else id)
  {
    hide PublishBody, Encoded, Decode, ParsePublish;
    var body := PublishBody(info, id);
    var length := Encoded(|body|);
    var bytes := PublishBytes(info, id) + rest;
    assert bytes[1..] == length + (body + rest);
    DecodeInvertsEncode(|body|, body + rest);
    assert bytes[1 + |length|..1 + |length| + |body|] == body;
    ParseInvertsBody(info, id);
  }

  /** The parser loses nothing: what it accepts serializes to the same body and
      flags. */
  lemma {:induction false} BodyInvertsParse(first: Byte, body: seq<Byte>)
    requires first / 16 == 3 && ParsePublish(first, body).Publish?
    ensures var p := ParsePublish(first, body); PublishFlags(p.info) == first && PublishBody(p.info, p.id) == body
  {
    var p := ParsePublish(first, body);
    var n := |p.info.topic|;
    FlagsOfParse(first, body);
    assert BigEndian(n) == body[..2];
    if p.info.qos == QoS0 {
      assert body == body[..2] + body[2..2 + n] + [] + body[2 + n..];
    } else {
      assert BigEndian(p.id) == body[2 + n..4 + n];
      assert body == body[..2] + body[2..2 + n] + body[2 + n..4 + n] + body[4 + n..];
    }
  }

  /** The parser accepts exactly the serialized publishes that have a topic or a
      payload, with a packet id exactly for QoS 1 and 2. */
  lemma {:induction false} ParsesExactly(first: Byte, body: seq<Byte>, info: PublishInfo, id: U16)
    requires first / 16 == 3
    ensures ParsePublish(first, body) == Publish(info, id) <==>
            && first == PublishFlags(info) && body == PublishBody(info, id)
            && (info.topic != [] || info.payload != []) && (id == 0 <==> info.qos == QoS0)
  {
    hide PublishFlags, PublishBody;
    if ParsePublish(first, body) == Publish(info, id) {
      BodyInvertsParse(first, body);
    }
    if (info.topic != [] || info.payload != []) && (id == 0 <==> info.qos == QoS0) {
      ParseInvertsBody(info, id);
    }
  }

  lemma {:induction false} FlagsOfParse(first: Byte, body: seq<Byte>)
    requires first / 16 == 3 && ParsePublish(first, body).Publish?
    ensures PublishFlags(ParsePublish(first, body).info) == first
  {
    var f: int := first - 48;
    assert f == first % 16 && 0 <= f < 16;
    assert f == f % 2 + 2 * (f / 2 % 2) + 4 * (f / 4 % 2) + 8 * (f / 8);
  }

  // ---- SUBSCRIBE and UNSUBSCRIBE ---------------------------------------------------

  function SubscribeEntry(s: Subscription): seq<Byte> { EncodedString(s.filter) + [QosByte(s.qos)] }

  /** One subscription's bytes; only SUBSCRIBE carries the QoS. */
  function Entry(s: Subscription, subscribe: bool): seq<Byte>
  {
    if subscribe then SubscribeEntry(s) else EncodedString(s.filter)
  }

  function Entries(list: seq<Subscription>, subscribe: bool): seq<Byte>
  {
    if list == [] then [] else Entries(list[..|list| - 1], subscribe) + Entry(list[|list| - 1], subscribe)
  }

  /** MQTT_SerializeSubscribeHeader and MQTT_SerializeUnsubscribeHeader */
  function SubscriptionHeader(remainingLength: nat, id: U16, subscribe: bool): seq<Byte>
  {
    [if subscribe then 0x82 else 0xA2] + Encoded(remainingLength) + BigEndian(id)
  }

  function SubscriptionBytes(list: seq<Subscription>, id: U16, subscribe: bool): seq<Byte>
  {
    SubscriptionHeader(2 + |Entries(list, subscribe)|, id, subscribe) + Entries(list, subscribe)
  }

  /** The list is not empty and no filter is. */
  predicate ValidSubscriptions(list: seq<Subscription>)
  {
    list != [] && forall s :: s in list ==> s.filter != []
  }

  /** calculateSubscriptionPacketSize */
  method CalculateSubscriptionPacketSize(list: seq<Subscription>, subscribe: bool)
    returns (ok: bool, remainingLength: nat, packetSize: nat)
    requires list != []
    ensures ok <==> ValidSubscriptions(list) && 2 + |Entries(list, subscribe)| <= MAX_REMAINING_LENGTH
    ensures ok ==> remainingLength == 2 + |Entries(list, subscribe)|
    ensures ok ==> forall id :: packetSize == |SubscriptionBytes(list, id, subscribe)|
  {
    var size := 2;
    ok := true;
    var i := 0;
    while i < |list|
      invariant 0 <= i <= |list|
      invariant size == 2 + |Entries(list[..i], subscribe)|
      invariant ok <==> forall k :: 0 <= k < i ==> list[k].filter != []
    {
      assert list[..i + 1][..i] == list[..i];
      size := size + |list[i].filter| + 2;
      if subscribe {
        size := size + 1;
      }
      if list[i].filter == [] {
        ok := false;
      }
      i := i + 1;
    }
    assert list[..i] == list;
    if size > MAX_REMAINING_LENGTH {
      ok := false;
    }
    remainingLength := size;
    packetSize := size + 1 + EncodedSize(size);
    if ok {
      SizeOfEncoded(size);
    }
  }

  // ---- CONNECT --------------------------------------------------------------------

  function ConnectFlags(c: ConnectInfo, will: Option<PublishInfo>): Byte
  {
    (if c.cleanSession then 2 else 0)
    + (if will.Some? then 4 + 8 * QosByte(will.value.qos) + (if will.value.retain then 32 else 0) else 0)
    + (if c.password.Some? then 64 else 0) + (if c.userName.Some? then 128 else 0)
  }

  const PROTOCOL_NAME: seq<Byte> := [77, 81, 84, 84]   // "MQTT"

  /** MQTT_SerializeConnectFixedHeader */
  function ConnectHeader(c: ConnectInfo, will: Option<PublishInfo>, remainingLength: nat): seq<Byte>
  {
    [0x10] + Encoded(remainingLength) + EncodedString(PROTOCOL_NAME) + [4]
    + [ConnectFlags(c, will)] + BigEndian(c.keepAlive)
  }

  function OptionalString(s: Option<Text>): seq<Byte> { if s.Some? then EncodedString(s.value) else [] }

  /** The will's payload length is cast to uint16_t. */
  predicate WillFits(will: Option<PublishInfo>) { will.Some? ==> |will.value.payload| < 65536 }

  function WillBytes(will: Option<PublishInfo>): seq<Byte>
    requires WillFits(will)
  {
    if will.Some? then EncodedString(will.value.topic) + EncodedString(will.value.payload) else []
  }

  function ConnectPayload(c: ConnectInfo, will: Option<PublishInfo>): seq<Byte>
    requires WillFits(will)
  {
    EncodedString(c.clientId) + WillBytes(will) + OptionalString(c.userName) + OptionalString(c.password)
  }

  function ConnectBytes(c: ConnectInfo, will: Option<PublishInfo>): seq<Byte>
    requires WillFits(will)
  {
    ConnectHeader(c, will, 10 + |ConnectPayload(c, will)|) + ConnectPayload(c, will)
  }

  function OptionalSize(s: Option<Text>): nat { if s.Some? then |s.value| + 2 else 0 }

  lemma {:induction false} ConnectSizes(c: ConnectInfo, will: Option<PublishInfo>)
    requires WillFits(will)
    ensures |ConnectPayload(c, will)| == |c.clientId| + 2 + OptionalSize(c.userName) + OptionalSize(c.password)
              + if will.Some? then |will.value.topic| + 2 + |will.value.payload| + 2 else 0
    ensures var n := 10 + |ConnectPayload(c, will)|; |ConnectBytes(c, will)| == 1 + |Encoded(n)| + n
  {
    hide Encoded;
    assert |WillBytes(will)| == if will.Some? then |will.value.topic| + 2 + |will.value.payload| + 2 else 0;
    assert |OptionalString(c.userName)| == OptionalSize(c.userName);
    assert |OptionalString(c.password)| == OptionalSize(c.password);
  }

  /** MQTT_GetConnectPacketSize: refuses only an empty client id or a will that
      does not fit, and never exceeds 327699 bytes. */
  method GetConnectPacketSize(c: ConnectInfo, will: Option<PublishInfo>)
    returns (ok: bool, remainingLength: nat, packetSize: nat)
    ensures ok <==> c.clientId != [] && WillFits(will)
    ensures ok ==> remainingLength == 10 + |ConnectPayload(c, will)| && packetSize == |ConnectBytes(c, will)| <= 327699
  {
    hide Encoded, ConnectPayload, ConnectBytes;
    if c.clientId == [] || (will.Some? && |will.value.payload| > 65535) {
      return false, 0, 0;
    }
    var size := 10 + |c.clientId| + 2;
    if will.Some? {
      size := size + |will.value.topic| + 2 + |will.value.payload| + 2;
    }
    if c.userName.Some? {
      size := size + |c.userName.value| + 2;
    }
    if c.password.Some? {
      size := size + |c.password.value| + 2;
    }
    SizeOfEncoded(size);
    ConnectSizes(c, will);
    return true, size, size + 1 + EncodedSize(size);
  }

  // ---- The copying serializers --------------------------------------------------------

  lemma {:induction false} WrittenTwice(buffer: seq<Byte>, x: seq<Byte>, y: seq<Byte>)
    requires |x| + |y| <= |buffer|
    ensures Written(Written(buffer, 0, x), |x|, y) == Written(buffer, 0, x + y)
  {
  }

  /** memcpy of `bytes` to `at`, after `done` has been written. */
  method Append(buffer: array<Byte>, at: nat, bytes: seq<Byte>, ghost was: seq<Byte>, ghost done: seq<Byte>)
    returns (end: nat)
    requires |was| == buffer.Length && at == |done| && at + |bytes| <= buffer.Length
    requires buffer[..] == Written(was, 0, done)
    modifies buffer
    ensures end == at + |bytes| && buffer[..] == Written(was, 0, done + bytes)
  {
    var i := 0;
    while i < |bytes|
      invariant 0 <= i <= |bytes|
      invariant buffer[..] == Written(was, 0, done + bytes[..i])
    {
      WriteOne(was, 0, done + bytes[..i], bytes[i]);
      assert done + bytes[..i] + [bytes[i]] == done + bytes[..i + 1];
      buffer[at + i] := bytes[i];
      i := i + 1;
    }
    assert bytes[..i] == bytes;
    end := at + i;
  }

  /** encodeRemainingLength in the middle of a packet. */
  method AppendLength(buffer: array<Byte>, at: nat, length: nat, ghost was: seq<Byte>, ghost done: seq<Byte>)
    returns (end: nat)
    requires |was| == buffer.Length && at == |done| && at + |Encoded(length)| <= buffer.Length
    requires buffer[..] == Written(was, 0, done)
    modifies buffer
    ensures end == at + |Encoded(length)| && buffer[..] == Written(was, 0, done + Encoded(length))
  {
    hide Written, Encoded;
    WrittenTwice(was, done, Encoded(length));
    end := EncodeRemainingLength(buffer, at, length);
  }

  /** encodeString */
  method AppendString(buffer: array<Byte>, at: nat, s: Text, ghost was: seq<Byte>, ghost done: seq<Byte>)
    returns (end: nat)
    requires |was| == buffer.Length && at == |done| && at + |EncodedString(s)| <= buffer.Length
    requires buffer[..] == Written(was, 0, done)
    modifies buffer
    ensures end == at + |EncodedString(s)| && buffer[..] == Written(was, 0, done + EncodedString(s))
  {
    hide Written;
    end := Append(buffer, at, BigEndian(|s|), was, done);
    end := Append(buffer, end, s, was, done + BigEndian(|s|));
    assert done + BigEndian(|s|) + s == done + EncodedString(s);
  }

  /** serializePublishCommon with the payload. */
  method SerializePublish(buffer: array<Byte>, info: PublishInfo, id: U16, remainingLength: nat) returns (end: nat)
    requires remainingLength == |PublishBody(info, id)| && |PublishBytes(info, id)| <= buffer.Length
    modifies buffer
    ensures end == |PublishBytes(info, id)| && buffer[..] == Written(old(buffer[..]), 0, PublishBytes(info, id))
  {
    hide Written, Encoded, EncodedString;
    ghost var was := buffer[..];
    WriteNone(was, 0);
    ghost var a, b, c := [PublishFlags(info)], Encoded(remainingLength), EncodedString(info.topic);
    end := Append(buffer, 0, [PublishFlags(info)], was, []);
    assert [] + a == a;
    end := AppendLength(buffer, end, remainingLength, was, a);
    end := AppendString(buffer, end, info.topic, was, a + b);
    ghost var d := a + b + c;
    assert d + IdBytes(info, id) + info.payload == PublishBytes(info, id);
    if info.qos != QoS0 {
      end := Append(buffer, end, BigEndian(id), was, d);
    } else {
      assert d + [] == d;
    }
    end := Append(buffer, end, info.payload, was, d + IdBytes(info, id));
  }

  /** MQTT_SerializeSubscribe and MQTT_SerializeUnsubscribe, once the size is accepted. */
  method SerializeSubscriptions(buffer: array<Byte>, list: seq<Subscription>, id: U16, remainingLength: nat,
                                subscribe: bool)
    returns (end: nat)
    requires remainingLength == 2 + |Entries(list, subscribe)|
    requires |SubscriptionBytes(list, id, subscribe)| <= buffer.Length
    modifies buffer
    ensures end == |SubscriptionBytes(list, id, subscribe)|
    ensures buffer[..] == Written(old(buffer[..]), 0, SubscriptionBytes(list, id, subscribe))
  {
    hide Written, Encoded, EncodedString;
    ghost var was := buffer[..];
    WriteNone(was, 0);
    ghost var head := SubscriptionHeader(remainingLength, id, subscribe);
    ghost var a: seq<Byte> := [if subscribe then 0x82 else 0xA2];
    end := Append(buffer, 0, [if subscribe then 0x82 else 0xA2], was, []);
    assert [] + a == a;
    end := AppendLength(buffer, end, remainingLength, was, a);
    end := Append(buffer, end, BigEndian(id), was, a + Encoded(remainingLength));
    var i := 0;
    assert head + Entries(list[..0], subscribe) == head;
    while i < |list|
      invariant 0 <= i <= |list|
      invariant end == |head| + |Entries(list[..i], subscribe)| <= buffer.Length
      invariant buffer[..] == Written(was, 0, head + Entries(list[..i], subscribe))
    {
      EntriesFit(list, i, subscribe);
      ghost var done := head + Entries(list[..i], subscribe);
      end := AppendString(buffer, end, list[i].filter, was, done);
      if subscribe {
        end := Append(buffer, end, [QosByte(list[i].qos)], was, done + EncodedString(list[i].filter));
        assert done + EncodedString(list[i].filter) + [QosByte(list[i].qos)] == done + Entry(list[i], subscribe);
      }
      assert done + Entry(list[i], subscribe) == head + (Entries(list[..i], subscribe) + Entry(list[i], subscribe));
      i := i + 1;
    }
    assert list[..i] == list;
  }

  lemma {:induction false} EntriesFit(list: seq<Subscription>, i: nat, subscribe: bool)
    requires i < |list|
    ensures Entries(list[..i + 1], subscribe) == Entries(list[..i], subscribe) + Entry(list[i], subscribe)
    ensures |Entries(list[..i + 1], subscribe)| <= |Entries(list, subscribe)|
    decreases |list|
  {
    hide Entry;
    assert list[..i + 1][..i] == list[..i];
    if i + 1 < |list| {
      var c := list[..|list| - 1];
      EntriesFit(c, i, subscribe);
      assert c[..i + 1] == list[..i + 1];
    } else {
      assert list[..i + 1] == list;
    }
  }

  lemma {:induction false} ConnectJoins(c: ConnectInfo, will: Option<PublishInfo>)
    requires WillFits(will)
    ensures var header := ConnectHeader(c, will, 10 + |ConnectPayload(c, will)|);
            header + EncodedString(c.clientId) + WillBytes(will)
            + OptionalString(c.userName) + OptionalString(c.password)
            == ConnectBytes(c, will)
  {
    hide ConnectHeader, EncodedString, WillBytes, OptionalString;
    var h, x := ConnectHeader(c, will, 10 + |ConnectPayload(c, will)|), EncodedString(c.clientId);
    var w, u, p := WillBytes(will), OptionalString(c.userName), OptionalString(c.password);
    assert h + x + w + u + p == h + (x + w + u + p);
  }

  method AppendWill(buffer: array<Byte>, at: nat, will: Option<PublishInfo>, ghost was: seq<Byte>,
                    ghost done: seq<Byte>)
    returns (end: nat)
    requires WillFits(will) && |was| == buffer.Length && at == |done| && at + |WillBytes(will)| <= buffer.Length
    requires buffer[..] == Written(was, 0, done)
    modifies buffer
    ensures end == at + |WillBytes(will)| && buffer[..] == Written(was, 0, done + WillBytes(will))
  {
    hide Written, EncodedString;
    end := at;
    if will.Some? {
      ghost var x, y := EncodedString(will.value.topic), EncodedString(will.value.payload);
      end := AppendString(buffer, end, will.value.topic, was, done);
      end := AppendString(buffer, end, will.value.payload, was, done + x);
      assert done + x + y == done + (x + y);
    } else {
      assert done + [] == done;
    }
  }

  method AppendOptional(buffer: array<Byte>, at: nat, s: Option<Text>, ghost was: seq<Byte>, ghost done: seq<Byte>)
    returns (end: nat)
    requires |was| == buffer.Length && at == |done| && at + |OptionalString(s)| <= buffer.Length
    requires buffer[..] == Written(was, 0, done)
    modifies buffer
    ensures end == at + |OptionalString(s)| && buffer[..] == Written(was, 0, done + OptionalString(s))
  {
    hide Written, EncodedString;
    end := at;
    if s.Some? {
      end := AppendString(buffer, end, s.value, was, done);
    } else {
      assert done + [] == done;
    }
  }

  /** serializeConnectPacket */
  method SerializeConnect(buffer: array<Byte>, c: ConnectInfo, will: Option<PublishInfo>, remainingLength: nat)
    returns (end: nat)
    requires WillFits(will) && remainingLength == 10 + |ConnectPayload(c, will)|
    requires |ConnectBytes(c, will)| <= buffer.Length
    modifies buffer
    ensures end == |ConnectBytes(c, will)| && buffer[..] == Written(old(buffer[..]), 0, ConnectBytes(c, will))
  {
    hide Written, Encoded, EncodedString, ConnectHeader, WillBytes, OptionalString, ConnectBytes, ConnectPayload;
    ghost var was, done := buffer[..], ConnectHeader(c, will, remainingLength);
    ConnectJoins(c, will);
    end := SerializeConnectHeader(buffer, c, will, remainingLength, was);
    end := AppendString(buffer, end, c.clientId, was, done);
    done := done + EncodedString(c.clientId);
    end := AppendWill(buffer, end, will, was, done);
    done := done + WillBytes(will);
    end := AppendOptional(buffer, end, c.userName, was, done);
    done := done + OptionalString(c.userName);
    end := AppendOptional(buffer, end, c.password, was, done);
  }

  method SerializeConnectHeader(buffer: array<Byte>, c: ConnectInfo, will: Option<PublishInfo>, remainingLength: nat,
                                ghost was: seq<Byte>)
    returns (end: nat)
    requires buffer[..] == was && |ConnectHeader(c, will, remainingLength)| <= buffer.Length
    modifies buffer
    ensures end == |ConnectHeader(c, will, remainingLength)|
    ensures buffer[..] == Written(was, 0, ConnectHeader(c, will, remainingLength))
  {
    hide Written, Encoded, EncodedString;
    WriteNone(was, 0);
    ghost var done: seq<Byte> := [0x10];
    end := Append(buffer, 0, [0x10], was, []);
    assert [] + done == done;
    end := AppendLength(buffer, end, remainingLength, was, done);
    done := done + Encoded(remainingLength);
    end := AppendString(buffer, end, PROTOCOL_NAME, was, done);
    done := done + EncodedString(PROTOCOL_NAME);
    end := Append(buffer, end, [4], was, done);
    done := done + [4];
    end := Append(buffer, end, [ConnectFlags(c, will)], was, done);
    done := done + [ConnectFlags(c, will)];
    end := Append(buffer, end, BigEndian(c.keepAlive), was, done);
  }
}

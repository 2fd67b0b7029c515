/** Readers of the packets the client sends, written from the layouts of sections 3.1,
    3.8 and 3.10 of MQTT 3.1.1 and not from the serializers, which they invert. */
module PacketReaders {
  import opened ByteSeq
  import opened MqttTypes
  import opened Options
  import opened PacketCodec
  import opened RemainingLength

  // ---- Fields -----------------------------------------------------------------------

  /** A value and the bytes after it. */
  datatype Read<+T> = Fail | Got(value: T, rest: seq<Byte>)

  function ReadByte(s: seq<Byte>): Read<Byte> { if s == [] then Fail else Got(s[0], s[1..]) }

  function ReadU16(s: seq<Byte>): Read<U16>
  {
    if |s| < 2 then Fail
    else
      var high: int, low: int := s[0], s[1];
      Got(256 * high + low, s[2..])
  }

  function ReadText(s: seq<Byte>): Read<Text>
  {
    match ReadU16(s)
    case Fail => Fail
    case Got(n, t) => if |t| < n then Fail else Got(t[..n], t[n..])
  }

  /** The fixed header: type byte, remaining length, and that many bytes. */
  datatype Packet = Packet(first: Byte, body: seq<Byte>)

  function ReadPacket(s: seq<Byte>): Read<Packet>
  {
    if s == [] then Fail
    else
      match Decode(s[1..])
      case Value(length, used) =>
        var at := 1 + used;
        if |s| < at + length then Fail else Got(Packet(s[0], s[at..at + length]), s[at + length..])
      case _ => Fail
  }

  lemma {:induction false} ReadsPacket(first: Byte, body: seq<Byte>, rest: seq<Byte>)
    requires |body| <= MAX_REMAINING_LENGTH
    ensures ReadPacket([first] + Encoded(|body|) + body + rest) == Got(Packet(first, body), rest)
  {
    hide Encoded, Decode;
    var e := Encoded(|body|);
    var s := [first] + e + body + rest;
    assert s[1..] == e + (body + rest);
    DecodeInvertsEncode(|body|, body + rest);
    var at := 1 + |e|;
    assert s[at..at + |body|] == body && s[at + |body|..] == rest;
  }

  lemma {:induction false} ReadsU16(n: U16, rest: seq<Byte>)
    ensures ReadU16(BigEndian(n) + rest) == Got(n, rest)
  {
    var s := BigEndian(n) + rest;
    assert s[0] == n / 256 && s[1] == n % 256 && s[2..] == rest;
  }

  lemma {:induction false} ReadsText(t: Text, rest: seq<Byte>)
    ensures ReadText(EncodedString(t) + rest) == Got(t, rest)
  {
    hide BigEndian, ReadU16;
    assert EncodedString(t) + rest == BigEndian(|t|) + (t + rest);
    ReadsU16(|t|, t + rest);
    assert (t + rest)[..|t|] == t && (t + rest)[|t|..] == rest;
  }

  lemma {:induction false} ReadsByte(b: Byte, rest: seq<Byte>)
    ensures ReadByte([b] + rest) == Got(b, rest)
  {
    assert ([b] + rest)[1..] == rest;
  }

  function ReadQoS(b: Byte): Option<QoS>
  {
    if b == 0 then Some(QoS0) else if b == 1 then Some(QoS1) else if b == 2 then Some(QoS2) else None
  }

  // ---- SUBSCRIBE and UNSUBSCRIBE ---------------------------------------------------------

  /** Filters, each followed by a QoS byte in a SUBSCRIBE only. */
  function ReadEntries(s: seq<Byte>, subscribe: bool): Option<seq<Subscription>>
    decreases |s|
  {
    if s == [] then Some([])
    else
      match ReadText(s)
      case Fail => None
      case Got(filter, t) =>
        if !subscribe then
          (match ReadEntries(t, subscribe)
           case None => None
           case Some(list) => Some([Subscription(filter, QoS0)] + list))
        else if t == [] then None
        else
          match (ReadQoS(t[0]), ReadEntries(t[1..], subscribe))
          case (Some(qos), Some(list)) => Some([Subscription(filter, qos)] + list)
          case _ => None
  }

  datatype Request = Request(subscribe: bool, id: U16, list: seq<Subscription>)

  function ReadRequest(s: seq<Byte>): Read<Request>
  {
    match ReadPacket(s)
    case Fail => Fail
    case Got(p, rest) =>
      if p.first != 8 * 16 + 2 && p.first != 10 * 16 + 2 then Fail
      else
        match ReadU16(p.body)
        case Fail => Fail
        case Got(id, t) =>
          match ReadEntries(t, p.first / 16 == 8)
          case None => Fail
          case Some(list) => Got(Request(p.first / 16 == 8, id, list), rest)
  }

  /** What an UNSUBSCRIBE carries of a list: the filters. */
  function Carried(list: seq<Subscription>, subscribe: bool): (r: seq<Subscription>)
    ensures |r| == |list|
  {
    seq(|list|, i requires 0 <= i < |list| => if subscribe then list[i] else Subscription(list[i].filter, QoS0))
  }

  lemma {:induction false} EntriesCons(list: seq<Subscription>, subscribe: bool)
    requires list != []
    ensures Entries(list, subscribe) == Entry(list[0], subscribe) + Entries(list[1..], subscribe)
  {
    hide Entry;
    var n := |list| - 1;
    if n == 0 {
      assert list[..0] == [] && list[1..] == [];
      assert Entries([], subscribe) == [];
      assert [] + Entry(list[0], subscribe) == Entry(list[0], subscribe) + [];
    } else {
      EntriesCons(list[..n], subscribe);
      assert list[..n][1..] == list[1..][..n - 1];
      var a, b, c := Entry(list[0], subscribe), Entries(list[1..][..n - 1], subscribe), Entry(list[n], subscribe);
      assert a + b + c == a + (b + c);
    }
  }

  lemma {:induction false} ReadsEntry(s: Subscription, rest: seq<Byte>, subscribe: bool)
    requires ReadEntries(rest, subscribe).Some?
    ensures ReadEntries(Entry(s, subscribe) + rest, subscribe) ==
            Some([if subscribe then s else Subscription(s.filter, QoS0)] + ReadEntries(rest, subscribe).value)
  {
    hide ReadText, EncodedString;
    if subscribe {
      var q := [QosByte(s.qos)];
      assert Entry(s, true) + rest == EncodedString(s.filter) + (q + rest);
      ReadsText(s.filter, q + rest);
      assert (q + rest)[0] == QosByte(s.qos) && (q + rest)[1..] == rest;
    } else {
      ReadsText(s.filter, rest);
    }
    assert Entry(s, subscribe) != [] by { EntryNotEmpty(s, subscribe); }
  }

  lemma {:induction false} EntryNotEmpty(s: Subscription, subscribe: bool)
    ensures Entry(s, subscribe) != []
  {
    assert |EncodedString(s.filter)| >= 2;
  }

  lemma {:induction false} ReadsEntries(list: seq<Subscription>, subscribe: bool)
    ensures ReadEntries(Entries(list, subscribe), subscribe) == Some(Carried(list, subscribe))
  {
    hide Entry, ReadEntries;
    if list == [] {
      assert Entries(list, subscribe) == [];
      NothingToRead(subscribe);
    } else {
      ReadsEntries(list[1..], subscribe);
      EntriesCons(list, subscribe);
      ReadsEntry(list[0], Entries(list[1..], subscribe), subscribe);
      assert Carried(list, subscribe) == [Carried(list, subscribe)[0]] + Carried(list[1..], subscribe);
    }
  }

  lemma {:induction false} NothingToRead(subscribe: bool)
    ensures ReadEntries([], subscribe) == Some([])
  {
  }

  /** From a serialized request followed by anything, the reader gets the kind of
      request, the id, and every filter with its QoS. */
  lemma {:induction false} RequestRoundTrip(list: seq<Subscription>, id: U16, subscribe: bool, rest: seq<Byte>)
    requires 2 + |Entries(list, subscribe)| <= MAX_REMAINING_LENGTH
    ensures ReadRequest(SubscriptionBytes(list, id, subscribe) + rest) ==
            Got(Request(subscribe, id, Carried(list, subscribe)), rest)
  {
    hide Encoded, Entries, ReadPacket, ReadEntries, BigEndian, Carried;
    var first: Byte := if subscribe then 0x82 else 0xA2;
    var entries := Entries(list, subscribe);
    var body := BigEndian(id) + entries;
    assert |BigEndian(id)| == 2 by { TwoBytes(id); }
    assert SubscriptionBytes(list, id, subscribe) + rest == [first] + Encoded(|body|) + body + rest;
    ReadsPacket(first, body, rest);
    ReadsU16(id, entries);
    ReadsEntries(list, subscribe);
  }

  lemma {:induction false} TwoBytes(n: U16)
    ensures |BigEndian(n)| == 2
  {
  }

  // ---- CONNECT ------------------------------------------------------------------------------

  function Bit(b: Byte, k: nat): bool { b / Power2(k) % 2 == 1 }

  function Power2(k: nat): (p: nat)
    ensures p > 0
  {
    if k == 0 then 1 else 2 * Power2(k - 1)
  }

  function ReadOptional(s: seq<Byte>, present: bool): Read<Option<Text>>
  {
    if !present then Got(None, s)
    else match ReadText(s)
         case Fail => Fail
         case Got(t, rest) => Got(Some(t), rest)
  }

  /** The will: topic and message, with the QoS and retain bits of the flags. */
  function ReadWill(s: seq<Byte>, flags: Byte): Read<Option<PublishInfo>>
  {
    if !Bit(flags, 2) then Got(None, s)
    else
      match (ReadQoS(flags / 8 % 4), ReadText(s))
      case (Some(qos), Got(topic, t)) =>
        (match ReadText(t)
         case Fail => Fail
         case Got(payload, rest) => Got(Some(PublishInfo(qos, Bit(flags, 5), false, topic, payload)), rest))
      case _ => Fail
  }

  datatype Opening = Opening(info: ConnectInfo, will: Option<PublishInfo>)

  /** Client id, will, user name and password, in that order and nothing after. */
  function ReadOpening(s: seq<Byte>, flags: Byte, keepAlive: U16): Option<Opening>
  {
    match ReadText(s)
    case Fail => None
    case Got(clientId, a) =>
      match ReadWill(a, flags)
      case Fail => None
      case Got(will, b) =>
        match ReadOptional(b, Bit(flags, 7))
        case Fail => None
        case Got(userName, c) =>
          match ReadOptional(c, Bit(flags, 6))
          case Fail => None
          case Got(password, d) =>
            if d != [] then None
            else Some(Opening(ConnectInfo(Bit(flags, 1), keepAlive, clientId, userName, password), will))
  }

  /** Protocol name "MQTT", level 4, flags with the reserved bit clear, keep-alive. */
  function ReadConnect(s: seq<Byte>): Read<Opening>
  {
    match ReadPacket(s)
    case Fail => Fail
    case Got(p, rest) =>
      if p.first != 1 * 16 || |p.body| < 10 || p.body[..7] != [0, 4, 77, 81, 84, 84, 4] || Bit(p.body[7], 0) then Fail
      else
        match ReadU16(p.body[8..])
        case Fail => Fail
        case Got(keepAlive, t) =>
          match ReadOpening(t, p.body[7], keepAlive)
          case None => Fail
          case Some(o) => Got(o, rest)
  }

  lemma {:induction false} BitsOf(b: Byte)
    ensures Bit(b, 0) <==> b % 2 == 1
    ensures Bit(b, 1) <==> b / 2 % 2 == 1
    ensures Bit(b, 2) <==> b / 4 % 2 == 1
    ensures Bit(b, 5) <==> b / 32 % 2 == 1
    ensures Bit(b, 6) <==> b / 64 % 2 == 1
    ensures Bit(b, 7) <==> b / 128 % 2 == 1
  {
    assert Power2(2) == 4 && Power2(3) == 8 && Power2(4) == 16;
    assert Power2(5) == 32 && Power2(6) == 64;
    assert Power2(7) == 128;
  }

  /** Eight bits, put together and taken apart. */
  lemma {:induction false} Packed(a: nat, w: nat, q: nat, r: nat, p: nat, u: nat)
    requires a < 2 && w < 2 && q < 4 && r < 2 && p < 2 && u < 2
    ensures var b := 2 * a + 4 * w + 8 * q + 32 * r + 64 * p + 128 * u;
            && b < 256 && b % 2 == 0 && b / 2 % 2 == a && b / 4 % 2 == w && b / 8 % 4 == q
            && b / 32 % 2 == r && b / 64 % 2 == p && b / 128 % 2 == u
  {
    var b := 2 * a + 4 * w + 8 * q + 32 * r + 64 * p + 128 * u;
    assert b / 2 == a + 2 * (w + 2 * q + 8 * r + 16 * p + 32 * u);
    assert b / 4 == w + 2 * (q + 4 * r + 8 * p + 16 * u);
    assert b / 8 == q + 4 * (r + 2 * p + 4 * u);
    assert b / 32 == r + 2 * (p + 2 * u);
    assert b / 64 == p + 2 * u && b / 128 == u;
  }

  lemma {:induction false} FlagsRead(c: ConnectInfo, will: Option<PublishInfo>)
    ensures var f := ConnectFlags(c, will);
            && !Bit(f, 0) && (Bit(f, 1) <==> c.cleanSession) && (Bit(f, 2) <==> will.Some?)
            && (Bit(f, 6) <==> c.password.Some?) && (Bit(f, 7) <==> c.userName.Some?)
            && (will.Some? ==> ReadQoS(f / 8 % 4) == Some(will.value.qos) && (Bit(f, 5) <==> will.value.retain))
  {
    hide Bit;
    var f := ConnectFlags(c, will);
    BitsOf(f);
    var a, p, u := if c.cleanSession then 1 else 0, if c.password.Some? then 1 else 0,
               if c.userName.Some? then 1 else 0;
    if will.Some? {
      Packed(a, 1, QosByte(will.value.qos), if will.value.retain then 1 else 0, p, u);
    } else {
      Packed(a, 0, 0, 0, p, u);
    }
  }

  /** The duplicate flag of a will is not sent. */
  function Sent(will: Option<PublishInfo>): Option<PublishInfo>
  {
    if will.Some? then Some(will.value.(dup := false)) else None
  }

  lemma {:induction false} ReadsOptional(s: Option<Text>, rest: seq<Byte>)
    ensures ReadOptional(OptionalString(s) + rest, s.Some?) == Got(s, rest)
  {
    hide ReadText, EncodedString;
    if s.Some? {
      ReadsText(s.value, rest);
    } else {
      assert [] + rest == rest;
    }
  }

  lemma {:induction false} ReadsWill(c: ConnectInfo, will: Option<PublishInfo>, rest: seq<Byte>)
    requires WillFits(will)
    ensures ReadWill(WillBytes(will) + rest, ConnectFlags(c, will)) == Got(Sent(will), rest)
  {
    hide ReadText, EncodedString, ConnectFlags, Bit, ReadQoS;
    FlagsRead(c, will);
    if will.Some? {
      var x, y := EncodedString(will.value.topic), EncodedString(will.value.payload);
      assert WillBytes(will) + rest == x + (y + rest);
      ReadsText(will.value.topic, y + rest);
      ReadsText(will.value.payload, rest);
    } else {
      assert [] + rest == rest;
    }
  }

  lemma {:induction false} ReadsOpening(c: ConnectInfo, will: Option<PublishInfo>)
    requires WillFits(will)
    ensures ReadOpening(ConnectPayload(c, will), ConnectFlags(c, will), c.keepAlive) == Some(Opening(c, Sent(will)))
  {
    hide ReadText, EncodedString, ConnectFlags, Bit, ReadWill, ReadOptional, WillBytes, OptionalString;
    FlagsRead(c, will);
    var i, w, u, p := EncodedString(c.clientId), WillBytes(will), OptionalString(c.userName),
                       OptionalString(c.password);
    assert ConnectPayload(c, will) == i + (w + (u + p));
    ReadsText(c.clientId, w + (u + p));
    ReadsWill(c, will, u + p);
    ReadsOptional(c.userName, p);
    assert p + [] == p;
    ReadsOptional(c.password, []);
  }

  /** From a serialized CONNECT followed by anything, the reader gets every field the
      packet can carry. */
  lemma {:induction false} ConnectRoundTrip(c: ConnectInfo, will: Option<PublishInfo>, rest: seq<Byte>)
    requires WillFits(will)
    ensures ReadConnect(ConnectBytes(c, will) + rest) == Got(Opening(c, Sent(will)), rest)
  {
    hide Encoded, ReadPacket, ReadOpening, ConnectPayload, ConnectFlags, Bit, ReadU16;
    var payload, f := ConnectPayload(c, will), ConnectFlags(c, will);
    var body := [0, 4, 77, 81, 84, 84, 4] + [f] + (BigEndian(c.keepAlive) + payload);
    assert |body| == 10 + |payload|;
    assert |payload| + 10 <= MAX_REMAINING_LENGTH by { ConnectSizes(c, will); }
    assert ConnectBytes(c, will) + rest == [0x10] + Encoded(|body|) + body + rest by { ConnectLayout(c, will, rest); }
    ReadsPacket(0x10, body, rest);
    FlagsRead(c, will);
    assert body[..7] == [0, 4, 77, 81, 84, 84, 4] && body[7] == f;
    assert body[8..] == BigEndian(c.keepAlive) + payload;
    ReadsU16(c.keepAlive, payload);
    ReadsOpening(c, will);
  }

  lemma {:induction false} ConnectLayout(c: ConnectInfo, will: Option<PublishInfo>, rest: seq<Byte>)
    requires WillFits(will)
    ensures var payload := ConnectPayload(c, will);
            var body := [0, 4, 77, 81, 84, 84, 4] + [ConnectFlags(c, will)] + (BigEndian(c.keepAlive) + payload);
            ConnectBytes(c, will) + rest == [0x10] + Encoded(10 + |payload|) + body + rest
  {
    hide Encoded, ConnectPayload, ConnectFlags;
    assert EncodedString(PROTOCOL_NAME) == [0, 4, 77, 81, 84, 84];
  }
}

/** The variable-length "Remaining Length" codec of core_mqtt_serializer.c
    (section 2.2.3 of MQTT 3.1.1): one encoder, two decoders. */
module RemainingLength {

  import opened ByteSeq

  const MAX_REMAINING_LENGTH := 268435455
  const REMAINING_LENGTH_INVALID := 268435456

  /** remainingLengthEncodedSize */
  function EncodedSize(length: nat): nat
  {
    if length < 128 then 1 else if length < 16384 then 2 else if length < 2097152 then 3 else 4
  }

  /** Seven bits a byte, least significant first, high bit set on all but the last. */
  function Encoded(length: nat): (e: seq<Byte>)
    ensures e != [] && e[|e| - 1] < 128
  {
    if length < 128 then [length] else [128 + length % 128] + Encoded(length / 128)
  }

  lemma {:induction false} SizeOfEncoded(length: nat)
    requires length <= MAX_REMAINING_LENGTH
    ensures |Encoded(length)| == EncodedSize(length)
  {
    var a, b, c := length / 128, length / 128 / 128, length / 128 / 128 / 128;
    assert length < 16384 <==> a < 128;
    assert length < 2097152 <==> b < 128;
    assert c < 128;
    assert |Encoded(c)| == 1;
    assert a >= 128 ==> |Encoded(a)| == 1 + |Encoded(b)|;
  }

  /** `buffer` with `bytes` written over it at `at`. */
  function Written(buffer: seq<Byte>, at: nat, bytes: seq<Byte>): (w: seq<Byte>)
    requires at + |bytes| <= |buffer|
    ensures |w| == |buffer|
  {
    buffer[..at] + bytes + buffer[at + |bytes|..]
  }

  lemma {:induction false} WriteOne(buffer: seq<Byte>, at: nat, bytes: seq<Byte>, b: Byte)
    requires at + |bytes| < |buffer|
    ensures Written(buffer, at, bytes)[at + |bytes| := b] == Written(buffer, at, bytes + [b])
  {
  }

  lemma {:induction false} WriteNone(buffer: seq<Byte>, at: nat)
    requires at <= |buffer|
    ensures Written(buffer, at, []) == buffer
  {
  }

  /** The first byte of an encoding, and what is left. */
  lemma {:induction false} EncodedStep(done: seq<Byte>, length: nat)
    ensures var b: Byte := length % 128 + if length / 128 > 0 then 128 else 0;
            && (length / 128 == 0 ==> Encoded(length) == [b])
            && (length / 128 > 0 ==> |Encoded(length)| == 1 + |Encoded(length / 128)|
                                     && done + Encoded(length) == done + [b] + Encoded(length / 128))
  {
  }

  /** encodeRemainingLength: writes the encoding at `at` and returns where it ends. */
  method EncodeRemainingLength(buffer: array<Byte>, at: nat, length: nat) returns (end: nat)
    requires at + |Encoded(length)| <= buffer.Length
    modifies buffer
    ensures end == at + |Encoded(length)|
    ensures buffer[..] == Written(old(buffer[..]), at, Encoded(length))
  {
    hide Encoded, Written;
    ghost var was, written := buffer[..], [];
    end := at;
    var remaining := length;
    WriteNone(was, at);
    while true
      invariant end == at + |written| && end + |Encoded(remaining)| == at + |Encoded(length)|
      invariant Encoded(length) == written + Encoded(remaining)
      invariant buffer[..] == Written(was, at, written)
      decreases remaining
    {
      EncodedStep(written, remaining);
      var lengthByte: Byte := remaining % 128;
      remaining := remaining / 128;
      if remaining > 0 {
        lengthByte := lengthByte + 128;
      }
      WriteOne(was, at, written, lengthByte);
      buffer[end] := lengthByte;
      written := written + [lengthByte];
      end := end + 1;
      if remaining == 0 {
        break;
      }
    }
  }

  datatype Decoded = NeedMore | Malformed | Value(length: nat, used: nat)

  /** Up to `room` bytes of digits, no check of the encoding's size. */
  function Digits(t: seq<Byte>, room: nat): Decoded
    decreases room
  {
    if room == 0 then Malformed
    else if t == [] then NeedMore
    else if t[0] < 128 then Value(t[0], 1)
    else match Digits(t[1..], room - 1)
      case Value(v, n) => Value(t[0] - 128 + 128 * v, n + 1)
      case other => other
  }

  /** Decoding the bytes after the packet type: only the shortest encoding is accepted. */
  function Decode(t: seq<Byte>): Decoded
  {
    match Digits(t, 4)
    case Value(v, n) => if n == EncodedSize(v) then Value(v, n) else Malformed
    case other => other
  }

  function Pow128(k: nat): nat
    requires k <= 4
  {
    if k == 0 then 1 else if k == 1 then 128 else if k == 2 then 16384 else if k == 3 then 2097152 else 268435456
  }

  /** `acc` from the first k digits, then the rest. */
  function Combined(acc: nat, k: nat, rest: Decoded): Decoded
    requires k <= 4
  {
    match rest
    case Value(v, n) => Value(acc + Pow128(k) * v, k + n)
    case other => other
  }

  lemma {:induction false} DigitsStep(t: seq<Byte>, k: nat, acc: nat)
    requires k < 4 && k < |t|
    ensures var d := t[k] % 128;
            Combined(acc, k, Digits(t[k..], 4 - k)) ==
            if t[k] < 128 then Value(acc + d * Pow128(k), k + 1)
            else Combined(acc + d * Pow128(k), k + 1, Digits(t[k + 1..], 3 - k))
  {
    assert t[k..][1..] == t[k + 1..];
    match Digits(t[k + 1..], 3 - k) {
      case Value(v, n) =>
        var b: int := t[k];
        assert Pow128(k) * (b - 128 + 128 * v) == Pow128(k) * (b - 128) + Pow128(k) * 128 * v;
        assert Pow128(k) * 128 == Pow128(k + 1);
      case NeedMore =>
      case Malformed =>
    }
  }

  /** processRemainingLength: decode from the receive buffer, whose first
      `index` bytes are filled. */
  method ProcessRemainingLength(buffer: array<Byte>, index: nat) returns (d: Decoded)
    requires 1 <= index <= buffer.Length
    ensures d == Decode(buffer[1..index])
  {
    ghost var t := buffer[1..index];
    var remainingLength: nat, multiplier: nat, bytesDecoded: nat := 0, 1, 0;
    assert t[0..] == t;
    while true
      invariant 0 <= bytesDecoded <= 4 && bytesDecoded <= |t|
      invariant multiplier == Pow128(bytesDecoded)
      invariant Digits(t, 4) == Combined(remainingLength, bytesDecoded, Digits(t[bytesDecoded..], 4 - bytesDecoded))
      decreases 4 - bytesDecoded
    {
      if multiplier > 2097152 {
        return Malformed;
      }
      if index <= bytesDecoded + 1 {
        return NeedMore;
      }
      var encodedByte: int := buffer[bytesDecoded + 1];
      DigitsStep(t, bytesDecoded, remainingLength);
      remainingLength := remainingLength + (encodedByte % 128) * multiplier;
      multiplier := multiplier * 128;
      bytesDecoded := bytesDecoded + 1;
      if encodedByte < 128 {
        break;
      }
    }
    if bytesDecoded != EncodedSize(remainingLength) {
      return Malformed;
    }
    return Value(remainingLength, bytesDecoded);
  }

  /** getRemainingLength: decode byte by byte from the transport, here the bytes
      it has to give; running out of them is an error. */
  method GetRemainingLength(stream: seq<Byte>) returns (length: nat, used: nat)
    ensures used <= |stream|
    ensures Decode(stream).Value? ==> length == Decode(stream).length && used == Decode(stream).used
    ensures !Decode(stream).Value? ==> length == REMAINING_LENGTH_INVALID
  {
    var remainingLength: nat, multiplier: nat := 0, 1;
    used := 0;
    assert stream[0..] == stream;
    while true
      invariant 0 <= used <= 4 && used <= |stream|
      invariant multiplier == Pow128(used)
      invariant Digits(stream, 4) == Combined(remainingLength, used, Digits(stream[used..], 4 - used))
      decreases 4 - used
    {
      if multiplier > 2097152 || used == |stream| {
        return REMAINING_LENGTH_INVALID, used;
      }
      var encodedByte: int := stream[used];
      DigitsStep(stream, used, remainingLength);
      remainingLength := remainingLength + (encodedByte % 128) * multiplier;
      multiplier := multiplier * 128;
      used := used + 1;
      if encodedByte < 128 {
        break;
      }
    }
    length := if used == EncodedSize(remainingLength) then remainingLength else REMAINING_LENGTH_INVALID;
  }

  // ---- Encoder and decoder are inverse ------------------------------------------

  lemma {:induction false} DigitsOfEncoded(length: nat, rest: seq<Byte>, room: nat)
    requires |Encoded(length)| <= room
    ensures Digits(Encoded(length) + rest, room) == Value(length, |Encoded(length)|)
    decreases length
  {
    var t := Encoded(length) + rest;
    if length < 128 {
      assert t[0] == length;
    } else {
      assert t[1..] == Encoded(length / 128) + rest;
      DigitsOfEncoded(length / 128, rest, room - 1);
    }
  }

  /** Decoding inverts encoding, whatever follows. */
  lemma {:induction false} DecodeInvertsEncode(length: nat, rest: seq<Byte>)
    requires length <= MAX_REMAINING_LENGTH
    ensures Decode(Encoded(length) + rest) == Value(length, |Encoded(length)|)
  {
    SizeOfEncoded(length);
    DigitsOfEncoded(length, rest, 4);
  }

  lemma {:induction false} DigitsBound(t: seq<Byte>, room: nat)
    requires room <= 4
    ensures Digits(t, room).Value? ==>
              1 <= Digits(t, room).used <= room && Digits(t, room).used <= |t|
                  && Digits(t, room).length < Pow128(Digits(t, room).used)
    decreases room
  {
    if room > 0 && t != [] && t[0] >= 128 {
      DigitsBound(t[1..], room - 1);
      var d := Digits(t[1..], room - 1);
      if d.Value? {
        assert 128 * d.length + 128 <= 128 * Pow128(d.used) == Pow128(d.used + 1);
      }
    }
  }

  /** An accepted encoding is the encoder's own. */
  lemma {:induction false} DigitsAreEncoded(t: seq<Byte>, room: nat)
    requires room <= 4 && Digits(t, room).Value?
    requires Digits(t, room).used == EncodedSize(Digits(t, room).length)
    ensures var d := Digits(t, room); d.used <= |t| && t[..d.used] == Encoded(d.length)
    decreases room
  {
    DigitsBound(t, room);
    var d := Digits(t, room);
    if t[0] >= 128 {
      var e := Digits(t[1..], room - 1);
      DigitsBound(t[1..], room - 1);
      assert d.length / 128 == e.length && d.length % 128 == t[0] - 128;
      assert EncodedSize(e.length) == e.used;
      DigitsAreEncoded(t[1..], room - 1);
      assert t[..d.used] == [t[0]] + t[1..][..e.used];
    } else {
      assert t[..1] == [t[0]];
    }
  }

  lemma {:induction false} DigitsNeedMore(t: seq<Byte>, room: nat)
    ensures Digits(t, room) == NeedMore <==> |t| < room && forall i :: 0 <= i < |t| ==> t[i] >= 128
    decreases room
  {
    if room > 0 && t != [] {
      DigitsNeedMore(t[1..], room - 1);
      assert forall i :: 0 < i < |t| ==> t[i] == t[1..][i - 1];
    }
  }

  /** Continuation digits, closed off by a final 1, are an encoding. */
  lemma {:induction false} Completed(t: seq<Byte>) returns (length: nat)
    requires forall i :: 0 <= i < |t| ==> t[i] >= 128
    ensures Encoded(length) == t + [1]
  {
    if t == [] {
      length := 1;
    } else {
      var l := Completed(t[1..]);
      length := t[0] - 128 + 128 * l;
      assert l > 0 by { assert Encoded(0) == [0]; assert (t[1..] + [1])[|t| - 1] == 1; }
      assert length / 128 == l && length % 128 == t[0] - 128;
      assert t + [1] == [t[0]] + (t[1..] + [1]);
    }
  }

  lemma {:induction false} EncodedContinues(length: nat)
    ensures forall i :: 0 <= i < |Encoded(length)| - 1 ==> Encoded(length)[i] >= 128
    decreases length
  {
    if length >= 128 {
      EncodedContinues(length / 128);
    }
  }

  ghost predicate StartsWith(t: seq<Byte>, length: nat)
  {
    length <= MAX_REMAINING_LENGTH && Encoded(length) <= t
  }

  ghost predicate StrictlyInside(t: seq<Byte>, length: nat)
  {
    length <= MAX_REMAINING_LENGTH && t < Encoded(length)
  }

  /** The decoder, in terms of the encoder alone: a value exactly when the bytes
      start with that value's encoding, need-more exactly when they are a
      strict prefix of some encoding, and otherwise an error. */
  lemma {:induction false} DecodeMeans(t: seq<Byte>)
    ensures forall n: nat :: StartsWith(t, n) <==> (Decode(t).Value? && Decode(t).length == n)
    ensures Decode(t).Value? ==> Decode(t).used == |Encoded(Decode(t).length)|
    ensures Decode(t) == NeedMore <==> exists n: nat :: StrictlyInside(t, n)
  {
    forall n: nat | StartsWith(t, n) ensures Decode(t).Value? && Decode(t).length == n {
      assert t == Encoded(n) + t[|Encoded(n)|..];
      DecodeInvertsEncode(n, t[|Encoded(n)|..]);
    }
    var d := Decode(t);
    if d.Value? {
      DigitsAreEncoded(t, 4);
      DigitsBound(t, 4);
      assert StartsWith(t, d.length);
    }
    DigitsNeedMore(t, 4);
    if d == NeedMore {
      var n := Completed(t);
      if n > MAX_REMAINING_LENGTH {
        LongEncoding(n);
        assert false;
      }
      assert StrictlyInside(t, n);
    }
    if exists n: nat :: StrictlyInside(t, n) {
      var n: nat :| StrictlyInside(t, n);
      SizeOfEncoded(n);
      EncodedContinues(n);
      assert forall i :: 0 <= i < |t| ==> t[i] == Encoded(n)[i];
    }
  }

  lemma {:induction false} LongEncoding(length: nat)
    requires length > MAX_REMAINING_LENGTH
    ensures |Encoded(length)| >= 5
  {
    var a, b, c := length / 128, length / 128 / 128, length / 128 / 128 / 128;
    assert a >= 128 && b >= 128 && c >= 128;
    assert |Encoded(b)| == 1 + |Encoded(c)| && |Encoded(c)| >= 2;
    assert |Encoded(a)| == 1 + |Encoded(b)|;
  }
}

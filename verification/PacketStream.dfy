/** receiveSingleIteration of core_mqtt.c: recovering packets from a byte stream
    through one fixed receive buffer, however the transport splits the stream. */
module PacketStream {
  import opened ByteSeq
  import opened RemainingLength

  /** A control packet: its first byte and what follows the remaining length. */
  datatype Frame = Frame(first: Byte, body: seq<Byte>)

  /** incomingPacketValid */
  predicate IncomingValid(first: Byte)
  {
    var kind := first / 16;
    kind in {2, 3, 4, 5, 7, 9, 11, 13} || (kind == 6 && first / 2 % 2 == 1)
  }

  /** The control packets of table 2.1 of MQTT 3.1.1. */
  datatype Kind =
    | Connect | Connack | Publish | Puback | Pubrec | Pubrel | Pubcomp | Subscribe
    | Suback | Unsubscribe | Unsuback | Pingreq | Pingresp | Disconnect

  function Number(k: Kind): nat
  {
    match k
    case Connect => 1 case Connack => 2 case Publish => 3 case Puback => 4 case Pubrec => 5
    case Pubrel => 6 case Pubcomp => 7 case Subscribe => 8 case Suback => 9 case Unsubscribe => 10
    case Unsuback => 11 case Pingreq => 12 case Pingresp => 13 case Disconnect => 14
  }

  /** Only a client sends these. */
  predicate FromClientOnly(k: Kind) { k in {Connect, Subscribe, Unsubscribe, Pingreq, Disconnect} }

  /** The receiver knows exactly the packets a server may send, a PUBREL with its
      second flag bit set. */
  lemma {:induction false} KnowsServerPackets(first: Byte)
    ensures IncomingValid(first) <==>
            exists k :: Number(k) == first / 16 && !FromClientOnly(k) && (k == Pubrel ==> first / 2 % 2 == 1)
  {
    var n := first / 16;
    if IncomingValid(first) {
      var k := if n == 2 then Connack else if n == 3 then Publish else if n == 4 then Puback else if n == 5 then Pubrec
               else if n == 6 then Pubrel else if n == 7 then Pubcomp else if n == 9 then Suback
               else if n == 11 then Unsuback else Pingresp;
      assert Number(k) == n && !FromClientOnly(k);
    }
  }

  predicate WellFormed(p: Frame) { IncomingValid(p.first) && |p.body| <= MAX_REMAINING_LENGTH }

  function FrameBytes(p: Frame): (b: seq<Byte>)
    ensures |b| == 1 + |Encoded(|p.body|)| + |p.body|
  {
    [p.first] + Encoded(|p.body|) + p.body
  }

  function Stream(ps: seq<Frame>): seq<Byte>
  {
    if ps == [] then [] else FrameBytes(ps[0]) + Stream(ps[1..])
  }

  /** Bytes that start no packet: a type the receiver does not know, or a remaining
      length that is none. */
  predicate Junk(s: seq<Byte>) { s != [] && (!IncomingValid(s[0]) || Decode(s[1..]) == Malformed) }

  /** As much of them as has arrived is recognised, or asks for more. */
  lemma {:induction false} JunkArrives(b: seq<Byte>, rest: seq<Byte>)
    requires Junk(b + rest) && b != []
    ensures !IncomingValid(b[0]) || Decode(b[1..]) == Malformed || (Decode(b[1..]) == NeedMore && |b| < 5)
  {
    hide Encoded, Decode, IncomingValid;
    var s := b + rest;
    assert s[0] == b[0];
    DecodeMeans(b[1..]);
    DecodeMeans(s[1..]);
    if Decode(b[1..]).Value? {
      var n := Decode(b[1..]).length;
      assert StartsWith(b[1..], n);
      var e := Encoded(n);
      assert s[1..][..|e|] == b[1..][..|e|] == e;
      assert StartsWith(s[1..], n);
    }
    if Decode(b[1..]) == NeedMore {
      var n :| StrictlyInside(b[1..], n);
      SizeOfEncoded(n);
    }
  }

  /** The packets that fit a buffer of `size` bytes, in order. */
  function Fitting(ps: seq<Frame>, size: nat): seq<Frame>
  {
    if ps == [] then []
    else Fitting(ps[..|ps| - 1], size) + if |FrameBytes(ps[|ps| - 1])| <= size then [ps[|ps| - 1]] else []
  }

  /** The receiving half of the transport: the bytes still to come, handed over
      in pieces of any size. `polls` bounds the empty reads within a timeout;
      `failures` counts the reads that failed and the waits that expired. */
  class Source {
    var pending: seq<Byte>
    var polls: nat
    var failures: nat

    constructor (bytes: seq<Byte>, polls: nat)
      ensures pending == bytes && this.polls == polls && failures == 0
    {
      pending, this.polls, failures := bytes, polls, 0;
    }

    method Recv(limit: nat) returns (result: int, bytes: seq<Byte>)
      modifies this
      ensures result <= limit
      ensures result >= 0 ==> |bytes| == result && old(pending) == bytes + pending
      ensures result < 0 ==> pending == old(pending) && bytes == []
      ensures polls == old(polls)
      ensures failures == old(failures) + if result < 0 then 1 else 0
    {
      var n: int, failed: bool := *, *;
      if failed {
        failures := failures + 1;
        return -1, [];
      }
      var most := if limit < |pending| then limit else |pending|;
      result := if n < 0 then 0 else if n > most then most else n;
      bytes := pending[..result];
      pending := pending[result..];
    }
  }

  /** What one iteration did. */
  datatype Progress = Waiting | Handled | Skipped | Refused | BadPacket | RecvError | SyncLost

  /** The first bytes of a frame, as far as they have arrived. */
  lemma {:induction false} HeaderArrives(p: Frame, b: seq<Byte>, rest: seq<Byte>, tail: seq<Byte>)
    requires WellFormed(p) && b != [] && b + rest == FrameBytes(p) + tail
    ensures b[0] == p.first
    ensures |b| - 1 >= |Encoded(|p.body|)| ==> Decode(b[1..]) == Value(|p.body|, |Encoded(|p.body|)|)
    ensures |b| - 1 < |Encoded(|p.body|)| ==> Decode(b[1..]) == NeedMore && |b| < 5
  {
    hide Encoded, Decode;
    var e, n, s := Encoded(|p.body|), |p.body|, b + rest;
    assert s[0] == p.first && s[1..] == e + (p.body + tail);
    assert forall i :: 0 <= i < |b| ==> b[i] == s[i];
    DecodeMeans(b[1..]);
    SizeOfEncoded(n);
    if |b| - 1 >= |e| {
      assert e == s[1..][..|e|] == b[1..][..|e|];
      assert StartsWith(b[1..], n);
    } else {
      assert b[1..] == s[1..][..|b| - 1] == e[..|b| - 1];
      assert StrictlyInside(b[1..], n);
    }
  }

  lemma {:induction false} FittingStep(ps: seq<Frame>, k: nat, size: nat)
    requires k < |ps|
    ensures Fitting(ps[..k + 1], size) == Fitting(ps[..k], size) + if |FrameBytes(ps[k])| <= size then [ps[k]] else []
  {
    assert ps[..k + 1][..k] == ps[..k];
  }

  lemma {:induction false} StreamFrom(ps: seq<Frame>, k: nat)
    requires k <= |ps|
    ensures k < |ps| ==> Stream(ps[k..]) == FrameBytes(ps[k]) + Stream(ps[k + 1..])
    ensures Stream(ps[k..]) == [] <==> k == |ps|
  {
    if k < |ps| {
      assert ps[k..][1..] == ps[k + 1..];
    }
  }

  class Receiver {
    const source: Source
    const buffer: array<Byte>
    var index: nat
    var handled: seq<Frame>

    constructor (size: nat, source: Source)
      requires size >= 5
      ensures this.source == source && fresh(buffer) && buffer.Length == size && index == 0 && handled == []
    {
      this.source := source;
      buffer := new Byte[size](_ => 0);
      index, handled := 0, [];
    }

    /** k packets of the stream `ps` have been dealt with: those that fit have
        been handled, in order, and not a byte of the next one is lost. After the
        packets may come bytes that start none. */
    ghost predicate Synced(ps: seq<Frame>, tail: seq<Byte>, k: nat)
      reads this, source, buffer
    {
      && buffer.Length >= 5 && index < buffer.Length && k <= |ps|
      && (forall p :: p in ps ==> WellFormed(p)) && (tail == [] || Junk(tail))
      && handled == Fitting(ps[..k], buffer.Length)
      && buffer[..index] + source.pending == Stream(ps[k..]) + tail
    }

    /** recvExact into the front of the buffer; the bytes are about to be dropped.
        It stops short only at a failed read or after `polls` empty reads in a row. */
    method RecvExact(want: nat) returns (got: int)
      requires want <= buffer.Length
      modifies source, buffer
      ensures got == want ==> exists bytes :: |bytes| == want && old(source.pending) == bytes + source.pending
      ensures if got == want then source.failures == old(source.failures) else source.failures > old(source.failures)
    {
      var remaining, total, waits := want, 0, source.polls;
      ghost var taken: seq<Byte> := [];
      while remaining > 0
        invariant 0 <= remaining <= want && total == want - remaining && |taken| == total
        invariant old(source.pending) == taken + source.pending && source.failures == old(source.failures)
        decreases remaining, waits
      {
        var n, bytes := source.Recv(remaining);
        if n < 0 {
          return n;
        }
        if n > 0 {
          waits := source.polls;
        } else if waits == 0 {
          source.failures := source.failures + 1;
          return total;
        } else {
          waits := waits - 1;
        }
        forall i | 0 <= i < n { buffer[total + i] := bytes[i]; }
        assert taken + bytes + source.pending == taken + (bytes + source.pending);
        taken := taken + bytes;
        remaining, total := remaining - n, total + n;
      }
      got := total;
    }

    /** discardStoredPacket: read and drop the rest of a packet too big for the buffer. */
    method DiscardStoredPacket(packetSize: nat) returns (ok: bool)
      requires index < packetSize && buffer.Length > 0
      modifies this, source, buffer
      ensures index == 0 && handled == old(handled)
      ensures ok ==> exists bytes :: |bytes| == packetSize - old(index) && old(source.pending) == bytes + source.pending
      ensures if ok then source.failures == old(source.failures) else source.failures > old(source.failures)
    {
      var remaining, total := packetSize - index, 0;
      ghost var taken: seq<Byte> := [];
      ok := true;
      while total < remaining && ok
        invariant 0 <= total <= remaining == packetSize - index && handled == old(handled) && index == old(index)
        invariant ok ==> |taken| == total && old(source.pending) == taken + source.pending
        invariant if ok then source.failures == old(source.failures) else source.failures > old(source.failures)
        decreases remaining - total, ok
      {
        var want := if remaining - total < buffer.Length then remaining - total else buffer.Length;
        ghost var before := source.pending;
        var got := RecvExact(want);
        if got != want {
          ok := false;
        } else {
          ghost var bytes :| |bytes| == want && before == bytes + source.pending;
          assert taken + bytes + source.pending == taken + (bytes + source.pending);
          taken, total := taken + bytes, total + got;
        }
      }
      forall i | 0 <= i < buffer.Length { buffer[i] := 0; }
      index := 0;
    }

    /** One call of receiveSingleIteration, when the stream so far is in sync.
        `alive` is the verdict of the keep-alive check made when nothing arrived. */
    method ReceiveSingleIteration(alive: bool, ghost ps: seq<Frame>, ghost tail: seq<Byte>, ghost k: nat)
      returns (progress: Progress)
      requires Synced(ps, tail, k)
      modifies this, source, buffer
      ensures progress in {Waiting, Refused, RecvError} ==> Synced(ps, tail, k)
      ensures progress in {Handled, Skipped} ==> k < |ps| && Synced(ps, tail, k + 1)
      ensures progress == Handled ==> handled == old(handled) + [ps[k]]
      ensures progress == Skipped ==> |FrameBytes(ps[k])| > buffer.Length
      ensures progress == Waiting && k < |ps| ==> index < |FrameBytes(ps[k])|
      ensures progress == Waiting && k < |ps| && |FrameBytes(ps[k])| > buffer.Length ==>
                index <= |Encoded(|ps[k].body|)|
      ensures progress == Waiting && k == |ps| && index > 0 ==>
                Decode(buffer[1..index]) == NeedMore && IncomingValid(buffer[0])
      ensures progress == Refused ==> !alive && source.pending == old(source.pending)
      ensures progress == SyncLost ==> k < |ps| && |FrameBytes(ps[k])| > buffer.Length && index == 0
      ensures progress == BadPacket ==> k == |ps| && Junk(tail) && handled == old(handled)
      ensures if progress in {RecvError, SyncLost} then source.failures > old(source.failures)
              else source.failures == old(source.failures)
    {
      hide Stream, Fitting, Encoded, Decode, FrameBytes, IncomingValid, Junk;
      ghost var whole := Stream(ps[k..]) + tail;
      var received, bytes := source.Recv(buffer.Length - index);
      if received < 0 {
        return RecvError;
      }
      ghost var stored := buffer[..index];
      forall i | 0 <= i < received { buffer[index + i] := bytes[i]; }
      index := index + received;
      assert buffer[..index] == stored + bytes;
      assert buffer[..index] + source.pending == whole by {
        assert stored + bytes + source.pending == stored + (bytes + source.pending);
      }
      progress := ProcessStored(received == 0, alive, ps, tail, k);
    }

    /** The part of the iteration after the read: the buffer may now be full. */
    method ProcessStored(quiet: bool, alive: bool, ghost ps: seq<Frame>, ghost tail: seq<Byte>, ghost k: nat)
      returns (progress: Progress)
      requires buffer.Length >= 5 && index <= buffer.Length && k <= |ps|
      requires (forall p :: p in ps ==> WellFormed(p)) && (tail == [] || Junk(tail))
      requires handled == Fitting(ps[..k], buffer.Length)
      requires buffer[..index] + source.pending == Stream(ps[k..]) + tail
      requires quiet ==> index < buffer.Length
      modifies this, source, buffer
      ensures progress in {Waiting, Refused} ==> Synced(ps, tail, k)
      ensures progress in {Handled, Skipped} ==> k < |ps| && Synced(ps, tail, k + 1)
      ensures progress == Handled ==> handled == old(handled) + [ps[k]]
      ensures progress == Skipped ==> |FrameBytes(ps[k])| > buffer.Length
      ensures progress == Waiting && k < |ps| ==> index < |FrameBytes(ps[k])|
      ensures progress == Waiting && k < |ps| && |FrameBytes(ps[k])| > buffer.Length ==>
                index <= |Encoded(|ps[k].body|)|
      ensures progress == Waiting && k == |ps| && index > 0 ==>
                Decode(buffer[1..index]) == NeedMore && IncomingValid(buffer[0])
      ensures progress == Refused <==> quiet && !alive
      ensures progress == Refused ==> source.pending == old(source.pending)
      ensures progress == SyncLost ==> k < |ps| && |FrameBytes(ps[k])| > buffer.Length && index == 0
      ensures progress == BadPacket ==> k == |ps| && Junk(tail) && handled == old(handled)
      ensures progress != RecvError
      ensures if progress == SyncLost then source.failures > old(source.failures)
              else source.failures == old(source.failures)
    {
      hide Stream, Fitting, Encoded, Decode, FrameBytes, IncomingValid, Junk;
      if quiet && !alive {
        return Refused;
      }
      if index == 0 {
        FrameNotEmpty(ps, k);
        return Waiting;
      }
      ghost var after := NextBytes(ps, tail, k, buffer[..index], source.pending);
      assert buffer[..index][1..] == buffer[1..index];
      var d := ProcessRemainingLength(buffer, index);
      if !IncomingValid(buffer[0]) || d == Malformed {
        return BadPacket;
      }
      if d == NeedMore {
        return Waiting;
      }
      var total := d.length + d.used + 1;
      FittingStep(ps, k, buffer.Length);
      if total > buffer.Length {
        ghost var stored := buffer[..index];
        var ok := DiscardStoredPacket(total);
        if !ok {
          return SyncLost;
        }
        DroppedWhole(stored, old(source.pending), source.pending, ps[k], after);
        assert buffer[..0] + source.pending == source.pending;
        return Skipped;
      }
      if total > index {
        return Waiting;
      }
      FrameInBuffer(buffer[..index], source.pending, ps[k], after);
      TakeStored(d.used + 1, total);
      return Handled;
    }

    /** Hand over the packet at the front and move the rest of the buffer there. */
    method TakeStored(header: nat, total: nat)
      requires 0 < header <= total <= index <= buffer.Length
      modifies this, buffer
      ensures var stored := old(buffer[..index]);
              && index == old(index) - total && buffer[..index] == stored[total..]
              && handled == old(handled) + [Frame(stored[0], stored[header..total])]
    {
      ghost var stored := buffer[..index];
      var packet := Frame(buffer[0], buffer[header..total]);
      assert packet.body == stored[header..total] by {
        assert forall i :: header <= i < total ==> stored[i] == buffer[i];
      }
      handled := handled + [packet];
      index := index - total;
      forall i | 0 <= i < index { buffer[i] := buffer[total + i]; }
    }
  }

  /** What the stored bytes say: the header of packet k, as far as it has arrived,
      or, after the last packet, that no packet starts here. */
  lemma {:induction false} NextBytes(ps: seq<Frame>, tail: seq<Byte>, k: nat, b: seq<Byte>, pending: seq<Byte>)
    returns (after: seq<Byte>)
    requires k <= |ps| && b != [] && b + pending == Stream(ps[k..]) + tail
    requires (forall p :: p in ps ==> WellFormed(p)) && (tail == [] || Junk(tail))
    ensures k < |ps| ==>
              var p, e := ps[k], |Encoded(|ps[k].body|)|;
              && after == Stream(ps[k + 1..]) + tail && b + pending == FrameBytes(p) + after
              && b[0] == p.first && IncomingValid(b[0]) && |FrameBytes(p)| == 1 + e + |p.body|
              && (if |b| - 1 >= e then Decode(b[1..]) == Value(|p.body|, e) else Decode(b[1..]) == NeedMore && |b| < 5)
    ensures k == |ps| ==>
              && Junk(tail)
              && (!IncomingValid(b[0]) || Decode(b[1..]) == Malformed || (Decode(b[1..]) == NeedMore && |b| < 5))
  {
    hide Stream, Encoded, Decode, FrameBytes, IncomingValid, Junk;
    StreamFrom(ps, k);
    after := tail;
    if k < |ps| {
      after := Stream(ps[k + 1..]) + tail;
      assert FrameBytes(ps[k]) + Stream(ps[k + 1..]) + tail == FrameBytes(ps[k]) + after;
      assert ps[k] in ps;
      HeaderArrives(ps[k], b, pending, after);
    } else {
      assert [] + tail == tail;
      JunkArrives(b, pending);
    }
  }

  lemma {:induction false} FrameNotEmpty(ps: seq<Frame>, k: nat)
    requires k <= |ps|
    ensures k < |ps| ==> |FrameBytes(ps[k])| > 0
  {
  }

  /** A complete frame at the front of the buffer. */
  lemma {:induction false} FrameInBuffer(stored: seq<Byte>, pending: seq<Byte>, p: Frame, tail: seq<Byte>)
    requires stored + pending == FrameBytes(p) + tail && |stored| >= |FrameBytes(p)|
    ensures var total := |FrameBytes(p)|;
            && p == Frame(stored[0], stored[total - |p.body|..total])
            && stored[total..] + pending == tail
  {
    hide Encoded;
    var f, s := FrameBytes(p), stored + pending;
    assert stored[..|f|] == s[..|f|] == f;
    assert f[|f| - |p.body|..] == p.body;
    assert stored[|f| - |p.body|..|f|] == stored[..|f|][|f| - |p.body|..];
    assert stored[|f|..] + pending == s[|f|..] == tail;
  }

  /** Dropping the rest of a frame leaves exactly what follows it. */
  lemma {:induction false} DroppedWhole(stored: seq<Byte>, before: seq<Byte>, after: seq<Byte>, p: Frame,
                                        tail: seq<Byte>)
    requires stored + before == FrameBytes(p) + tail && |stored| <= |FrameBytes(p)|
    requires exists bytes :: |bytes| == |FrameBytes(p)| - |stored| && before == bytes + after
    ensures after == tail
  {
    hide FrameBytes;
    var bytes :| |bytes| == |FrameBytes(p)| - |stored| && before == bytes + after;
    assert stored + before == stored + bytes + after;
    assert (stored + bytes + after)[|FrameBytes(p)|..] == after;
    assert (FrameBytes(p) + tail)[|FrameBytes(p)|..] == tail;
  }

  /** Any number of iterations: the packets that fit are handled in order, the
      oversize ones are skipped, and nothing else is. Only a read that fails, or
      stays empty for the whole timeout, can end this before the last packet, and
      only in the middle of an oversize one. Bytes after the packets that start
      none are reported, and never handled. */
  method ReceiveLoop(r: Receiver, rounds: nat, ghost ps: seq<Frame>, ghost tail: seq<Byte>)
    returns (ghost k: nat, inSync: bool, bad: bool)
    requires r.Synced(ps, tail, 0)
    modifies r, r.source, r.buffer
    ensures r.source.failures == old(r.source.failures) ==> inSync
    ensures inSync && !bad ==> r.Synced(ps, tail, k)
    ensures bad ==> inSync && k == |ps| && Junk(tail) && r.handled == Fitting(ps, r.buffer.Length)
    ensures !inSync ==> k < |ps| && |FrameBytes(ps[k])| > r.buffer.Length
    ensures inSync && r.index == 0 && r.source.pending == [] ==> r.handled == Fitting(ps, r.buffer.Length)
  {
    hide Stream, Fitting, Encoded, Decode, FrameBytes, IncomingValid, Junk;
    k, inSync, bad := 0, true, false;
    var i := 0;
    while i < rounds && inSync && !bad
      invariant inSync && !bad ==> r.Synced(ps, tail, k)
      invariant bad ==> inSync && k == |ps| && Junk(tail) && r.handled == Fitting(ps[..k], r.buffer.Length)
      invariant !inSync ==> k < |ps| && |FrameBytes(ps[k])| > r.buffer.Length
      invariant r.source.failures >= old(r.source.failures)
      invariant !inSync ==> r.source.failures > old(r.source.failures)
    {
      var alive: bool := *;
      var progress := r.ReceiveSingleIteration(alive, ps, tail, k);
      if progress == Handled || progress == Skipped {
        k := k + 1;
      }
      inSync, bad := progress != SyncLost, progress == BadPacket;
      i := i + 1;
    }
    assert ps[..|ps|] == ps;
    if inSync && !bad {
      StreamFrom(ps, k);
    }
  }
}

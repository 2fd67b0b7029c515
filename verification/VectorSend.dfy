/** sendMessageVector of core_mqtt.c: a gather-write loop over a vector array
    that is advanced in place, on a transport that may write any part of what
    it is given, nothing, or fail. */
module VectorSend {
  import opened ByteSeq

  /** The wire gained a prefix of `bytes`. */
  ghost predicate Gained(before: seq<Byte>, now: seq<Byte>, bytes: seq<Byte>)
  {
    before <= now && now[|before|..] <= bytes
  }

  /** The transport: send and writev are both a write of some bytes. A negative
      result is an error, after which part of the bytes may still have gone.
      `failures` counts the errors; `now` is the clock; `stalls` bounds the empty
      writes that take no time. */
  class Transport {
    var wire: seq<Byte>
    var failures: nat
    var now: nat
    var stalls: nat

    constructor (now: nat, stalls: nat)
      ensures wire == [] && failures == 0 && this.now == now && this.stalls == stalls
    {
      wire, failures := [], 0;
      this.now, this.stalls := now, stalls;
    }

    method Write(bytes: seq<Byte>) returns (result: int)
      modifies this
      ensures result <= |bytes|
      ensures result >= 0 ==> wire == old(wire) + bytes[..result]
      ensures failures == old(failures) + if result < 0 then 1 else 0
      ensures Gained(old(wire), wire, bytes)
      ensures now >= old(now)
      ensures result == 0 ==> now > old(now) || stalls < old(stalls)
    {
      var took: int, failed: bool, elapsed: int := *, *, *;
      took := if took < 0 then 0 else if took > |bytes| then |bytes| else took;
      wire := wire + bytes[..took];
      now := now + if elapsed < 0 then 0 else elapsed;
      if failed {
        failures := failures + 1;
        result := -1;
      } else {
        if took == 0 && elapsed <= 0 {
          now, stalls := if stalls > 0 then now else now + 1, if stalls > 0 then stalls - 1 else 0;
        }
        result := took;
      }
    }
  }

  /** Bytes from `sent` on are what is left in vectors `it` to `count`. */
  ghost predicate Left(whole: seq<Byte>, sent: nat, v: seq<seq<Byte>>)
  {
    sent <= |whole| && Flat(v) == whole[sent..]
  }

  lemma {:induction false} LeftFirst(whole: seq<Byte>, sent: nat, v: seq<seq<Byte>>)
    requires Left(whole, sent, v) && v != []
    ensures sent + |v[0]| <= |whole| && Left(whole, sent + |v[0]|, v[1..]) && v[0] == whole[sent..sent + |v[0]|]
  {
    assert whole[sent..][|v[0]|..] == whole[sent + |v[0]|..];
    assert (v[0] + Flat(v[1..]))[|v[0]|..] == Flat(v[1..]);
    assert (v[0] + Flat(v[1..]))[..|v[0]|] == v[0];
  }

  lemma {:induction false} LeftPart(whole: seq<Byte>, sent: nat, v: seq<seq<Byte>>, k: nat)
    requires Left(whole, sent, v) && v != [] && k <= |v[0]|
    ensures Left(whole, sent + k, v[0 := v[0][k..]])
  {
    LeftFirst(whole, sent, v);
    var w := v[0 := v[0][k..]];
    assert w[1..] == v[1..];
    assert Flat(w) == v[0][k..] + whole[sent + |v[0]|..];
  }

  /** The pointer walk after a write of `n` bytes: skip the vectors it covered,
      then cut the one it ended in. */
  method Advance(vec: array<seq<Byte>>, it: nat, count: nat, n: nat, ghost whole: seq<Byte>, ghost sent: nat)
    returns (next: nat)
    requires it <= count <= vec.Length && Left(whole, sent, vec[it..count]) && sent + n <= |whole|
    modifies vec
    ensures it <= next <= count && Left(whole, sent + n, vec[next..count])
  {
    next := it;
    var rest := n;
    while next < count && rest >= |vec[next]|
      invariant it <= next <= count && 0 <= rest <= n && unchanged(vec)
      invariant Left(whole, sent + n - rest, vec[next..count])
    {
      LeftFirst(whole, sent + n - rest, vec[next..count]);
      assert vec[next..count][1..] == vec[next + 1..count];
      rest := rest - |vec[next]|;
      next := next + 1;
    }
    if rest > 0 && next < count {
      ghost var v := vec[next..count];
      LeftPart(whole, sent + n - rest, v, rest);
      vec[next] := vec[next][rest..];
      assert vec[next..count] == v[0 := v[0][rest..]];
    }
  }

  method TotalLength(vec: array<seq<Byte>>, count: nat) returns (total: nat)
    requires count <= vec.Length
    ensures total == |Flat(vec[..count])|
  {
    total := 0;
    var i := 0;
    while i < count
      invariant 0 <= i <= count && total == |Flat(vec[..i])|
    {
      assert vec[..i + 1] == vec[..i] + [vec[i]];
      FlatAppend(vec[..i], [vec[i]]);
      assert Flat([vec[i]]) == vec[i] + Flat([vec[i]][1..]);
      total := total + |vec[i]|;
      i := i + 1;
    }
  }

  const SEND_TIMEOUT_MS := 20000

  /** sendMessageVector. The wire gains a prefix of the vectors' bytes; a
      non-negative result is that prefix's length; it falls short of the whole
      only when the send timeout has passed, and is negative only when the
      transport failed. */
  method SendMessageVector(t: Transport, vec: array<seq<Byte>>, count: nat, hasWritev: bool) returns (sent: int)
    requires 0 < count <= vec.Length
    modifies t, vec
    ensures sent <= |Flat(old(vec[..count]))|
    ensures sent >= 0 ==> t.wire == old(t.wire) + Flat(old(vec[..count]))[..sent]
    ensures Gained(old(t.wire), t.wire, Flat(old(vec[..count])))
    ensures 0 <= sent < |Flat(old(vec[..count]))| ==> t.now >= old(t.now) + SEND_TIMEOUT_MS
    ensures t.failures == old(t.failures) + if sent < 0 then 1 else 0
    ensures t.now >= old(t.now)
  {
    hide Flat, Left;
    ghost var whole, start := Flat(vec[..count]), t.wire;
    var total := TotalLength(vec, count);
    var deadline := t.now + SEND_TIMEOUT_MS;
    var it := 0;
    sent := 0;
    LeftAll(vec[..count]);
    while 0 <= sent < total
      invariant 0 <= it <= count && sent <= total == |whole|
      invariant sent >= 0 ==> t.wire == start + whole[..sent] && Left(whole, sent, vec[it..count])
      invariant Gained(start, t.wire, whole)
      invariant t.failures == old(t.failures) + if sent < 0 then 1 else 0
      invariant old(t.now) <= t.now < deadline
      decreases if sent >= 0 then 1 else 0, total - sent, deadline - t.now, t.stalls
    {
      ghost var before, at := t.wire, sent;
      LeftSomething(whole, sent, vec[it..count]);
      var result;
      if hasWritev {
        LeftBytes(whole, sent, vec[it..count]);
        result := t.Write(Flat(vec[it..count]));
      } else {
        LeftFirst(whole, sent, vec[it..count]);
        result := t.Write(vec[it]);
      }
      GainedOn(start, before, t.wire, whole, at, if hasWritev then whole[at..] else vec[it], result);
      if result > 0 {
        sent := sent + result;
      } else if result < 0 {
        sent := result;
      }
      if t.now >= deadline {
        break;
      }
      if result >= 0 {
        it := Advance(vec, it, count, result, whole, at);
      }
    }
  }

  lemma {:induction false} LeftAll(v: seq<seq<Byte>>)
    ensures Left(Flat(v), 0, v)
  {
  }

  lemma {:induction false} LeftSomething(whole: seq<Byte>, sent: nat, v: seq<seq<Byte>>)
    requires Left(whole, sent, v) && sent < |whole|
    ensures v != []
  {
  }

  lemma {:induction false} LeftBytes(whole: seq<Byte>, sent: nat, v: seq<seq<Byte>>)
    requires Left(whole, sent, v)
    ensures sent <= |whole| && Flat(v) == whole[sent..]
  {
  }

  /** Writing a further part of the bytes after `at`. */
  lemma {:induction false} GainedOn(start: seq<Byte>, before: seq<Byte>, now: seq<Byte>, whole: seq<Byte>, at: nat,
                                    part: seq<Byte>, result: int)
    requires at <= |whole| && before == start + whole[..at] && part <= whole[at..] && result <= |part|
    requires Gained(before, now, part) && (result >= 0 ==> now == before + part[..result])
    ensures Gained(start, now, whole)
    ensures result >= 0 ==> at + result <= |whole| && now == start + whole[..at + result]
  {
    var more := now[|before|..];
    assert now == start + (whole[..at] + more);
    assert more <= whole[at..];
    assert whole[..at] + more == whole[..at + |more|];
    if result >= 0 {
      assert more == part[..result];
    }
  }

  /** sendBuffer: the same promise for one buffer. */
  method SendBuffer(t: Transport, bytes: seq<Byte>) returns (sent: int)
    modifies t
    ensures sent <= |bytes|
    ensures sent >= 0 ==> t.wire == old(t.wire) + bytes[..sent]
    ensures Gained(old(t.wire), t.wire, bytes)
    ensures 0 <= sent < |bytes| ==> t.now >= old(t.now) + SEND_TIMEOUT_MS
    ensures t.failures == old(t.failures) + if sent < 0 then 1 else 0
  {
    hide Gained;
    ghost var start := t.wire;
    var deadline := t.now + SEND_TIMEOUT_MS;
    sent := 0;
    GainedNothing(start, bytes);
    while 0 <= sent < |bytes|
      invariant sent <= |bytes|
      invariant sent >= 0 ==> t.wire == start + bytes[..sent]
      invariant Gained(start, t.wire, bytes)
      invariant t.failures == old(t.failures) + if sent < 0 then 1 else 0
      invariant old(t.now) <= t.now < deadline
      decreases if sent >= 0 then 1 else 0, |bytes| - sent, deadline - t.now, t.stalls
    {
      ghost var before, at := t.wire, sent;
      var result := t.Write(bytes[sent..]);
      GainedOn(start, before, t.wire, bytes, at, bytes[at..], result);
      if result > 0 {
        sent := sent + result;
      } else if result < 0 {
        sent := result;
      }
      if t.now >= deadline {
        break;
      }
    }
  }

  lemma {:induction false} GainedNothing(start: seq<Byte>, bytes: seq<Byte>)
    ensures Gained(start, start, bytes) && start + bytes[..0] == start
  {
  }
}

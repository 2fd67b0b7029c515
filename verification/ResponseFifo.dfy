/** The response FIFO of response_fifo.c: newline-terminated lines in one byte
    buffer, with two policies for a line that does not fit. */
module ResponseFifo {
  import opened ByteSeq
  import opened TextLines

  const RESPONSE_FIFO_SIZE := 5120

  /** RESPONSE_FIFO_ON_FULL */
  datatype OnFull = DropNew | OverwriteOldest

  // ---- What push does -----------------------------------------------------------------

  function Terminated(data: seq<Byte>): (t: seq<Byte>)
    ensures Whole(t) && t != [] && data <= t
  {
    if data == [] || data[|data| - 1] != NL then data + [NL] else data
  }

  /** Bytes taken off the head, in whole lines, until `need` fit. */
  function Discarded(content: seq<Byte>, need: nat): (d: nat)
    requires |content| <= RESPONSE_FIFO_SIZE
    ensures d <= |content| && (need <= RESPONSE_FIFO_SIZE ==> |content| - d + need <= RESPONSE_FIFO_SIZE)
    decreases |content|
  {
    if RESPONSE_FIFO_SIZE - |content| >= need || content == [] then 0
    else LineEnd(content) + Discarded(content[LineEnd(content)..], need)
  }

  lemma {:induction false} DiscardStep(s: seq<Byte>, at: nat, need: nat)
    requires at < |s| <= RESPONSE_FIFO_SIZE && RESPONSE_FIFO_SIZE - (|s| - at) < need
    ensures var end := at + LineEnd(s[at..]);
            Discarded(s[at..], need) == end - at + Discarded(s[end..], need)
  {
    assert s[at..][LineEnd(s[at..])..] == s[at + LineEnd(s[at..])..];
  }

  lemma {:induction false} DiscardEnds(s: seq<Byte>, at: nat, need: nat)
    requires at <= |s| <= RESPONSE_FIFO_SIZE && (RESPONSE_FIFO_SIZE - (|s| - at) >= need || at == |s|)
    ensures Discarded(s[at..], need) == 0
  {
  }

  /** Whether the line was taken, and the content after the push. */
  function Pushed(content: seq<Byte>, data: seq<Byte>, onFull: OnFull): (r: (bool, seq<Byte>))
    requires |content| <= RESPONSE_FIFO_SIZE
    ensures |r.1| <= RESPONSE_FIFO_SIZE
  {
    var line := Terminated(data);
    if |line| > RESPONSE_FIFO_SIZE then (false, content)
    else if |content| + |line| <= RESPONSE_FIFO_SIZE then (true, content + line)
    else if onFull == DropNew then (false, content)
    else (true, content[Discarded(content, |line|)..] + line)
  }

  /** Only whole lines go from the head, and none that could have stayed. */
  lemma {:induction false} DiscardsWholeLines(content: seq<Byte>, need: nat)
    requires |content| <= RESPONSE_FIFO_SIZE && Whole(content)
    ensures var d := Discarded(content, need);
            && Whole(content[..d]) && Whole(content[d..])
            && (forall e :: 0 <= e < d && Whole(content[..e]) ==> |content| - e + need > RESPONSE_FIFO_SIZE)
    decreases |content|
  {
    hide LineEnd;
    if RESPONSE_FIFO_SIZE - |content| < need && content != [] {
      var n := LineEnd(content);
      var rest := content[n..];
      LineEndOfAppend(content, []);
      DiscardsWholeLines(rest, need);
      var d := n + Discarded(rest, need);
      assert content[d..] == rest[d - n..];
      WholeSplit(content, n, d);
      forall e | 0 <= e < d && Whole(content[..e])
        ensures |content| - e + need > RESPONSE_FIFO_SIZE
      {
        if e >= n {
          WholeSplit(content, n, e);
        }
      }
    }
  }

  lemma {:induction false} WholeSplit(s: seq<Byte>, n: nat, d: nat)
    requires n <= d <= |s| && Whole(s[..n])
    ensures Whole(s[..d]) <==> Whole(s[n..][..d - n])
  {
    assert d > n ==> s[..d][d - 1] == s[d - 1] == s[n..][..d - n][d - n - 1];
  }

  /** What a push means in lines: under drop-new the buffered lines stay and the
      new ones follow exactly when they fit; under overwrite-oldest every line no
      larger than the buffer is taken, at the cost of the oldest lines only. */
  lemma {:induction false} PushInLines(content: seq<Byte>, data: seq<Byte>, onFull: OnFull)
    requires |content| <= RESPONSE_FIFO_SIZE && Whole(content)
    ensures var line, r := Terminated(data), Pushed(content, data, onFull);
            && Whole(r.1)
            && (onFull == DropNew ==> (r.0 <==> |content| + |line| <= RESPONSE_FIFO_SIZE))
            && (onFull == OverwriteOldest ==> (r.0 <==> |line| <= RESPONSE_FIFO_SIZE))
            && (!r.0 ==> r.1 == content)
            && (r.0 && onFull == DropNew ==> Lines(r.1) == Lines(content) + Lines(line))
            && (r.0 && onFull == OverwriteOldest ==>
                  exists k {:trigger Lines(content)[k..]} :: 0 <= k <= |Lines(content)| &&
                    Lines(r.1) == Lines(content)[k..] + Lines(line))
  {
    hide Lines, Discarded;
    var line, r := Terminated(data), Pushed(content, data, onFull);
    if r.0 {
      var d := if |content| + |line| <= RESPONSE_FIFO_SIZE then 0 else Discarded(content, |line|);
      assert content[0..] == content;
      DiscardsWholeLines(content, |line|);
      LinesAppend(content[..d], content[d..]);
      assert content == content[..d] + content[d..];
      LinesAppend(content[d..], line);
      var k := |Lines(content[..d])|;
      assert Lines(content)[k..] == Lines(content[d..]);
    }
  }

  // ---- Conservation ----------------------------------------------------------------

  datatype Op = Push(data: seq<Byte>) | Drain(capacity: nat)

  /** The batches drained so far, what is buffered, and the lines taken so far. */
  datatype Ledger = Ledger(content: seq<Byte>, batches: seq<seq<Byte>>, taken: seq<seq<Byte>>)

  const EMPTY_LEDGER := Ledger([], [], [])

  function Apply(l: Ledger, op: Op, onFull: OnFull): (r: Ledger)
    requires |l.content| <= RESPONSE_FIFO_SIZE
    ensures |r.content| <= RESPONSE_FIFO_SIZE
  {
    match op
    case Push(data) =>
      var p := Pushed(l.content, data, onFull);
      if p.0 then Ledger(p.1, l.batches, l.taken + [Terminated(data)]) else l
    case Drain(capacity) =>
      var n := if |l.content| < capacity then |l.content| else capacity;
      Ledger(l.content[n..], l.batches + [l.content[..n]], l.taken)
  }

  function ApplyAll(l: Ledger, ops: seq<Op>, onFull: OnFull): (r: Ledger)
    requires |l.content| <= RESPONSE_FIFO_SIZE
    ensures |r.content| <= RESPONSE_FIFO_SIZE
    decreases |ops|
  {
    if ops == [] then l else ApplyAll(Apply(l, ops[0], onFull), ops[1..], onFull)
  }

  predicate Balanced(l: Ledger)
  {
    |l.content| <= RESPONSE_FIFO_SIZE && Flat(l.batches) + l.content == Flat(l.taken)
  }

  lemma {:induction false} ApplyBalanced(l: Ledger, op: Op)
    requires Balanced(l)
    ensures Balanced(Apply(l, op, DropNew))
  {
    hide Flat;
    var drained, c := Flat(l.batches), l.content;
    if op.Push? {
      var line := Terminated(op.data);
      FlatSnoc(l.taken, line);
      assert drained + (c + line) == drained + c + line;
    } else {
      var n := if |c| < op.capacity then |c| else op.capacity;
      FlatSnoc(l.batches, c[..n]);
      assert drained + c[..n] + c[n..] == drained + c;
    }
  }

  /** Under drop-new, whatever the pushes and drains: what was drained followed by
      what is buffered is exactly the taken lines, in push order. */
  lemma {:induction false} BytesConserved(l: Ledger, ops: seq<Op>)
    requires Balanced(l)
    ensures Balanced(ApplyAll(l, ops, DropNew))
    decreases |ops|
  {
    hide Flat, Apply;
    if ops != [] {
      ApplyBalanced(l, ops[0]);
      BytesConserved(Apply(l, ops[0], DropNew), ops[1..]);
    }
  }

  // ---- Full drains -------------------------------------------------------------------

  predicate FullDrains(ops: seq<Op>)
  {
    forall i :: 0 <= i < |ops| ==> ops[i].Drain? ==> ops[i].capacity >= RESPONSE_FIFO_SIZE
  }

  predicate AllWhole(v: seq<seq<Byte>>) { forall i :: 0 <= i < |v| ==> Whole(v[i]) }

  lemma {:induction false} FlatWhole(v: seq<seq<Byte>>)
    requires AllWhole(v)
    ensures Whole(Flat(v))
  {
    if v != [] {
      FlatWhole(v[1..]);
      var rest := Flat(v[1..]);
      assert rest != [] ==> (v[0] + rest)[|v[0] + rest| - 1] == rest[|rest| - 1];
      assert rest == [] ==> v[0] + rest == v[0];
    }
  }

  /** The buffer holds whole lines, and so did every batch. */
  predicate InLines(l: Ledger)
  {
    |l.content| <= RESPONSE_FIFO_SIZE && Whole(l.content) && AllWhole(l.batches)
  }

  lemma {:induction false} BatchesWhole(l: Ledger, ops: seq<Op>, onFull: OnFull)
    requires InLines(l) && FullDrains(ops)
    ensures InLines(ApplyAll(l, ops, onFull))
    decreases |ops|
  {
    hide Lines, Discarded;
    if ops != [] {
      if ops[0].Push? {
        PushInLines(l.content, ops[0].data, onFull);
      }
      BatchesWhole(Apply(l, ops[0], onFull), ops[1..], onFull);
    }
  }

  /** `a` is `b` with some elements left out. */
  predicate Thinned<T(==)>(a: seq<T>, b: seq<T>)
    decreases |b|
  {
    || a == []
    || (b != [] && Thinned(a, b[..|b| - 1]))
    || (b != [] && a[|a| - 1] == b[|b| - 1] && Thinned(a[..|a| - 1], b[..|b| - 1]))
  }

  lemma {:induction false} ThinnedLonger<T>(a: seq<T>, b: seq<T>, c: seq<T>)
    requires Thinned(a, b)
    ensures Thinned(a, b + c) && Thinned(a + c, b + c)
    decreases |c|
  {
    if c == [] {
      assert a + c == a && b + c == b;
    } else {
      var n := |c| - 1;
      ThinnedLonger(a, b, c[..n]);
      assert (b + c)[..|b| + n] == b + c[..n] && (a + c)[..|a| + n] == a + c[..n];
    }
  }

  /** The taken lines are `p` and then what is buffered; what was drained is `p`
      with some lines left out. */
  predicate Accounted(l: Ledger, p: seq<Byte>)
  {
    && InLines(l) && Whole(p)
    && Flat(l.taken) == p + l.content && Thinned(Lines(Flat(l.batches)), Lines(p))
  }

  lemma {:induction false} Regroup(p: seq<Byte>, c: seq<Byte>, d: nat, line: seq<Byte>)
    requires d <= |c|
    ensures p + c + line == p + c[..d] + (c[d..] + line)
  {
  }

  /** How much a push discards. */
  function Lost(content: seq<Byte>, line: seq<Byte>): (d: nat)
    requires |content| <= RESPONSE_FIFO_SIZE
    ensures d <= |content|
  {
    if |content| + |line| <= RESPONSE_FIFO_SIZE then 0 else Discarded(content, |line|)
  }

  lemma {:induction false} LostIsWhole(content: seq<Byte>, line: seq<Byte>)
    requires |content| <= RESPONSE_FIFO_SIZE && Whole(content)
    ensures Whole(content[..Lost(content, line)])
  {
    hide Discarded;
    DiscardsWholeLines(content, |line|);
  }

  lemma {:induction false} PushAccounted(l: Ledger, p: seq<Byte>, data: seq<Byte>) returns (q: seq<Byte>)
    requires Accounted(l, p)
    ensures Accounted(Apply(l, Push(data), OverwriteOldest), q)
  {
    hide Lines, Thinned, Discarded, Flat;
    var line, c := Terminated(data), l.content;
    PushInLines(c, data, OverwriteOldest);
    if |line| > RESPONSE_FIFO_SIZE {
      q := p;
    } else {
      var d := Lost(c, line);
      LostIsWhole(c, line);
      q := p + c[..d];
      FlatSnoc(l.taken, line);
      Regroup(p, c, d, line);
      assert Pushed(c, data, OverwriteOldest).1 == c[d..] + line;
      LinesAppend(p, c[..d]);
      ThinnedLonger(Lines(Flat(l.batches)), Lines(p), Lines(c[..d]));
      WholeAppend(p, c[..d]);
    }
  }

  lemma {:induction false} WholeAppend(a: seq<Byte>, b: seq<Byte>)
    requires Whole(a) && Whole(b)
    ensures Whole(a + b)
  {
    assert b != [] ==> (a + b)[|a + b| - 1] == b[|b| - 1];
    assert b == [] ==> a + b == a;
  }

  lemma {:induction false} DrainAccounted(l: Ledger, p: seq<Byte>, capacity: nat)
    requires Accounted(l, p) && capacity >= RESPONSE_FIFO_SIZE
    ensures Accounted(Apply(l, Drain(capacity), OverwriteOldest), p + l.content)
  {
    hide Lines, Thinned, Flat;
    var m, drained, c := Apply(l, Drain(capacity), OverwriteOldest), Flat(l.batches), l.content;
    assert c[..|c|] == c && c[|c|..] == [];
    assert m.content == [] && m.batches == l.batches + [c];
    FlatSnoc(l.batches, c);
    FlatWhole(l.batches);
    WholeAppend(p, c);
    LinesAppend(p, c);
    LinesAppend(drained, c);
    ThinnedLonger(Lines(drained), Lines(p), Lines(c));
  }

  /** Under overwrite-oldest with full drains, whatever the pushes: the buffer
      holds the most recent lines, whole and unbroken, and the lines that went
      out before are taken lines in push order with some left out. */
  lemma {:induction false} OldestLost(l: Ledger, p: seq<Byte>, ops: seq<Op>) returns (q: seq<Byte>)
    requires Accounted(l, p) && FullDrains(ops)
    ensures Accounted(ApplyAll(l, ops, OverwriteOldest), q)
    decreases |ops|
  {
    hide Lines, Thinned, Apply, Flat;
    if ops == [] {
      q := p;
    } else {
      var r;
      if ops[0].Push? {
        r := PushAccounted(l, p, ops[0].data);
      } else {
        r := p + l.content;
        DrainAccounted(l, p, ops[0].capacity);
      }
      q := OldestLost(Apply(l, ops[0], OverwriteOldest), r, ops[1..]);
    }
  }

  // ---- The buffer ----------------------------------------------------------------------

  class Fifo {
    const buf: array<Byte>
    var len: nat
    const onFull: OnFull

    ghost predicate Valid()
      reads this, buf
    {
      && buf.Length == RESPONSE_FIFO_SIZE && len <= RESPONSE_FIFO_SIZE
      && forall i :: len <= i < buf.Length ==> buf[i] == 0
    }

    ghost function Content(): (s: seq<Byte>)
      requires Valid()
      reads this, buf
      ensures |s| == len <= RESPONSE_FIFO_SIZE
    {
      buf[..len]
    }

    constructor (onFull: OnFull)
      ensures Valid() && fresh(buf) && Content() == [] && this.onFull == onFull
    {
      buf := new Byte[RESPONSE_FIFO_SIZE](_ => 0);
      len := 0;
      this.onFull := onFull;
    }

    /** The memmove to the head and the memset of what it frees. */
    method ShiftOut(n: nat)
      requires Valid() && n <= len
      modifies this`len, buf
      ensures Valid() && Content() == old(Content())[n..]
    {
      ghost var was := Content();
      var left := len - n;
      var i := 0;
      while i < left
        invariant 0 <= i <= left && len == old(len)
        invariant forall j :: 0 <= j < i ==> buf[j] == was[j + n]
        invariant forall j :: i <= j < len ==> buf[j] == was[j]
        invariant forall j :: len <= j < buf.Length ==> buf[j] == 0
      {
        buf[i] := buf[i + n];
        i := i + 1;
      }
      len := left;
      forall j | left <= j < left + n { buf[j] := 0; }
    }

    /** memchr for the newline from `from`, and one past it. */
    method LineEndFrom(from: nat) returns (end: nat)
      requires Valid() && from <= len
      ensures end == from + LineEnd(Content()[from..])
    {
      end := from;
      while end < len && buf[end] != NL
        invariant from <= end <= len
        invariant forall j :: from <= j < end ==> buf[j] != NL
      {
        end := end + 1;
      }
      ghost var rest := Content()[from..];
      ghost var n := LineEnd(rest);
      assert forall j :: 0 <= j < |rest| ==> rest[j] == buf[from + j];
      assert end < len ==> rest[end - from] == NL;
      assert 0 < n < |rest| ==> rest[n - 1] == NL;
      if end < len {
        end := end + 1;
      }
    }

    method DiscardOldest(need: nat)
      requires Valid()
      modifies this`len, buf
      ensures Valid() && Content() == old(Content())[old(Discarded(Content(), need))..]
    {
      hide LineEnd, Discarded;
      ghost var was := Content();
      var discard := 0;
      assert was[0..] == was;
      while RESPONSE_FIFO_SIZE - (len - discard) < need && discard < len
        invariant 0 <= discard <= len && Valid() && Content() == was
        invariant discard + Discarded(was[discard..], need) == Discarded(was, need)
        decreases len - discard
      {
        DiscardStep(was, discard, need);
        discard := LineEndFrom(discard);
      }
      DiscardEnds(was, discard, need);
      if discard > 0 {
        ShiftOut(discard);
      }
    }

    method Push(data: seq<Byte>) returns (ok: bool)
      requires Valid()
      modifies this, buf
      ensures Valid() && (ok, Content()) == old(Pushed(Content(), data, onFull))
    {
      hide Discarded;
      var addNl := |data| == 0 || data[|data| - 1] != NL;
      var need := |data| + if addNl then 1 else 0;
      if need > RESPONSE_FIFO_SIZE {
        return false;
      }
      if len + need > RESPONSE_FIFO_SIZE {
        if onFull == DropNew {
          return false;
        }
        DiscardOldest(need);
      }
      Append(data, addNl);
      return true;
    }

    method Append(data: seq<Byte>, addNl: bool)
      requires Valid() && len + |data| + (if addNl then 1 else 0) <= RESPONSE_FIFO_SIZE
      requires addNl <==> |data| == 0 || data[|data| - 1] != NL
      modifies this, buf
      ensures Valid() && Content() == old(Content()) + Terminated(data)
    {
      var start := len;
      forall i | 0 <= i < |data| { buf[start + i] := data[i]; }
      len := len + |data|;
      if addNl {
        buf[len] := NL;
        len := len + 1;
      }
    }

    /** Copies out as much as fits and keeps the rest for the next drain. */
    method Drain(out: array<Byte>) returns (n: nat)
      requires Valid() && out != buf
      modifies this, buf, out
      ensures Valid() && n == (if old(len) < out.Length then old(len) else out.Length)
      ensures out[..n] == old(Content())[..n] && Content() == old(Content())[n..]
    {
      n := if len < out.Length then len else out.Length;
      ghost var was := Content();
      forall i | 0 <= i < n { out[i] := buf[i]; }
      assert out[..n] == was[..n];
      assert Content() == was;
      ShiftOut(n);
    }
  }
}

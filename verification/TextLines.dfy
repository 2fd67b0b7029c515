/** Newline-terminated lines in a byte sequence. */
module TextLines {
  import opened ByteSeq

  const NL: Byte := 10

  /** Where the first line ends: past its newline, or at the end. */
  function LineEnd(s: seq<Byte>): (n: nat)
    ensures n <= |s| && (s != [] ==> n > 0)
    ensures forall i :: 0 <= i < n - 1 ==> s[i] != NL
    ensures n < |s| ==> n > 0 && s[n - 1] == NL
  {
    if s == [] then 0 else if s[0] == NL then 1 else 1 + LineEnd(s[1..])
  }

  function Lines(s: seq<Byte>): (r: seq<seq<Byte>>)
    ensures s != [] ==> r != []
  {
    if s == [] then [] else [s[..LineEnd(s)]] + Lines(s[LineEnd(s)..])
  }

  predicate Whole(s: seq<Byte>) { s == [] || s[|s| - 1] == NL }

  /** One line: a newline at the end and nowhere else. */
  predicate IsLine(s: seq<Byte>) { s != [] && s[|s| - 1] == NL && forall i :: 0 <= i < |s| - 1 ==> s[i] != NL }

  lemma {:induction false} LineEndOfAppend(a: seq<Byte>, b: seq<Byte>)
    requires a != [] && Whole(a)
    ensures LineEnd(a + b) == LineEnd(a) && Whole(a[LineEnd(a)..])
  {
    var n, m := LineEnd(a), LineEnd(a + b);
    assert (a + b)[|a| - 1] == NL;
    assert n < |a| ==> (a + b)[n - 1] == NL;
    assert m < |a| ==> a[m - 1] == (a + b)[m - 1];
  }

  lemma {:induction false} LinesStep(s: seq<Byte>, n: nat)
    requires s != [] && n == LineEnd(s)
    ensures Lines(s) == [s[..n]] + Lines(s[n..])
  {
  }

  lemma {:induction false} LinesNone()
    ensures Lines([]) == []
  {
  }

  lemma {:induction false} LinesAppend(a: seq<Byte>, b: seq<Byte>)
    requires Whole(a)
    ensures Lines(a + b) == Lines(a) + Lines(b)
    decreases |a|
  {
    hide Lines, LineEnd;
    if a == [] {
      LinesNone();
      assert a + b == b;
    } else {
      var n := LineEnd(a);
      LineEndOfAppend(a, b);
      LinesAppend(a[n..], b);
      LinesStep(a, n);
      LinesStep(a + b, n);
      assert (a + b)[..n] == a[..n] && (a + b)[n..] == a[n..] + b;
      assert [a[..n]] + Lines(a[n..]) + Lines(b) == [a[..n]] + (Lines(a[n..]) + Lines(b));
    }
  }

  lemma {:induction false} LinesOfLine(s: seq<Byte>)
    requires IsLine(s)
    ensures Lines(s) == [s]
  {
    assert LineEnd(s) == |s| && s[..|s|] == s && s[|s|..] == [];
  }

  lemma {:induction false} LinesOfFlat(v: seq<seq<Byte>>)
    requires forall i :: 0 <= i < |v| ==> IsLine(v[i])
    ensures Lines(Flat(v)) == v
  {
    if v != [] {
      LinesOfLine(v[0]);
      LinesOfFlat(v[1..]);
      LinesAppend(v[0], Flat(v[1..]));
      assert v == [v[0]] + v[1..];
    }
  }
}

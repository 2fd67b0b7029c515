/** Bytes, and sequences of them. */
module ByteSeq {

  type Byte = x: int | 0 <= x < 256

  function Flat(v: seq<seq<Byte>>): seq<Byte>
  {
    if v == [] then [] else v[0] + Flat(v[1..])
  }

  lemma {:induction false} FlatAppend(a: seq<seq<Byte>>, b: seq<seq<Byte>>)
    ensures Flat(a + b) == Flat(a) + Flat(b)
  {
    if a == [] {
      assert a + b == b;
    } else {
      assert (a + b)[1..] == a[1..] + b;
      FlatAppend(a[1..], b);
      assert a[0] + (Flat(a[1..]) + Flat(b)) == a[0] + Flat(a[1..]) + Flat(b);
    }
  }

  lemma {:induction false} FlatSnoc(v: seq<seq<Byte>>, x: seq<Byte>)
    ensures Flat(v + [x]) == Flat(v) + x
  {
    FlatAppend(v, [x]);
    assert Flat([x]) == x + Flat([x][1..]) == x;
  }

  /** memchr: where `b` first occurs, or the length. */
  function FirstOf(s: seq<Byte>, b: Byte): (n: nat)
    ensures n <= |s| && (n < |s| ==> s[n] == b) && (forall i :: 0 <= i < n ==> s[i] != b)
  {
    if s == [] || s[0] == b then 0 else 1 + FirstOf(s[1..], b)
  }

  /** memchr as a loop over s[from..to]. */
  method Find(s: seq<Byte>, b: Byte, from: nat, to: nat) returns (at: nat)
    requires from <= to <= |s|
    ensures at == from + FirstOf(s[from..to], b)
  {
    hide FirstOf;
    at := from;
    while at < to && s[at] != b
      invariant from <= at <= to && forall i :: from <= i < at ==> s[i] != b
    {
      at := at + 1;
    }
    FirstIs(s[from..to], b, at - from);
  }

  lemma {:induction false} FirstIs(s: seq<Byte>, b: Byte, n: nat)
    requires n <= |s| && (n < |s| ==> s[n] == b) && forall i :: 0 <= i < n ==> s[i] != b
    ensures FirstOf(s, b) == n
  {
  }
}

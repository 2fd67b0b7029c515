/** `%d` printing and strtol over bytes, as the response lines use them. */
module Decimal {
  import opened ByteSeq

  type Int32 = x: int | -0x8000_0000 <= x < 0x8000_0000

  const MINUS: Byte := 45
  const PLUS: Byte := 43

  predicate IsDigit(b: Byte) { 48 <= b <= 57 }

  predicate IsSpace(b: Byte) { b == 32 || 9 <= b <= 13 }

  function DigitsOf(n: nat): (s: seq<Byte>)
    ensures s != [] && forall i :: 0 <= i < |s| ==> IsDigit(s[i])
  {
    if n < 10 then [48 + n] else DigitsOf(n / 10) + [48 + n % 10]
  }

  function Pow10(k: nat): (p: nat)
    ensures p > 0
  {
    if k == 0 then 1 else 10 * Pow10(k - 1)
  }

  lemma {:induction false} DigitCount(n: nat, k: nat)
    requires k > 0 && n < Pow10(k)
    ensures |DigitsOf(n)| <= k
  {
    if n >= 10 {
      assert k > 1 by { assert Pow10(1) == 10 * Pow10(0) == 10; }
      assert n / 10 < Pow10(k - 1);
      DigitCount(n / 10, k - 1);
    }
  }

  lemma {:induction false} DigitsShort(n: nat)
    requires n <= 0x8000_0000
    ensures |DigitsOf(n)| <= 10
  {
    assert Pow10(4) == 10_000 && Pow10(8) == 10_000 * 10_000 by {
      assert Pow10(2) == 100 && Pow10(3) == 1000 && Pow10(5) == 100_000 && Pow10(6) == 1_000_000;
      assert Pow10(7) == 10_000_000;
    }
    assert Pow10(10) == 100 * Pow10(8) by { assert Pow10(9) == 10 * Pow10(8); }
    DigitCount(n, 10);
  }

  function Printed(v: Int32): (s: seq<Byte>)
    ensures 1 <= |s| <= 11 && forall i :: 0 <= i < |s| ==> IsDigit(s[i]) || s[i] == MINUS
  {
    var n: int := if v < 0 then -(v as int) else v;
    DigitsShort(n);
    if v < 0 then [MINUS] + DigitsOf(n) else DigitsOf(n)
  }

  // ---- strtol, base 10, 32-bit long ------------------------------------------------

  function Spaces(s: seq<Byte>): (n: nat)
    ensures n <= |s|
  {
    if s == [] || !IsSpace(s[0]) then 0 else 1 + Spaces(s[1..])
  }

  function DigitRun(s: seq<Byte>): (n: nat)
    ensures n <= |s| && (forall i :: 0 <= i < n ==> IsDigit(s[i])) && (n < |s| ==> !IsDigit(s[n]))
  {
    if s == [] || !IsDigit(s[0]) then 0 else 1 + DigitRun(s[1..])
  }

  function Value(digits: seq<Byte>): (v: int)
  {
    if digits == [] then 0
    else var n := |digits| - 1; 10 * Value(digits[..n]) + digits[n] - 48
  }

  function Clamped(v: int): Int32
  {
    if v > 0x7FFF_FFFF then 0x7FFF_FFFF else if v < -0x8000_0000 then -0x8000_0000 else v
  }

  /** The value, and where the number ends: 0 when there is none. */
  function StrToL(s: seq<Byte>): (r: (Int32, nat))
    ensures r.1 <= |s|
  {
    var start := Spaces(s);
    var signed := start < |s| && (s[start] == MINUS || s[start] == PLUS);
    var from := if signed then start + 1 else start;
    var n := DigitRun(s[from..]);
    var v := Value(s[from..from + n]);
    if n == 0 then (0, 0) else (Clamped(if signed && s[start] == MINUS then -v else v), from + n)
  }

  lemma {:induction false} ValueOfDigits(n: nat)
    ensures Value(DigitsOf(n)) == n
  {
    if n >= 10 {
      var s := DigitsOf(n);
      assert s[..|s| - 1] == DigitsOf(n / 10);
      ValueOfDigits(n / 10);
    }
  }

  lemma {:induction false} RunOfDigits(d: seq<Byte>, rest: seq<Byte>)
    requires (forall i :: 0 <= i < |d| ==> IsDigit(d[i])) && (rest != [] ==> !IsDigit(rest[0]))
    ensures DigitRun(d + rest) == |d|
  {
    assert forall i :: 0 <= i < |d| ==> (d + rest)[i] == d[i];
    assert rest != [] ==> (d + rest)[|d|] == rest[0];
  }

  /** strtol reads back any printed 32-bit value, and stops where it ends. */
  lemma {:induction false} ReadsPrinted(v: Int32, rest: seq<Byte>)
    requires rest != [] ==> !IsDigit(rest[0])
    ensures StrToL(Printed(v) + rest) == (v, |Printed(v)|)
  {
    hide DigitsOf, Value, DigitRun;
    var n: int := if v < 0 then -(v as int) else v;
    var d, s := DigitsOf(n), Printed(v) + rest;
    var sign := if v < 0 then 1 else 0;
    assert IsDigit(d[0]);
    assert s[0] == if v < 0 then MINUS else d[0];
    assert Spaces(s) == 0;
    assert s[sign..] == d + rest;
    RunOfDigits(d, rest);
    assert s[sign..sign + |d|] == d;
    ValueOfDigits(n);
  }
}

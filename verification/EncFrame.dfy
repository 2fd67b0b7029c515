/** The encrypted line frames of enc_frame.c, "ENC:<nonce>,<ciphertext>", with the
    phone side of local_auth_client.py as the peer. The AEAD and base64 are
    parameters. */
module EncFrame {
  import opened ByteSeq
  import opened Options
  import opened TextLines

  type Bytes = seq<Byte>
  type Secret = nat

  const DIR_TO_DEV := 1
  const DIR_TO_APP := 2
  const NONCE_LEN := 12
  const TAG_LEN := 16
  const PLAIN_MAX := 768
  const ENC_PREFIX: Bytes := [69, 78, 67, 58]
  const COMMA: Byte := 44
  const CR: Byte := 13
  const U32 := 0x1_0000_0000
  const U64 := 0x1_0000_0000_0000_0000

  // ---- Nonces ---------------------------------------------------------------------

  function PutU32(v: nat): (p: Bytes)
    ensures |p| == 4
  {
    [v / 0x100_0000 % 256, v / 0x1_0000 % 256, v / 0x100 % 256, v % 256]
  }

  function GetU32(p: Bytes): (v: nat)
    requires |p| == 4
  {
    var a: int, b: int, c: int, d: int := p[0], p[1], p[2], p[3];
    a * 0x100_0000 + b * 0x1_0000 + c * 0x100 + d
  }

  function PutU64(v: nat): (p: Bytes)
    ensures |p| == 8
  {
    PutU32(v / U32 % U32) + PutU32(v % U32)
  }

  function GetU64(p: Bytes): (v: nat)
    requires |p| == 8
  {
    GetU32(p[..4]) * U32 + GetU32(p[4..])
  }

  lemma {:induction false} DivTwice(v: nat)
    ensures v / 0x1_0000 == v / 256 / 256
  {
  }

  lemma {:induction false} DivThrice(v: nat)
    ensures v / 0x100_0000 == v / 0x1_0000 / 256
  {
  }

  lemma {:induction false} ModIs(v: nat, q: nat, r: nat)
    requires v == q * U32 + r && r < U32
    ensures v % U32 == r
  {
  }

  lemma {:induction false} GetPutU32(v: nat)
    ensures GetU32(PutU32(v)) == v % U32
  {
    DivTwice(v);
    DivThrice(v);
    var a := v / 256;
    var b := a / 256;
    var c := b / 256;
    var w, x, y, z := c % 256, b % 256, a % 256, v % 256;
    assert PutU32(v) == [w, x, y, z];
    var r := w * 0x100_0000 + x * 0x1_0000 + y * 0x100 + z;
    assert GetU32([w, x, y, z]) == r;
    assert v == 256 * a + z && a == 256 * b + y && b == 256 * c + x && c == 256 * (c / 256) + w;
    ModIs(v, c / 256, r);
  }

  lemma {:induction false} GetPutU64(v: nat)
    ensures GetU64(PutU64(v)) == v % U64
  {
    hide PutU32, GetU32;
    var p, hi := PutU64(v), v / U32;
    assert p[..4] == PutU32(hi % U32) && p[4..] == PutU32(v % U32);
    GetPutU32(hi % U32);
    GetPutU32(v % U32);
    assert v == hi * U32 + v % U32 && hi == hi / U32 * U32 + hi % U32;
    assert v == hi / U32 * U64 + (hi % U32 * U32 + v % U32);
  }

  function Nonce(dir: nat, ctr: nat): (n: Bytes)
    ensures |n| == NONCE_LEN
  {
    PutU32(dir) + PutU64(ctr)
  }

  function Direction(nonce: Bytes): nat
    requires |nonce| == NONCE_LEN
  {
    GetU32(nonce[..4])
  }

  function Counter(nonce: Bytes): nat
    requires |nonce| == NONCE_LEN
  {
    GetU64(nonce[4..])
  }

  lemma {:induction false} NonceParts(dir: nat, ctr: nat)
    ensures Direction(Nonce(dir, ctr)) == dir % U32 && Counter(Nonce(dir, ctr)) == ctr % U64
  {
    assert Nonce(dir, ctr)[..4] == PutU32(dir) && Nonce(dir, ctr)[4..] == PutU64(ctr);
    GetPutU32(dir);
    GetPutU64(ctr);
  }

  // ---- Frames -----------------------------------------------------------------------

  datatype Crypto = Crypto(
    seal: (Secret, Bytes, Bytes) -> Bytes,
    unseal: (Secret, Bytes, Bytes) -> Option<Bytes>,
    encode: Bytes -> Bytes,
    decode: Bytes -> Option<Bytes>)

  /** Unsealing inverts sealing, which adds a tag; decoding inverts encoding, which
      uses neither commas nor newlines. */
  ghost predicate Works(c: Crypto)
  {
    && (forall key, nonce, plain ::
          && c.unseal(key, nonce, c.seal(key, nonce, plain)) == Some(plain)
          && |c.seal(key, nonce, plain)| == |plain| + TAG_LEN)
    && (forall b :: c.decode(c.encode(b)) == Some(b))
    && (forall b, i :: 0 <= i < |c.encode(b)| ==> c.encode(b)[i] != COMMA && c.encode(b)[i] != NL)
  }

  datatype Frame = Frame(nonce: Bytes, ct: Bytes)

  predicate IsEnc(line: Bytes) { |line| > 4 && line[..4] == ENC_PREFIX }

  function Parsed(c: Crypto, line: Bytes): (f: Option<Frame>)
    requires IsEnc(line)
    ensures f.Some? ==> |f.value.nonce| == NONCE_LEN && |f.value.ct| >= TAG_LEN
  {
    var p := line[4..];
    var k := FirstOf(p, COMMA);
    if k == |p| then None
    else
      match (c.decode(p[..k]), c.decode(p[k + 1..]))
      case (Some(nonce), Some(ct)) =>
        if |nonce| == NONCE_LEN && |ct| >= TAG_LEN then Some(Frame(nonce, ct)) else None
      case _ => None
  }

  /** The line another side sends for a plaintext. */
  function Sealed(c: Crypto, key: Secret, dir: nat, ctr: nat, plain: Bytes): Bytes
  {
    ENC_PREFIX + c.encode(Nonce(dir, ctr)) + [COMMA] + c.encode(c.seal(key, Nonce(dir, ctr), plain))
  }

  lemma {:induction false} ParsesSealed(c: Crypto, key: Secret, dir: nat, ctr: nat, plain: Bytes)
    requires Works(c)
    ensures var line, nonce := Sealed(c, key, dir, ctr, plain), Nonce(dir, ctr);
            IsEnc(line) && Parsed(c, line) == Some(Frame(nonce, c.seal(key, nonce, plain)))
  {
    hide Nonce;
    var nonce := Nonce(dir, ctr);
    var ct := c.seal(key, nonce, plain);
    var a, b, line := c.encode(nonce), c.encode(ct), Sealed(c, key, dir, ctr, plain);
    assert line[..4] == ENC_PREFIX && line[4..] == a + [COMMA] + b;
    var p := line[4..];
    assert p[|a|] == COMMA && forall i :: 0 <= i < |a| ==> p[i] == a[i];
    assert FirstOf(p, COMMA) == |a|;
    assert p[..|a|] == a && p[|a| + 1..] == b;
  }

  lemma {:induction false} SealedIsOneLine(c: Crypto, key: Secret, dir: nat, ctr: nat, plain: Bytes)
    requires Works(c)
    ensures IsLine(Sealed(c, key, dir, ctr, plain) + [NL])
  {
    hide Nonce;
    var a, b := c.encode(Nonce(dir, ctr)), c.encode(c.seal(key, Nonce(dir, ctr), plain));
    var line := Sealed(c, key, dir, ctr, plain);
    assert forall i :: 0 <= i < 4 ==> line[i] == ENC_PREFIX[i];
    assert forall i :: 0 <= i < |a| ==> line[4 + i] == a[i];
    assert forall i :: 0 <= i < |b| ==> line[5 + |a| + i] == b[i];
    forall i | 0 <= i < |line|
      ensures line[i] != NL
    {
      if 4 <= i < 4 + |a| {
        assert line[i] == a[i - 4];
      } else if i > 4 + |a| {
        assert line[i] == b[i - 5 - |a|];
      }
    }
  }

  // ---- Receiving on the device ------------------------------------------------------

  /** The framing part of a session. */
  datatype Side = Side(keyed: bool, key: Secret, tx: nat, rx: nat, encrypted: bool)

  /** enc_frame_unwrap: None is a refused line. */
  function Unwrapped(c: Crypto, s: Side, line: Bytes): (r: (Side, Option<Bytes>))
  {
    if !IsEnc(line) then (s.(encrypted := false), Some(line))
    else if !s.keyed then (s, None)
    else
      match Parsed(c, line)
      case None => (s, None)
      case Some(f) =>
        if Direction(f.nonce) != DIR_TO_DEV || Counter(f.nonce) <= s.rx || |f.ct| - TAG_LEN > PLAIN_MAX then (s, None)
        else
          match c.unseal(s.key, f.nonce, f.ct)
          case Some(plain) =>
            if |plain| == |f.ct| - TAG_LEN then (s.(rx := Counter(f.nonce), encrypted := true), Some(plain))
            else (s, None)
          case None => (s, None)
  }

  /** The line is a frame for the device that opens under the session's key to
      `plain`, with a counter not seen before. */
  predicate OpensFresh(c: Crypto, s: Side, line: Bytes, plain: Bytes, ctr: nat)
  {
    && IsEnc(line) && s.keyed && Parsed(c, line).Some?
    && var f := Parsed(c, line).value;
       && Direction(f.nonce) == DIR_TO_DEV && Counter(f.nonce) == ctr && s.rx < ctr
       && |f.ct| == |plain| + TAG_LEN && |plain| <= PLAIN_MAX && c.unseal(s.key, f.nonce, f.ct) == Some(plain)
  }

  /** What becomes of one line: plain text is taken and clears the flag; a frame that
      opens afresh is taken and sets it; any other frame is refused and changes
      nothing. */
  ghost predicate Received(c: Crypto, before: Side, line: Bytes, now: Side, taken: Option<Bytes>)
  {
    && (!IsEnc(line) ==> taken == Some(line) && now == before.(encrypted := false))
    && (IsEnc(line) && taken.Some? ==>
          OpensFresh(c, before, line, taken.value, now.rx) && now == before.(rx := now.rx, encrypted := true))
    && (taken == None ==>
          && IsEnc(line) && now == before
          && forall plain, ctr :: !OpensFresh(c, before, line, plain, ctr))
  }

  lemma {:induction false} UnwrapIs(c: Crypto, s: Side, line: Bytes)
    ensures var r := Unwrapped(c, s, line); Received(c, s, line, r.0, r.1)
  {
    hide Parsed, GetU32, GetU64, IsEnc;
  }

  /** The session's framing state after the first n lines. */
  function StateAfter(c: Crypto, s: Side, wire: seq<Bytes>, n: nat): Side
    requires n <= |wire|
  {
    if n == 0 then s else Unwrapped(c, StateAfter(c, s, wire, n - 1), wire[n - 1]).0
  }

  /** Over any wire: after a line that is taken, the flag says whether that line came
      as a fresh frame under the key, and a refused line leaves it as it was. */
  lemma {:induction false} FlagOverRuns(c: Crypto, s: Side, wire: seq<Bytes>, n: nat)
    requires n < |wire|
    ensures var before, now, line := StateAfter(c, s, wire, n), StateAfter(c, s, wire, n + 1), wire[n];
            && (!IsEnc(line) ==> !now.encrypted)
            && (IsEnc(line) ==>
                  now == before || (now.encrypted && exists plain :: OpensFresh(c, before, line, plain, now.rx)))
            && (forall plain, ctr :: OpensFresh(c, before, line, plain, ctr) ==> now.encrypted && now.rx == ctr)
            && now.keyed == before.keyed && now.key == before.key && now.tx == before.tx && before.rx <= now.rx
  {
    hide Unwrapped, OpensFresh, IsEnc;
    var before, line := StateAfter(c, s, wire, n), wire[n];
    UnwrapIs(c, before, line);
    forall plain, ctr | OpensFresh(c, before, line, plain, ctr)
      ensures Unwrapped(c, before, line).0.encrypted && Unwrapped(c, before, line).0.rx == ctr
    {
      OpensOneWay(c, before, line, plain, ctr);
    }
    CounterGrows(c, before, line);
  }

  lemma {:induction false} OpensOneWay(c: Crypto, s: Side, line: Bytes, plain: Bytes, ctr: nat)
    requires OpensFresh(c, s, line, plain, ctr)
    ensures Unwrapped(c, s, line) == (s.(rx := ctr, encrypted := true), Some(plain))
  {
    hide Parsed, GetU32, GetU64;
  }

  lemma {:induction false} CounterGrows(c: Crypto, s: Side, line: Bytes)
    ensures s.rx <= Unwrapped(c, s, line).0.rx
  {
    hide Parsed, GetU32, GetU64;
  }

  datatype Entry = Entry(ctr: nat, plain: Bytes)

  /** The lines taken as encrypted, with their counters. */
  function Taken(c: Crypto, s: Side, wire: seq<Bytes>): (log: seq<Entry>)
    decreases |wire|
  {
    if wire == [] then []
    else
      var (t, plain) := Unwrapped(c, s, wire[0]);
      (if IsEnc(wire[0]) && plain.Some? then [Entry(t.rx, plain.value)] else []) + Taken(c, t, wire[1..])
  }

  /** If the line opens towards the device, it is one the client sealed. This is what
      authenticity of the AEAD gives for the lines that were put on the wire. */
  predicate Genuine(c: Crypto, key: Secret, sent: seq<Bytes>, line: Bytes)
  {
    IsEnc(line) && Parsed(c, line).Some? ==>
      var f := Parsed(c, line).value;
      Direction(f.nonce) == DIR_TO_DEV && c.unseal(key, f.nonce, f.ct).Some? ==>
        1 <= Counter(f.nonce) <= |sent| && c.unseal(key, f.nonce, f.ct).value == sent[Counter(f.nonce) - 1]
  }

  lemma {:induction false} TakesGenuine(c: Crypto, s: Side, line: Bytes, sent: seq<Bytes>)
    requires s.keyed && Genuine(c, s.key, sent, line)
    ensures var (t, plain) := Unwrapped(c, s, line);
            && t.keyed && t.key == s.key
            && (if IsEnc(line) && plain.Some? then s.rx < t.rx <= |sent| && plain.value == sent[t.rx - 1]
                else t.rx == s.rx)
  {
    hide Parsed, GetU32, GetU64;
  }

  /** Log entries are lines of `sent`, each numbered by its position, increasing. */
  predicate InOrder(log: seq<Entry>, rx: nat, sent: seq<Bytes>)
  {
    && (forall i :: 0 <= i < |log| ==> rx < log[i].ctr <= |sent| && log[i].plain == sent[log[i].ctr - 1])
    && (forall i, j :: 0 <= i < j < |log| ==> log[i].ctr < log[j].ctr)
  }

  lemma {:induction false} InOrderCons(e: Entry, log: seq<Entry>, rx: nat, sent: seq<Bytes>)
    requires InOrder(log, e.ctr, sent) && rx < e.ctr <= |sent| && e.plain == sent[e.ctr - 1]
    ensures InOrder([e] + log, rx, sent)
  {
    assert forall i :: 0 < i < |log| + 1 ==> ([e] + log)[i] == log[i - 1];
  }

  /** Whatever is put on the wire (replayed, reordered, damaged, dropped): the lines
      the device takes are lines the client sent, at increasing positions, so
      none twice and none out of order. */
  lemma {:induction false} TakenInOrder(c: Crypto, s: Side, wire: seq<Bytes>, sent: seq<Bytes>)
    requires s.keyed && forall i :: 0 <= i < |wire| ==> Genuine(c, s.key, sent, wire[i])
    ensures InOrder(Taken(c, s, wire), s.rx, sent)
    decreases |wire|
  {
    hide Genuine, Unwrapped;
    if wire != [] {
      TakesGenuine(c, s, wire[0], sent);
      var (t, plain) := Unwrapped(c, s, wire[0]);
      TakenInOrder(c, t, wire[1..], sent);
      var log, rest := Taken(c, s, wire), Taken(c, t, wire[1..]);
      if IsEnc(wire[0]) && plain.Some? {
        InOrderCons(Entry(t.rx, plain.value), rest, s.rx, sent);
        assert log == [Entry(t.rx, plain.value)] + rest;
      } else {
        assert log == rest;
      }
    }
  }

  predicate Opens(c: Crypto, key: Secret, line: Bytes)
  {
    IsEnc(line) && Parsed(c, line).Some? && c.unseal(key, Parsed(c, line).value.nonce, Parsed(c, line).value.ct).Some?
  }

  /** Plaintext lines, frames that do not open, and repeats of the first j frames. */
  predicate Noise(c: Crypto, key: Secret, sent: seq<Bytes>, line: Bytes, j: nat)
    requires j <= |sent|
  {
    || !Opens(c, key, line)
    || exists i :: 0 <= i < j && line == Sealed(c, key, DIR_TO_DEV, i + 1, sent[i])
  }

  /** The client's frames from j on, in order and complete, with noise between them. */
  predicate Lossless(c: Crypto, key: Secret, sent: seq<Bytes>, wire: seq<Bytes>, j: nat)
    requires j <= |sent|
    decreases |wire|
  {
    if wire == [] then j == |sent|
    else
      || (j < |sent| && wire[0] == Sealed(c, key, DIR_TO_DEV, j + 1, sent[j])
          && Lossless(c, key, sent, wire[1..], j + 1))
      || (Noise(c, key, sent, wire[0], j) && Lossless(c, key, sent, wire[1..], j))
  }

  lemma {:induction false} UnwrapsSealed(c: Crypto, s: Side, ctr: nat, plain: Bytes)
    requires Works(c) && s.keyed && ctr < U64
    ensures var r := Unwrapped(c, s, Sealed(c, s.key, DIR_TO_DEV, ctr, plain));
            r == if s.rx < ctr && |plain| <= PLAIN_MAX then (s.(rx := ctr, encrypted := true), Some(plain))
                 else (s, None)
  {
    hide Nonce, Parsed, Sealed;
    ParsesSealed(c, s.key, DIR_TO_DEV, ctr, plain);
    NonceParts(DIR_TO_DEV, ctr);
  }

  /** The lines from `from` on that fit a frame, with their counters. */
  function Fitting(sent: seq<Bytes>, from: nat): (log: seq<Entry>)
    requires from <= |sent|
    decreases |sent| - from
  {
    if from == |sent| then []
    else (if |sent[from]| <= PLAIN_MAX then [Entry(from + 1, sent[from])] else []) + Fitting(sent, from + 1)
  }

  /** The device has seen the first j frames: it took the one numbered rx, and
      those after it were too long. */
  predicate Seen(s: Side, sent: seq<Bytes>, j: nat)
  {
    s.keyed && s.rx <= j <= |sent| < U64 && forall i :: s.rx <= i < j ==> |sent[i]| > PLAIN_MAX
  }

  lemma {:induction false} NoiseIgnored(c: Crypto, s: Side, sent: seq<Bytes>, line: Bytes, j: nat)
    requires Works(c) && Seen(s, sent, j) && Noise(c, s.key, sent, line, j)
    ensures var r := Unwrapped(c, s, line);
            if IsEnc(line) then r == (s, None) else r == (s.(encrypted := false), Some(line))
  {
    hide Parsed, Sealed;
    if Opens(c, s.key, line) {
      var i :| 0 <= i < j && line == Sealed(c, s.key, DIR_TO_DEV, i + 1, sent[i]);
      UnwrapsSealed(c, s, i + 1, sent[i]);
    }
  }

  lemma {:induction false} TakesRest(c: Crypto, s: Side, sent: seq<Bytes>, wire: seq<Bytes>, j: nat)
    requires Works(c) && Seen(s, sent, j) && Lossless(c, s.key, sent, wire, j)
    ensures Taken(c, s, wire) == Fitting(sent, j)
    decreases |wire|
  {
    hide Parsed, Sealed, Unwrapped, Noise, Works;
    if wire != [] {
      var r := Unwrapped(c, s, wire[0]);
      if Noise(c, s.key, sent, wire[0], j) && Lossless(c, s.key, sent, wire[1..], j) {
        NoiseIgnored(c, s, sent, wire[0], j);
        TakesRest(c, r.0, sent, wire[1..], j);
        assert [] + Taken(c, r.0, wire[1..]) == Taken(c, r.0, wire[1..]);
      } else {
        UnwrapsSealed(c, s, j + 1, sent[j]);
        SealedIsEnc(c, s.key, j + 1, sent[j]);
        TakesRest(c, r.0, sent, wire[1..], j + 1);
      }
    }
  }

  /** Over a link that loses nothing and keeps the order, even with noise mixed in,
      the device takes exactly the client's lines of at most 768 bytes. */
  lemma {:induction false} TakesAll(c: Crypto, s: Side, sent: seq<Bytes>, wire: seq<Bytes>)
    requires Works(c) && s.keyed && s.rx == 0 && |sent| < U64 && Lossless(c, s.key, sent, wire, 0)
    ensures Taken(c, s, wire) == Fitting(sent, 0)
  {
    hide Works, Lossless;
    TakesRest(c, s, sent, wire, 0);
  }

  lemma {:induction false} SealedIsEnc(c: Crypto, key: Secret, ctr: nat, plain: Bytes)
    requires Works(c)
    ensures IsEnc(Sealed(c, key, DIR_TO_DEV, ctr, plain))
  {
    ParsesSealed(c, key, DIR_TO_DEV, ctr, plain);
  }

  // ---- Sending from the device ----------------------------------------------------------

  /** The payload without its trailing newlines and carriage returns. */
  function Stripped(payload: Bytes): (p: Bytes)
    ensures p <= payload && (p != [] ==> p[|p| - 1] != NL && p[|p| - 1] != CR)
    ensures forall i :: |p| <= i < |payload| ==> payload[i] == NL || payload[i] == CR
  {
    if payload != [] && (payload[|payload| - 1] == NL || payload[|payload| - 1] == CR)
    then Stripped(payload[..|payload| - 1]) else payload
  }

  /** enc_frame_send: the new state and the bytes sent; `ok` says whether the
      encryption worked. The counter is 64 bits wide. */
  function Sent(c: Crypto, s: Side, payload: Bytes, ok: bool): (r: (Side, Bytes))
  {
    if !s.keyed then (s, payload)
    else
      var plain := Stripped(payload);
      if |plain| > PLAIN_MAX then (s, [])
      else
        var ctr := (s.tx + 1) % U64;
        (s.(tx := ctr), if ok then Sealed(c, s.key, DIR_TO_APP, ctr, plain) + [NL] else [])
  }

  datatype Output = Output(payload: Bytes, ok: bool)

  predicate Goes(o: Output) { |Stripped(o.payload)| <= PLAIN_MAX }

  /** Nonces the device uses over a run of sends, failed encryptions included. */
  function NoncesUsed(c: Crypto, s: Side, outs: seq<Output>): (ns: seq<Bytes>)
    decreases |outs|
  {
    if outs == [] then []
    else
      var t := Sent(c, s, outs[0].payload, outs[0].ok).0;
      (if s.keyed && Goes(outs[0]) then [Nonce(DIR_TO_APP, t.tx)] else []) + NoncesUsed(c, t, outs[1..])
  }

  /** Nonces for the app whose counters follow `tx`, modulo 2^64. */
  predicate Following(ns: seq<Bytes>, tx: nat)
  {
    forall i :: 0 <= i < |ns| ==> ns[i] == Nonce(DIR_TO_APP, (tx + 1 + i) % U64)
  }

  lemma {:induction false} FollowingCons(ns: seq<Bytes>, tx: nat)
    requires Following(ns, (tx + 1) % U64)
    ensures Following([Nonce(DIR_TO_APP, (tx + 1) % U64)] + ns, tx)
  {
    hide Nonce;
    var all := [Nonce(DIR_TO_APP, (tx + 1) % U64)] + ns;
    forall i | 0 < i < |all|
      ensures all[i] == Nonce(DIR_TO_APP, (tx + 1 + i) % U64)
    {
      Wraps(tx + 1, i);
      assert all[i] == ns[i - 1];
    }
  }

  lemma {:induction false} NoncesAre(c: Crypto, s: Side, outs: seq<Output>)
    ensures Following(NoncesUsed(c, s, outs), s.tx)
    decreases |outs|
  {
    hide Nonce, Stripped, Sealed, Following;
    if outs == [] {
      assert Following([], s.tx) by { FollowingNone(s.tx); }
    } else {
      var t := Sent(c, s, outs[0].payload, outs[0].ok).0;
      NoncesAre(c, t, outs[1..]);
      var rest := NoncesUsed(c, t, outs[1..]);
      if s.keyed && Goes(outs[0]) {
        FollowingCons(rest, s.tx);
      } else {
        assert [] + rest == rest;
      }
    }
  }

  lemma {:induction false} FollowingNone(tx: nat)
    ensures Following([], tx)
  {
  }

  lemma {:induction false} Wraps(a: nat, i: nat)
    ensures (a % U64 + i) % U64 == (a + i) % U64
  {
    var q := a / U64;
    assert a + i == q * U64 + (a % U64 + i);
  }

  /** Within one key epoch two sends use the same nonce exactly when the 64-bit
      counter has come round between them, and a nonce for the app is never one
      the client would use. */
  lemma {:induction false} NonceRepeatsExactlyWhen(c: Crypto, s: Side, outs: seq<Output>, i: nat, j: nat)
    requires i <= j < |NoncesUsed(c, s, outs)|
    ensures var ns := NoncesUsed(c, s, outs);
            && (ns[i] == ns[j] <==> (j - i) % U64 == 0)
            && forall ctr: nat :: ns[i] != Nonce(DIR_TO_DEV, ctr)
  {
    hide NoncesUsed, Nonce, Direction, Counter;
    NoncesAre(c, s, outs);
    var a, b := s.tx + 1 + i, s.tx + 1 + j;
    NonceParts(DIR_TO_APP, a % U64);
    NonceParts(DIR_TO_APP, b % U64);
    forall ctr: nat
      ensures Nonce(DIR_TO_APP, a % U64) != Nonce(DIR_TO_DEV, ctr)
    {
      OtherDirection(a % U64, ctr);
    }
    SameRemainder(a, b);
  }

  lemma {:induction false} OtherDirection(a: nat, b: nat)
    ensures Nonce(DIR_TO_APP, a) != Nonce(DIR_TO_DEV, b)
  {
    hide Nonce;
    NonceParts(DIR_TO_APP, a);
    NonceParts(DIR_TO_DEV, b);
  }

  lemma {:induction false} SameRemainder(a: nat, b: nat)
    requires a <= b
    ensures a % U64 == b % U64 <==> (b - a) % U64 == 0
  {
    assert a == a / U64 * U64 + a % U64 && b == b / U64 * U64 + b % U64;
    assert b - a == (b / U64 - a / U64) * U64 + (b % U64 - a % U64);
  }

  // ---- Receiving on the phone ---------------------------------------------------------------

  /** recv_line of the client on one line: None is a raised error. */
  function ClientRecv(c: Crypto, key: Secret, rx: nat, line: Bytes): (r: Option<(nat, Bytes)>)
  {
    if !(ENC_PREFIX <= line) then Some((rx, line))
    else if !IsEnc(line) then None
    else
      match Parsed(c, line)
      case None => None
      case Some(f) =>
        if Direction(f.nonce) != DIR_TO_APP || Counter(f.nonce) <= rx then None
        else match c.unseal(key, f.nonce, f.ct)
             case None => None
             case Some(plain) => Some((Counter(f.nonce), plain))
  }

  /** All the lines of a stream; None if any of them raises. */
  function ClientReads(c: Crypto, key: Secret, rx: nat, lines: seq<Bytes>): (r: Option<seq<Bytes>>)
    decreases |lines|
  {
    if lines == [] then Some([])
    else
      var line := lines[0];
      match ClientRecv(c, key, rx, if Whole(line) && line != [] then line[..|line| - 1] else line)
      case None => None
      case Some((ctr, plain)) =>
        match ClientReads(c, key, ctr, lines[1..])
        case None => None
        case Some(rest) => Some([plain] + rest)
  }

  function Stream(c: Crypto, s: Side, outs: seq<Output>): (wire: Bytes)
    decreases |outs|
  {
    if outs == [] then []
    else
      var (t, bytes) := Sent(c, s, outs[0].payload, outs[0].ok);
      bytes + Stream(c, t, outs[1..])
  }

  /** What the phone should see: every line short enough whose encryption worked. */
  function Visible(outs: seq<Output>): (r: seq<Bytes>)
  {
    if outs == [] then []
    else (if Goes(outs[0]) && outs[0].ok then [Stripped(outs[0].payload)] else []) + Visible(outs[1..])
  }

  lemma {:induction false} ClientTakesSealed(c: Crypto, key: Secret, rx: nat, ctr: nat, plain: Bytes)
    requires Works(c) && rx < ctr < U64
    ensures ClientRecv(c, key, rx, Sealed(c, key, DIR_TO_APP, ctr, plain)) == Some((ctr, plain))
  {
    hide Nonce, Parsed, Sealed;
    ParsesSealed(c, key, DIR_TO_APP, ctr, plain);
    NonceParts(DIR_TO_APP, ctr);
    assert ENC_PREFIX <= Sealed(c, key, DIR_TO_APP, ctr, plain);
  }

  lemma {:induction false} ReadsFirst(c: Crypto, key: Secret, rx: nat, ctr: nat, plain: Bytes, rest: seq<Bytes>)
    requires Works(c) && rx < ctr < U64
    requires ClientReads(c, key, ctr, rest).Some?
    ensures ClientReads(c, key, rx, [Sealed(c, key, DIR_TO_APP, ctr, plain) + [NL]] + rest) ==
            Some([plain] + ClientReads(c, key, ctr, rest).value)
  {
    hide ClientRecv, Sealed, Works;
    var line := Sealed(c, key, DIR_TO_APP, ctr, plain);
    var lines := [line + [NL]] + rest;
    ClientTakesSealed(c, key, rx, ctr, plain);
    assert lines[1..] == rest && lines[0][..|lines[0]| - 1] == line;
  }

  /** The phone reads back exactly the lines the device framed, in order, from the
      bytes on the socket, with no error, for a run within one turn of the counter. */
  lemma {:induction false} ClientReadsAll(c: Crypto, s: Side, outs: seq<Output>, rx: nat)
    requires Works(c) && s.keyed && rx <= s.tx && s.tx + |outs| < U64
    ensures ClientReads(c, s.key, rx, Lines(Stream(c, s, outs))) == Some(Visible(outs))
    decreases |outs|
  {
    hide Works, Sealed, ClientReads, Lines, Stream, Sent, Visible;
    StreamStep(c, s, outs);
    if outs == [] {
      LinesNone();
      ReadsNothing(c, s.key, rx);
    } else {
      var (t, bytes) := Sent(c, s, outs[0].payload, outs[0].ok);
      var rest := Stream(c, t, outs[1..]);
      if Goes(outs[0]) && outs[0].ok {
        var plain := Stripped(outs[0].payload);
        ClientReadsAll(c, t, outs[1..], t.tx);
        SealedIsOneLine(c, s.key, DIR_TO_APP, t.tx, plain);
        LinesOfLine(bytes);
        LinesAppend(bytes, rest);
        ReadsFirst(c, s.key, rx, t.tx, plain, Lines(rest));
      } else {
        ClientReadsAll(c, t, outs[1..], rx);
      }
    }
  }

  lemma {:induction false} StreamStep(c: Crypto, s: Side, outs: seq<Output>)
    requires s.keyed && s.tx + |outs| < U64
    ensures outs == [] ==> Stream(c, s, outs) == [] && Visible(outs) == []
    ensures outs != [] ==>
              var (t, bytes) := Sent(c, s, outs[0].payload, outs[0].ok);
              var rest, seen, plain := Stream(c, t, outs[1..]), Visible(outs[1..]), Stripped(outs[0].payload);
              && t.keyed && t.key == s.key && s.tx <= t.tx <= s.tx + 1
              && (if Goes(outs[0]) && outs[0].ok
                  then && t.tx == s.tx + 1 && bytes == Sealed(c, s.key, DIR_TO_APP, t.tx, plain) + [NL]
                       && Stream(c, s, outs) == bytes + rest && Visible(outs) == [plain] + seen
                  else Stream(c, s, outs) == rest && Visible(outs) == seen)
  {
    hide Sealed, Stripped;
    if outs != [] {
      var (t, bytes) := Sent(c, s, outs[0].payload, outs[0].ok);
      var rest, seen := Stream(c, t, outs[1..]), Visible(outs[1..]);
      assert bytes == [] ==> bytes + rest == rest;
      assert [] + seen == seen;
    }
  }

  lemma {:induction false} ReadsNothing(c: Crypto, key: Secret, rx: nat)
    ensures ClientReads(c, key, rx, []) == Some([])
  {
  }

  // ---- The session's framing state, updated in place ----------------------------------------

  method StrippedLength(payload: Bytes) returns (n: nat)
    ensures n <= |payload| && payload[..n] == Stripped(payload)
  {
    n := |payload|;
    assert payload[..n] == payload;
    while n > 0 && (payload[n - 1] == NL || payload[n - 1] == CR)
      invariant 0 <= n <= |payload| && Stripped(payload[..n]) == Stripped(payload)
    {
      assert payload[..n][..n - 1] == payload[..n - 1];
      n := n - 1;
    }
  }

  class Channel {
    var keyed: bool
    var key: Secret
    var tx: nat
    var rx: nat
    var encrypted: bool

    ghost function View(): Side
      reads this
    {
      Side(keyed, key, tx, rx, encrypted)
    }

    /** The end of a handshake: a fresh key and fresh counters. */
    constructor (key: Secret)
      ensures View() == Side(true, key, 0, 0, false)
    {
      keyed, this.key := true, key;
      tx, rx, encrypted := 0, 0, false;
    }

    method Unwrap(c: Crypto, line: Bytes) returns (plain: Option<Bytes>)
      modifies this
      ensures (View(), plain) == Unwrapped(c, old(View()), line)
      ensures Received(c, old(View()), line, View(), plain)
    {
      UnwrapIs(c, View(), line);
      hide FirstOf, GetU32, GetU64, Received;
      if |line| <= 4 || line[..4] != ENC_PREFIX {
        encrypted := false;
        return Some(line);
      }
      if !keyed {
        return None;
      }
      var comma := Find(line, COMMA, 4, |line|);
      assert line[4..|line|] == line[4..];
      if comma == |line| {
        return None;
      }
      var nonce := c.decode(line[4..comma]);
      var ct := c.decode(line[comma + 1..]);
      assert line[4..][..comma - 4] == line[4..comma] && line[4..][comma - 4 + 1..] == line[comma + 1..];
      if nonce == None || |nonce.value| != NONCE_LEN || ct == None || |ct.value| < TAG_LEN {
        return None;
      }
      var ctr := GetU64(nonce.value[4..]);
      if GetU32(nonce.value[..4]) != DIR_TO_DEV || ctr <= rx || |ct.value| - TAG_LEN > PLAIN_MAX {
        return None;
      }
      plain := c.unseal(key, nonce.value, ct.value);
      if plain == None || |plain.value| != |ct.value| - TAG_LEN {
        return None;
      }
      rx, encrypted := ctr, true;
    }

    method Send(c: Crypto, payload: Bytes, ok: bool) returns (bytes: Bytes)
      modifies this
      ensures (View(), bytes) == Sent(c, old(View()), payload, ok)
      ensures !old(keyed) ==> bytes == payload && View() == old(View())
    {
      hide Nonce, Stripped;
      if !keyed {
        return payload;
      }
      var n := StrippedLength(payload);
      if n > PLAIN_MAX {
        return [];
      }
      tx := (tx + 1) % U64;
      bytes := [];
      if ok {
        var nonce := Nonce(DIR_TO_APP, tx);
        bytes := ENC_PREFIX + c.encode(nonce) + [COMMA] + c.encode(c.seal(key, nonce, payload[..n])) + [NL];
      }
    }
  }
}

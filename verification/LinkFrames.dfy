/** Raw lines from a socket through the frame check to the command handlers: the
    `encrypted` flag that the commands rely on, and what it takes to change who is
    paired. */
module LinkFrames {
  import opened Accounts
  import opened EncFrame
  import opened LinkAuthority
  import opened LocalLink

  /** The link, and the framing state of each session. */
  datatype Wired = Wired(link: Link, sides: seq<Side>)

  /** Both halves of a session agree on its flag and on whether it holds a key. */
  predicate Coupled(w: Wired)
  {
    && |w.sides| == |w.link.pool| == |w.link.named|
    && forall k :: 0 <= k < |w.sides| ==>
         w.sides[k].keyed == Keyed(w.link.pool[k]) && w.sides[k].encrypted == w.link.pool[k].encrypted
  }

  /** The framing state after a command: a session that lost its key, got a new one
      with fresh counters, or kept it. */
  function Rekeyed(s: Side, before: Session, now: Session, key: Secret): Side
  {
    if !Keyed(now) then Side(false, s.key, 0, 0, now.encrypted)
    else if Keyed(before) && before.phase == now.phase then s.(encrypted := now.encrypted)
    else Side(true, key, 0, 0, now.encrypted)
  }

  function RekeyedAll(sides: seq<Side>, before: seq<Session>, now: seq<Session>, key: Secret): (r: seq<Side>)
    requires |sides| == |before| == |now|
    ensures |r| == |sides|
  {
    seq(|sides|, i requires 0 <= i < |sides| => Rekeyed(sides[i], before[i], now[i], key))
  }

  /** One raw line: unwrapped by the session's framing state and, if taken, dispatched
      with the flag the unwrapping left. `key` is the session key a handshake that
      ends on this line agrees on. */
  function RawLine(w: Wired, c: Crypto, parse: Bytes -> Command, sock: int, line: Bytes, key: Secret): Wired
    requires Coupled(w)
  {
    var k := FindSock(w.link.pool, sock);
    if sock < 0 || k == |w.sides| then w
    else
      match Unwrapped(c, w.sides[k], line)
      case (_, None) => w
      case (s, Some(text)) =>
        var e := Line(sock, s.encrypted, parse(text));
        StepKeepsSize(w.link, e);
        var now := Step(w.link, e);
        Wired(now, RekeyedAll(w.sides[k := s], w.link.pool, now.pool, key))
  }

  lemma {:induction false} RawLineCoupled(w: Wired, c: Crypto, parse: Bytes -> Command, sock: int, line: Bytes,
                                          key: Secret)
    requires Coupled(w)
    ensures Coupled(RawLine(w, c, parse, sock, line, key))
  {
    hide Unwrapped, Step, OpensFresh, IsEnc, Keyed;
    var k := FindSock(w.link.pool, sock);
    if sock >= 0 && k < |w.sides| {
      UnwrapIs(c, w.sides[k], line);
      var (s, text) := Unwrapped(c, w.sides[k], line);
      if text.Some? {
        var e := Line(sock, s.encrypted, parse(text.value));
        StepKeepsSize(w.link, e);
        var now, sides := Step(w.link, e), w.sides[k := s];
        var r := RekeyedAll(sides, w.link.pool, now.pool, key);
        forall i | 0 <= i < |r|
          ensures r[i].keyed == Keyed(now.pool[i]) && r[i].encrypted == now.pool[i].encrypted
        {
          assert sides[i].keyed == Keyed(w.link.pool[i]);
          assert r[i] == Rekeyed(sides[i], w.link.pool[i], now.pool[i], key);
        }
      }
    }
  }

  /** The command of a raw line that changed anything is the text of that line, taken
      as plain, or of the fresh frame it was. */
  lemma {:induction false} RawLineSteps(w: Wired, c: Crypto, parse: Bytes -> Command, sock: int, line: Bytes,
                                        key: Secret)
    requires Coupled(w)
    ensures var m, k := RawLine(w, c, parse, sock, line, key), FindSock(w.link.pool, sock);
            || m == w
            || (k < |w.sides| && !IsEnc(line) && m.link == Step(w.link, Line(sock, false, parse(line))))
            || (k < |w.sides| && exists text: Bytes, ctr: nat ::
                  OpensFresh(c, w.sides[k], line, text, ctr) && m.link == Step(w.link, Line(sock, true, parse(text))))
  {
    hide Unwrapped, Step, OpensFresh, IsEnc;
    var k := FindSock(w.link.pool, sock);
    if sock >= 0 && k < |w.sides| {
      UnwrapIs(c, w.sides[k], line);
      var r := Unwrapped(c, w.sides[k], line);
      if IsEnc(line) && r.1.Some? {
        assert OpensFresh(c, w.sides[k], line, r.1.value, r.0.rx);
      }
    }
  }

  /** An account is lost to a raw line only if the line is a fresh frame under its
      session's key whose text is a command that may remove the account. If frames
      that open are the client's, that text is a line the client sent, and one it
      sent after every line the device has taken before. */
  lemma {:induction false} RemovalNeedsFrame(w: Wired, c: Crypto, parse: Bytes -> Command, sock: int, line: Bytes,
                                             key: Secret, sub: Sub, sent: seq<Bytes>)
    requires Coupled(w) && Sound(w.link)
    requires Has(w.link.accounts.list, sub)
    requires !Has(RawLine(w, c, parse, sock, line, key).link.accounts.list, sub)
    ensures var k := FindSock(w.link.pool, sock);
            && k < |w.sides|
            && exists text: Bytes, ctr: nat ::
                 && OpensFresh(c, w.sides[k], line, text, ctr) && Removes(w.link, Line(sock, true, parse(text)), sub)
                 && (Genuine(c, w.sides[k].key, sent, line) ==> w.sides[k].rx < ctr <= |sent| && text == sent[ctr - 1])
  {
    hide Step, OpensFresh, IsEnc, Has, Removes, Sound, Genuine;
    RawLineSteps(w, c, parse, sock, line, key);
    var k, m := FindSock(w.link.pool, sock), RawLine(w, c, parse, sock, line, key);
    PlainRemovesNothing(w.link, sock, parse(line), sub);
    var text: Bytes, ctr: nat :| OpensFresh(c, w.sides[k], line, text, ctr) &&
      m.link == Step(w.link, Line(sock, true, parse(text)));
    AccountLost(w.link, Line(sock, true, parse(text)), sub);
    if Genuine(c, w.sides[k].key, sent, line) {
      FreshIsGenuine(c, w.sides[k], line, text, ctr, sent);
    }
  }

  lemma {:induction false} FreshIsGenuine(c: Crypto, s: Side, line: Bytes, text: Bytes, ctr: nat, sent: seq<Bytes>)
    requires OpensFresh(c, s, line, text, ctr) && Genuine(c, s.key, sent, line)
    ensures s.rx < ctr <= |sent| && text == sent[ctr - 1]
  {
    hide Parsed, GetU32, GetU64, IsEnc;
  }

  /** A plain line removes nobody. */
  lemma {:induction false} PlainRemovesNothing(l: Link, sock: int, c: Command, sub: Sub)
    requires Sound(l) && Has(l.accounts.list, sub)
    ensures Has(Step(l, Line(sock, false, c)).accounts.list, sub)
  {
    hide Step, Has, Sound;
    AccountLost(l, Line(sock, false, c), sub);
  }
}

/** What each command of the local link does to the accounts, to flash and to every
    session, and that it does nothing unless its session may give it. */
module LinkCommands {
  import opened Accounts
  import opened LinkAuthority
  import opened LocalLink
  import opened Options

  // ---- Handshakes ------------------------------------------------------------------------

  /** A handshake line: only its own session changes, as follows. A right proof, and only
      that, leads from waiting for it to a keyed phase; starting over forgets what
      was reached; a line out of turn changes nothing. */
  lemma {:induction false} HandshakeTable(l: Link, k: nat, c: Command)
    requires k < |l.pool| == |l.named| && (c.Pake1? || c.Pake3? || c.Auth1? || c.Auth3?)
    ensures var m, s := Handle(l, k, c), l.pool[k];
            && m.accounts == l.accounts && |m.pool| == |l.pool| == |m.named|
            && (forall j :: 0 <= j < |l.pool| && j != k ==> m.pool[j] == l.pool[j] && m.named[j] == l.named[j])
            && (c.Pake1? ==> m.pool[k] == Session(s.sock, if c.ready then PakeWaitProof else New, NoRole, -1, false))
            && (c.Pake3? ==>
                  m.pool[k] == if s.phase != PakeWaitProof then s
                               else s.(phase := if c.proof == Right then PakeOk else New))
            && (c.Auth1? ==>
                  var i := if c.sub == None then |l.accounts.list| else IndexOf(l.accounts.list, c.sub.value);
                  if i == |l.accounts.list| then m.pool[k] == Session(s.sock, New, NoRole, -1, false)
                  else m.pool[k] == Session(s.sock, AuthWaitProof, NoRole, i, false) && m.named[k] == c.sub.value)
            && (c.Auth3? ==>
                  if s.phase != AuthWaitProof || c.proof == Malformed then m.pool[k] == s
                  else if c.proof == Wrong then m.pool[k] == Session(s.sock, New, s.role, -1, s.encrypted)
                  else
                    var owner := 0 <= s.paired < |l.accounts.list| && l.accounts.list[s.paired].role == Owner;
                    m.pool[k] == Session(s.sock, AuthOk, if owner then OwnerRole else UserRole, s.paired, s.encrypted))
  {
    hide IndexOf;
  }

  /** A session comes to hold a key only by a right proof on its own socket, in the phase
      that waits for it. */
  lemma {:induction false} KeyedOnlyByProof(l: Link, e: Event, k: nat)
    requires |l.pool| == |l.named| && k < |l.pool| && !Keyed(l.pool[k])
    ensures var m := Step(l, e);
            && |m.pool| == |l.pool|
            && (Keyed(m.pool[k]) ==>
                  && e.Line? && e.sock >= 0 && FindSock(l.pool, e.sock) == k
                  && (|| (e.command == Pake3(Right) && l.pool[k].phase == PakeWaitProof)
                      || (e.command == Auth3(Right) && l.pool[k].phase == AuthWaitProof)))
  {
    StepKeepsSize(l, e);
    hide Handle, Reloaded, Cleared;
    if e.Line? {
      var j := FindSock(l.pool, e.sock);
      if j < |l.pool| && e.sock >= 0 && !(e.encrypted && !Keyed(l.pool[j])) {
        KeyedByHandle(SetSession(l, j, l.pool[j].(encrypted := e.encrypted)), j, e.command, k);
      }
    }
  }

  lemma {:induction false} KeyedByHandle(l: Link, j: nat, c: Command, k: nat)
    requires j < |l.pool| == |l.named| && k < |l.pool| && !Keyed(l.pool[k])
    ensures var m := Handle(l, j, c);
            |m.pool| == |l.pool| && Keyed(m.pool[k]) ==>
              && k == j
              && (|| (c == Pake3(Right) && l.pool[k].phase == PakeWaitProof)
                  || (c == Auth3(Right) && l.pool[k].phase == AuthWaitProof))
  {
    hide IndexOf, RevokedFrom, Rotated, Added, RemovedAt;
    if c.PwSet? {
      UnkeyedStays(l, 0, c.stores, 0, k);
    }
  }

  lemma {:induction false} UnkeyedStays(l: Link, i: nat, stores: nat -> bool, n: nat, k: nat)
    requires i <= |l.accounts.list| && k < |l.pool| && !Keyed(l.pool[k])
    ensures var m := RevokedFrom(l, i, stores, n); k < |m.pool| && !Keyed(m.pool[k])
    decreases |l.accounts.list| - i
  {
    hide RemovedAt;
    if i < |l.accounts.list| {
      if l.accounts.list[i].role == Owner {
        UnkeyedStays(l, i + 1, stores, n, k);
      } else {
        SizeUnpaired(l, i, stores(n));
        var m := Unpaired(l, i, stores(n));
        if stores(n) {
          UnkeyedStays(m, i, stores, n + 1, k);
        } else if i < |m.accounts.list| {
          UnkeyedStays(m, i + 1, stores, n + 1, k);
        }
      }
    }
  }

  // ---- Removals ----------------------------------------------------------------------------

  /** The session lost its authentication and kept its socket. */
  predicate LoggedOut(now: Session, before: Session) { now == Session(before.sock, New, NoRole, -1, before.encrypted) }

  /** What a stored removal of entry i makes of a session: on that entry it is logged out,
      otherwise it stays as it was, on its entry. */
  predicate Follows(s: Session, t: Session, i: nat, before: seq<Entry>, after: seq<Entry>)
  {
    if s.sock == -1 then t == s
    else if s.paired == i then LoggedOut(t, s)
    else
      && t.(paired := s.paired) == s
      && (0 <= s.paired < |before| ==> 0 <= t.paired < |after| && after[t.paired] == before[s.paired])
  }

  /** Entry i is gone: the others are there, in order. If that was stored, flash holds
      the same and the sessions follow; if not, flash and the sessions are as they were. */
  predicate TookOut(l: Link, m: Link, i: nat, stored: bool)
    requires i < |l.accounts.list|
  {
    var before, after := l.accounts, m.accounts;
    && after.list == before.list[..i] + before.list[i + 1..] && after.owner == before.owner
    && m.named == l.named && |m.pool| == |l.pool|
    && (if stored
        then
          && after.flash == (if after.list == [] then Empty else Blob(after.owner, after.list))
          && forall j :: 0 <= j < |l.pool| ==> Follows(l.pool[j], m.pool[j], i, before.list, after.list)
        else after.flash == before.flash && m.pool == l.pool)
  }

  lemma {:induction false} RemovalIs(l: Link, i: nat, stored: bool)
    requires i < |l.accounts.list|
    ensures TookOut(l, Unpaired(l, i, stored), i, stored)
  {
    hide Follows, Shifted;
    var list := l.accounts.list;
    forall j | 0 <= j < |l.pool|
      ensures Follows(l.pool[j], Shifted(l.pool[j], i), i, list, Without(list, i))
    {
      ShiftedFollows(l.pool[j], i, list);
    }
  }

  lemma {:induction false} ShiftedFollows(s: Session, i: nat, list: seq<Entry>)
    requires i < |list|
    ensures Follows(s, Shifted(s, i), i, list, Without(list, i))
  {
  }

  /** Exactly the account named is taken out, if it is listed and not the owner's;
      otherwise nothing changes. */
  ghost predicate Revoked(l: Link, m: Link, target: Option<Sub>, stored: bool)
  {
    var list := l.accounts.list;
    && (forall sub :: Has(list, sub) && !Has(m.accounts.list, sub) <==>
                        target == Some(sub) && Has(list, sub) && sub != l.accounts.owner)
    && (if target.Some? && Has(list, target.value) && target.value != l.accounts.owner
        then exists i :: 0 <= i < |list| && list[i].sub == target.value && TookOut(l, m, i, stored)
        else m == l)
  }

  /** What REVOKE from a session of the owner does, in every sound state. */
  lemma {:induction false} RevokeTakesExactlyWhen(l: Link, k: nat, target: Option<Sub>, stored: bool)
    requires Sound(l) && k < |l.pool| && IsOwner(l.pool[k])
    ensures Revoked(l, Handle(l, k, Revoke(target, stored)), target, stored)
  {
    hide Covered, Has, TookOut, Unpaired, IndexOf;
    var m, list, s := Handle(l, k, Revoke(target, stored)), l.accounts.list, l.pool[k];
    assert SessionOk(s, list);
    FirstIsOwner(l);
    if target.Some? {
      var i := IndexOf(list, target.value);
      ListedAt(list, target.value);
      assert i < |list| && target.value == l.accounts.owner ==> i == 0;
      if i < |list| && i != s.paired {
        RemovalIs(l, i, stored);
        TakenIsOne(l, m, i, stored);
      }
    }
  }

  lemma {:induction false} ListedAt(list: seq<Entry>, sub: Sub)
    ensures Has(list, sub) <==> IndexOf(list, sub) < |list|
  {
    hide IndexOf;
    if Has(list, sub) {
      var j :| 0 <= j < |list| && list[j].sub == sub;
    }
  }

  lemma {:induction false} TakenIsOne(l: Link, m: Link, i: nat, stored: bool)
    requires Sound(l) && i < |l.accounts.list| && TookOut(l, m, i, stored)
    ensures forall sub :: Has(l.accounts.list, sub) && !Has(m.accounts.list, sub) <==> sub == l.accounts.list[i].sub
  {
    hide Covered, Has, FlashAgrees;
    var list := l.accounts.list;
    assert DistinctSubs(list) && m.accounts.list == Without(list, i);
    forall sub
      ensures Has(list, sub) && !Has(Without(list, i), sub) <==> sub == list[i].sub
    {
      HasWithout(list, i, sub);
      WithoutLacks(list, i);
      HasAt(list, i);
    }
  }

  /** UNPAIR, from an authenticated session of a user, takes out the entry the session
      points at; the owner's, or an index past the end, changes nothing. */
  lemma {:induction false} UnpairTakes(l: Link, k: nat, stored: bool)
    requires Sound(l) && k < |l.pool| && IsAuthed(l.pool[k])
    ensures var m, i := Handle(l, k, Unpair(stored)), l.pool[k].paired;
            if 0 < i < |l.accounts.list| then TookOut(l, m, i, stored) else m == l
  {
    hide Covered, TookOut, Unpaired;
    var i := l.pool[k].paired;
    if i < |l.accounts.list| {
      FirstIsOwner(l);
      UserAfterFirst(l, i);
      RemovalIs(l, i, stored);
    }
  }

  lemma {:induction false} UserAfterFirst(l: Link, i: nat)
    requires Owns(l) && i < |l.accounts.list|
    ensures l.accounts.list[i].role == Owner <==> i == 0
  {
  }

  // ---- Who may give a command -----------------------------------------------------------------

  /** RESET empties the device and logs everyone out exactly when its line was encrypted
      and its session is authenticated as the owner. */
  lemma {:induction false} ResetTakesExactlyWhen(l: Link, k: nat, stored: bool)
    requires k < |l.pool| == |l.named|
    ensures var m, s := Handle(l, k, Reset(stored)), l.pool[k];
            if s.encrypted && s.role == OwnerRole && (s.phase == AuthOk || (s.phase == PakeOk && s.paired >= 0))
            then
              && m.accounts == Paired("", [], if stored then Empty else l.accounts.flash)
              && m.named == l.named && |m.pool| == |l.pool|
              && forall j :: 0 <= j < |l.pool| ==>
                   if l.pool[j].sock == -1 then m.pool[j] == l.pool[j] else LoggedOut(m.pool[j], l.pool[j])
            else m == l
  {
  }

  /** REVOKE and PWSET do nothing for any other session; UNPAIR needs an encrypted line
      of a session with a key and an entry; ENROLL needs one inside a PAKE session. */
  lemma {:induction false} RefusedCommands(l: Link, k: nat, c: Command)
    requires k < |l.pool| == |l.named|
    requires var s := l.pool[k];
             match c
             case Revoke(_, _) =>
               !(s.encrypted && s.role == OwnerRole && (s.phase == AuthOk || (s.phase == PakeOk && s.paired >= 0)))
             case PwSet(accepted, _, _, _) =>
               || !accepted
               || !(s.encrypted && s.role == OwnerRole && (s.phase == AuthOk || (s.phase == PakeOk && s.paired >= 0)))
             case Unpair(_) => !(s.encrypted && s.paired >= 0 && s.phase in {AuthOk, PakeOk})
             case Enroll(_, _, _, _) => !(s.encrypted && s.phase == PakeOk && c.who.Some?)
             case _ => false
    ensures Handle(l, k, c) == l
  {
    hide RevokedFrom, Rotated, Unpaired, Added;
  }

  /** ENROLL, encrypted inside a PAKE session: the account is added as the list allows,
      and the session stands for it exactly if it was. */
  lemma {:induction false} EnrollTakes(l: Link, k: nat, sub: Sub, email: Email, key: Key, at: nat, stored: bool)
    requires k < |l.pool| == |l.named| && l.pool[k].phase == PakeOk && l.pool[k].encrypted
    ensures var m, r := Handle(l, k, Enroll(Some((sub, email)), key, at, stored)),
                        Added(l.accounts, sub, email, key, at, stored);
            && m.accounts == r.paired && |m.pool| == |l.pool| == |m.named|
            && (forall j :: 0 <= j < |l.pool| && j != k ==> m.pool[j] == l.pool[j] && m.named[j] == l.named[j])
            && (if r.index < 0 then m.pool == l.pool && m.named == l.named
                else
                  var role := if r.role == Owner then OwnerRole else UserRole;
                  m.named[k] == sub && m.pool[k] == l.pool[k].(role := role, paired := r.index))
  {
    hide Added;
  }

  /** Accounts and flash change only by an encrypted line of a keyed session, by a reload
      or by a factory reset; connecting, disconnecting, plain lines and handshakes
      leave them alone. */
  lemma {:induction false} AccountsChangeOnlyBy(l: Link, e: Event)
    requires |l.pool| == |l.named| && Step(l, e).accounts != l.accounts
    ensures e.Reboot? || e.FactoryReset? ||
            (e.Line? && e.encrypted && FindSock(l.pool, e.sock) < |l.pool| && Keyed(l.pool[FindSock(l.pool, e.sock)])
             && (e.command.Enroll? || e.command.Revoke? || e.command.Unpair? || e.command.PwSet? || e.command.Reset?))
  {
    hide RevokedFrom, Rotated, Unpaired, Added, Cleared, IndexOf, Reloaded;
  }

  /** A disconnect wipes the socket's slot and a reboot all of them: what a session had
      reached ends with its connection. */
  lemma {:induction false} AuthEndsWithConnection(l: Link, sock: int, stored: bool)
    requires |l.pool| == |l.named|
    ensures var k, m := FindSock(l.pool, sock), Step(l, Disconnect(sock));
            && |m.pool| == |l.pool| && m.accounts == l.accounts
            && (forall j :: 0 <= j < |l.pool| ==>
                  m.pool[j] == if j == k then Session(-1, New, NoRole, -1, false) else l.pool[j])
    ensures forall j :: 0 <= j < |l.pool| ==> Step(l, Reboot(stored)).pool[j] == Session(-1, New, NoRole, -1, false)
  {
    hide Reloaded;
  }

  // ---- Pairing a new account --------------------------------------------------------

  /** A phone connects, proves the password and enrolls an account. */
  function Joining(sock: int, sub: Sub, key: Key): seq<Event>
  {
    [Connect(sock), Line(sock, false, Pake1(true)), Line(sock, false, Pake3(Right)),
     Line(sock, true, Enroll(Some((sub, "")), key, 0, true))]
  }

  /** The state after that, with the phone's session in slot k. */
  function Joined(l: Link, k: nat, sock: int, sub: Sub, key: Key): Link
    requires k < |l.pool| == |l.named|
  {
    var r := Added(l.accounts, sub, "", key, 0, true);
    Link(r.paired,
         l.pool[k := Session(sock, PakeOk, if r.role == Owner then OwnerRole else UserRole, r.index, true)],
         l.named[k := sub])
  }

  lemma {:induction false} RunOne(l: Link, e: Event, rest: seq<Event>)
    requires |l.pool| == |l.named|
    ensures |Step(l, e).pool| == |Step(l, e).named| && Run(l, [e] + rest) == Run(Step(l, e), rest)
  {
    hide Step;
    StepKeepsSize(l, e);
    assert ([e] + rest)[1..] == rest;
  }

  lemma {:induction false} RunAppend(l: Link, a: seq<Event>, b: seq<Event>)
    requires |l.pool| == |l.named|
    ensures Run(l, a + b) == Run(Run(l, a), b)
    decreases |a|
  {
    hide Step;
    if a == [] {
      assert a + b == b;
    } else {
      StepKeepsSize(l, a[0]);
      RunAppend(Step(l, a[0]), a[1..], b);
      assert (a + b)[1..] == a[1..] + b;
    }
  }

  /** The first free slot, and no slot yet for the socket. */
  predicate FreshFor(pool: seq<Session>, k: nat, sock: int)
  {
    && k < |pool| && pool[k].sock == -1 && sock >= 0
    && forall i :: 0 <= i < k ==> pool[i].sock != -1 && pool[i].sock != sock
  }

  lemma {:induction false} SlotIs(pool: seq<Session>, k: nat, sock: int)
    requires k < |pool| && pool[k].sock == sock && forall i :: 0 <= i < k ==> pool[i].sock != sock
    ensures FindSock(pool, sock) == k
  {
  }

  /** One line on the session in slot k, plain or encrypted on a keyed session. */
  lemma {:induction false} LineIs(l: Link, k: nat, sock: int, encrypted: bool, c: Command)
    requires k < |l.pool| == |l.named| && sock >= 0 && l.pool[k].sock == sock
    requires (forall i :: 0 <= i < k ==> l.pool[i].sock != sock) && (encrypted ==> Keyed(l.pool[k]))
    ensures Step(l, Line(sock, encrypted, c)) == Handle(SetSession(l, k, l.pool[k].(encrypted := encrypted)), k, c)
  {
    hide Handle;
    SlotIs(l.pool, k, sock);
  }

  lemma {:induction false} Connects(l: Link, k: nat, sock: int)
    requires |l.pool| == |l.named| && FreshFor(l.pool, k, sock)
    ensures Step(l, Connect(sock)) == SetSession(l, k, Session(sock, New, NoRole, -1, false))
  {
    SlotIs(l.pool, k, -1);
  }

  /** Any account that the list takes can be paired this way. */
  lemma {:induction false} Joins(l: Link, k: nat, sock: int, sub: Sub, key: Key)
    requires |l.pool| == |l.named| && FreshFor(l.pool, k, sock) && Added(l.accounts, sub, "", key, 0, true).index >= 0
    ensures Run(l, Joining(sock, sub, key)) == Joined(l, k, sock, sub, key)
  {
    hide Step, Added, Run;
    var e := Joining(sock, sub, key);
    var a := SetSession(l, k, Session(sock, New, NoRole, -1, false));
    var b := SetSession(l, k, Session(sock, PakeWaitProof, NoRole, -1, false));
    var c := SetSession(l, k, Session(sock, PakeOk, NoRole, -1, false));
    Connects(l, k, sock);
    LineIs(a, k, sock, false, Pake1(true));
    LineIs(b, k, sock, false, Pake3(Right));
    LineIs(c, k, sock, true, e[3].command);
    assert Step(a, e[1]).pool == b.pool && Step(b, e[2]).pool == c.pool;
    assert Step(c, e[3]).pool == Joined(l, k, sock, sub, key).pool;
    RunOne(l, e[0], e[1..]);
    RunOne(a, e[1], e[2..]);
    RunOne(b, e[2], e[3..]);
    RunOne(c, e[3], []);
    assert e == [e[0]] + e[1..] && e[1..] == [e[1]] + e[2..] && e[2..] == [e[2]] + e[3..] && e[3..] == [e[3]] + [];
    NoMore(Step(c, e[3]));
  }

  lemma {:induction false} NoMore(l: Link)
    requires |l.pool| == |l.named|
    ensures Run(l, []) == l
  {
  }

  // ---- Coming back ---------------------------------------------------------------------------

  /** A paired phone reconnects and proves its key. */
  function Returning(sock: int, sub: Sub): seq<Event>
  {
    [Connect(sock), Line(sock, false, Auth1(Some(sub))), Line(sock, false, Auth3(Right))]
  }

  /** Any listed account comes back this way, on its own entry, as the owner exactly if it
      is the owner's, and then may give the commands of its role in encrypted lines. */
  lemma {:induction false} Returns(l: Link, k: nat, sock: int, sub: Sub)
    requires Owns(l) && FreshFor(l.pool, k, sock) && Has(l.accounts.list, sub)
    ensures var m := Run(l, Returning(sock, sub));
            var i, role := IndexOf(l.accounts.list, sub), if sub == l.accounts.owner then OwnerRole else UserRole;
            && m.accounts == l.accounts && i < |l.accounts.list|
            && m.pool == l.pool[k := Session(sock, AuthOk, role, i, false)] && m.named == l.named[k := sub]
            && var s := m.pool[k].(encrypted := true);
               IsAuthed(s) && (IsOwner(s) <==> sub == l.accounts.owner)
  {
    hide Step, Run, IndexOf, Has;
    ListedAt(l.accounts.list, sub);
    var e, i := Returning(sock, sub), IndexOf(l.accounts.list, sub);
    var role := if sub == l.accounts.owner then OwnerRole else UserRole;
    var a := SetSession(l, k, Session(sock, New, NoRole, -1, false));
    var b := SetSession(l, k, Session(sock, AuthWaitProof, NoRole, i, false)).(named := l.named[k := sub]);
    var c := SetSession(b, k, Session(sock, AuthOk, role, i, false));
    Connects(l, k, sock);
    LineIs(a, k, sock, false, Auth1(Some(sub)));
    LineIs(b, k, sock, false, Auth3(Right));
    assert l.accounts.list[i].role == Owner <==> sub == l.accounts.owner;
    assert Step(a, e[1]).pool == b.pool && Step(b, e[2]).pool == c.pool;
    RunOne(l, e[0], e[1..]);
    RunOne(a, e[1], e[2..]);
    RunOne(b, e[2], []);
    assert e == [e[0]] + e[1..] && e[1..] == [e[1]] + e[2..] && e[2..] == [e[2]] + [];
    NoMore(c);
  }
}

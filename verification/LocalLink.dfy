/** The local-link commands as atomic steps on the account list and the pool of
    per-socket sessions that point into it by index (local_session.c,
    local_auth.c, pake_handler.c, owner_commands.c). */
module LocalLink {
  import opened Options
  import opened Accounts

  const LOCAL_SESSION_MAX := 8

  datatype Phase = New | PakeWaitProof | PakeOk | AuthWaitProof | AuthOk

  datatype SessionRole = NoRole | UserRole | OwnerRole

  /** local_session_t, without key material: sock -1 is a free slot. */
  datatype Session = Session(sock: int, phase: Phase, role: SessionRole, paired: int, encrypted: bool)

  const FREE_SLOT := Session(-1, New, NoRole, -1, false)

  /** `named` is history: the account each session last enrolled or asked to
      authenticate as. */
  datatype Link = Link(accounts: Paired, pool: seq<Session>, named: seq<Sub>)

  // ---- local_session.c ------------------------------------------------------------

  function FindSock(pool: seq<Session>, sock: int): (k: nat)
    ensures k <= |pool|
    ensures k < |pool| ==> pool[k].sock == sock
    ensures forall i :: 0 <= i < k ==> pool[i].sock != sock
  {
    if pool == [] then 0 else if pool[0].sock == sock then 0 else 1 + FindSock(pool[1..], sock)
  }

  /** drop_auth: the socket stays. */
  function Dropped(s: Session): Session { s.(phase := New, role := NoRole, paired := -1) }

  /** local_session_reset_handshake */
  function Restarted(s: Session): Session { s.(phase := New, role := NoRole, paired := -1, encrypted := false) }

  function Shifted(s: Session, index: int): Session
  {
    if s.sock == -1 then s
    else if s.paired == index then Dropped(s)
    else if s.paired > index then s.(paired := s.paired - 1)
    else s
  }

  /** local_session_on_paired_removed */
  function OnRemoved(pool: seq<Session>, index: int): (r: seq<Session>)
    ensures |r| == |pool|
  {
    seq(|pool|, i requires 0 <= i < |pool| => Shifted(pool[i], index))
  }

  /** local_session_drop_all_auth */
  function AllDropped(pool: seq<Session>): (r: seq<Session>)
    ensures |r| == |pool|
  {
    seq(|pool|, i requires 0 <= i < |pool| => if pool[i].sock == -1 then pool[i] else Dropped(pool[i]))
  }

  // ---- Commands -----------------------------------------------------------------------

  datatype Proof = Malformed | Wrong | Right

  /** What a line says, once parsed: None is a format error. `stored` is the
      outcome of each flash write the command makes. */
  datatype Command =
    | Pake1(ready: bool)
    | Pake3(proof: Proof)
    | Enroll(who: Option<(Sub, Email)>, key: Key, at: nat, stored: bool)
    | Auth1(sub: Option<Sub>)
    | Auth3(proof: Proof)
    | Revoke(target: Option<Sub>, stored: bool)
    | Unpair(stored: bool)
    | PwSet(accepted: bool, stores: nat -> bool, key: Key, stored: bool)
    | Reset(stored: bool)

  datatype Event =
    | Connect(sock: int)
    | Disconnect(sock: int)
    | Line(sock: int, encrypted: bool, command: Command)
    | Reboot(stored: bool)
    | FactoryReset(cleared: bool, stored: bool)

  /** session_keyed */
  predicate Keyed(s: Session) { s.phase == PakeOk || s.phase == AuthOk }

  /** is_owner_session */
  predicate IsOwner(s: Session)
  {
    s.encrypted && s.role == OwnerRole && (s.phase == AuthOk || (s.phase == PakeOk && s.paired >= 0))
  }

  /** is_authed_session */
  predicate IsAuthed(s: Session) { s.encrypted && s.paired >= 0 && Keyed(s) }

  function SetSession(l: Link, k: nat, s: Session): Link
    requires k < |l.pool|
  {
    l.(pool := l.pool[k := s])
  }

  /** Removing an entry, and telling the sessions if the store succeeded. */
  function Unpaired(l: Link, i: nat, ok: bool): Link
    requires i < |l.accounts.list|
  {
    l.(accounts := RemovedAt(l.accounts, i, ok), pool := if ok then OnRemoved(l.pool, i) else l.pool)
  }

  lemma {:induction false} SizeUnpaired(l: Link, i: nat, ok: bool)
    requires i < |l.accounts.list|
    ensures |Unpaired(l, i, ok).accounts.list| == |l.accounts.list| - 1
  {
  }

  /** revoke_all_non_owner: slot i is looked at next, `n` removals have been made. */
  function RevokedFrom(l: Link, i: nat, stores: nat -> bool, n: nat): Link
    requires i <= |l.accounts.list|
    decreases |l.accounts.list| - i
  {
    if i == |l.accounts.list| then l
    else if l.accounts.list[i].role == Owner then RevokedFrom(l, i + 1, stores, n)
    else
      var m := Unpaired(l, i, stores(n));
      if stores(n) then RevokedFrom(m, i, stores, n + 1)
      else if i < |m.accounts.list| then RevokedFrom(m, i + 1, stores, n + 1)
      else m
  }

  /** One command on the session in slot k. */
  function Handle(l: Link, k: nat, c: Command): Link
    requires k < |l.pool| == |l.named|
  {
    var s, a := l.pool[k], l.accounts;
    match c
    case Pake1(ready) =>
      SetSession(l, k, if ready then Restarted(s).(phase := PakeWaitProof) else Restarted(s))
    case Pake3(proof) =>
      if s.phase != PakeWaitProof then l
      else SetSession(l, k, s.(phase := if proof == Right then PakeOk else New))
    case Enroll(who, key, at, stored) =>
      if s.phase != PakeOk || !s.encrypted || who == None then l
      else
        var r := Added(a, who.value.0, who.value.1, key, at, stored);
        if r.index < 0 then l.(accounts := r.paired)
        else l.(accounts := r.paired, named := l.named[k := who.value.0],
                pool := l.pool[k := s.(paired := r.index, role := if r.role == Owner then OwnerRole else UserRole)])
    case Auth1(sub) =>
      if sub == None || IndexOf(a.list, sub.value) == |a.list| then SetSession(l, k, Restarted(s))
      else SetSession(l.(named := l.named[k := sub.value]), k,
                      Restarted(s).(phase := AuthWaitProof, paired := IndexOf(a.list, sub.value)))
    case Auth3(proof) =>
      if s.phase != AuthWaitProof || proof == Malformed then l
      else if proof == Wrong then SetSession(l, k, s.(phase := New, paired := -1))
      else
        var owner := 0 <= s.paired < |a.list| && a.list[s.paired].role == Owner;
        SetSession(l, k, s.(phase := AuthOk, role := if owner then OwnerRole else UserRole))
    case Revoke(target, stored) =>
      if !IsOwner(s) || target == None then l
      else
        var i := IndexOf(a.list, target.value);
        if i == |a.list| || i == s.paired then l else Unpaired(l, i, stored)
    case Unpair(stored) =>
      if !IsAuthed(s) || s.paired >= |a.list| || a.list[s.paired].role == Owner then l
      else Unpaired(l, s.paired, stored)
    case PwSet(accepted, stores, key, stored) =>
      if !IsOwner(s) || !accepted then l
      else
        var m := RevokedFrom(l, 0, stores, 0);
        m.(accounts := Rotated(m.accounts, key, stored))
    case Reset(stored) =>
      if !IsOwner(s) then l
      else l.(accounts := Cleared(a, stored), pool := AllDropped(l.pool))
  }

  function Step(l: Link, e: Event): Link
    requires |l.pool| == |l.named|
  {
    match e
    case Connect(sock) =>
      var k := FindSock(l.pool, -1);
      if k == |l.pool| then l else SetSession(l, k, FREE_SLOT.(sock := sock))
    case Disconnect(sock) =>
      var k := FindSock(l.pool, sock);
      if k == |l.pool| then l else SetSession(l, k, FREE_SLOT)
    case Line(sock, encrypted, command) =>
      var k := FindSock(l.pool, sock);
      if sock < 0 || k == |l.pool| || (encrypted && !Keyed(l.pool[k])) then l
      else Handle(SetSession(l, k, l.pool[k].(encrypted := encrypted)), k, command)
    case Reboot(stored) =>
      l.(accounts := Reloaded(l.accounts, stored), pool := seq(|l.pool|, _ => FREE_SLOT))
    case FactoryReset(cleared, stored) =>
      l.(accounts := Reloaded(Cleared(l.accounts, cleared), stored), pool := seq(|l.pool|, _ => FREE_SLOT))
  }

  function Run(l: Link, events: seq<Event>): Link
    requires |l.pool| == |l.named|
    ensures |Run(l, events).pool| == |Run(l, events).named|
    decreases |events|
  {
    if events == [] then l else
    StepKeepsSize(l, events[0]); Run(Step(l, events[0]), events[1..])
  }

  predicate Init(l: Link)
  {
    && l.accounts == Paired("", [], Empty)
    && l.pool == seq(LOCAL_SESSION_MAX, _ => FREE_SLOT) && |l.named| == LOCAL_SESSION_MAX
  }

  lemma {:induction false} RevokedKeepsSize(l: Link, i: nat, stores: nat -> bool, n: nat)
    requires i <= |l.accounts.list|
    ensures var m := RevokedFrom(l, i, stores, n); |m.pool| == |l.pool| && m.named == l.named
    decreases |l.accounts.list| - i
  {
    if i < |l.accounts.list| {
      if l.accounts.list[i].role == Owner {
        RevokedKeepsSize(l, i + 1, stores, n);
      } else {
        var m := Unpaired(l, i, stores(n));
        if stores(n) {
          RevokedKeepsSize(m, i, stores, n + 1);
        } else if i < |m.accounts.list| {
          RevokedKeepsSize(m, i + 1, stores, n + 1);
        }
      }
    }
  }

  lemma {:induction false} StepKeepsSize(l: Link, e: Event)
    requires |l.pool| == |l.named|
    ensures |Step(l, e).pool| == |l.pool| && |Step(l, e).named| == |l.named|
  {
    if e.Line? {
      var k := FindSock(l.pool, e.sock);
      if k < |l.pool| && e.command.PwSet? {
        RevokedKeepsSize(SetSession(l, k, l.pool[k].(encrypted := e.encrypted)), 0, e.command.stores, 0);
      }
    }
  }

  // ---- Ownership over whole runs ---------------------------------------------------

  /** The blob in flash, if there is a list in RAM, is the same owner's. */
  predicate FlashAgrees(p: Paired)
  {
    p.list != [] ==> (p.flash.Blob? || p.flash.BlobV2?) && p.flash.owner == p.owner
  }

  predicate SessionOk(s: Session, list: seq<Entry>)
  {
    && (s.sock == -1 ==> s.paired == -1)
    && s.paired >= -1
    && (s.role != NoRole ==> Keyed(s))
    && (s.role != NoRole || s.phase == AuthWaitProof ==> s.paired >= 0)
    && (s.role == OwnerRole ==> s.paired == 0 && list != [])
  }

  /** The owner's entry exists whenever anyone is paired, first in the list, and
      owner sessions point at it. */
  predicate Owns(l: Link)
  {
    && |l.pool| == |l.named|
    && WellOwned(l.accounts) && FlashAgrees(l.accounts)
    && forall k :: 0 <= k < |l.pool| ==> SessionOk(l.pool[k], l.accounts.list)
  }

  /** There is an owner before and after, and it is the same account. */
  predicate SameOwner(l: Link, m: Link)
  {
    l.accounts.list != [] && m.accounts.list != [] && m.accounts.owner == l.accounts.owner
  }

  lemma {:induction false} UnpairedOwns(l: Link, i: nat, ok: bool)
    requires Owns(l) && 0 < i < |l.accounts.list|
    ensures Owns(Unpaired(l, i, ok)) && SameOwner(l, Unpaired(l, i, ok))
    ensures Unpaired(l, i, ok).accounts.list[0] == l.accounts.list[0]
  {
    WithoutKeepsOwner(l.accounts.owner, l.accounts.list, i);
  }

  lemma {:induction false} RevokedOwns(l: Link, i: nat, stores: nat -> bool, n: nat)
    requires Owns(l) && i <= |l.accounts.list| && l.accounts.list != []
    ensures var m := RevokedFrom(l, i, stores, n); Owns(m) && SameOwner(l, m)
    decreases |l.accounts.list| - i
  {
    if i < |l.accounts.list| {
      if l.accounts.list[i].role == Owner {
        RevokedOwns(l, i + 1, stores, n);
      } else {
        UnpairedOwns(l, i, stores(n));
        var m := Unpaired(l, i, stores(n));
        if stores(n) {
          RevokedOwns(m, i, stores, n + 1);
        } else if i < |m.accounts.list| {
          RevokedOwns(m, i + 1, stores, n + 1);
        }
      }
    }
  }

  lemma {:induction false} RotatedOwns(l: Link, key: Key, ok: bool)
    requires Owns(l) && l.accounts.list != []
    ensures var m := l.(accounts := Rotated(l.accounts, key, ok)); Owns(m) && SameOwner(l, m)
  {
  }

  lemma {:induction false} EnrollOwns(l: Link, k: nat, c: Command)
    requires Owns(l) && k < |l.pool| && c.Enroll? && l.pool[k].sock != -1
    ensures Owns(Handle(l, k, c)) && (l.accounts.list != [] ==> SameOwner(l, Handle(l, k, c)))
  {
    if c.who.Some? {
      AddKeepsOwner(l.accounts, c.who.value.0, c.who.value.1, c.key, c.at, c.stored);
    }
  }

  lemma {:induction false} PwSetOwns(l: Link, k: nat, c: Command)
    requires Owns(l) && k < |l.pool| && c.PwSet?
    ensures Owns(Handle(l, k, c)) && (l.accounts.list != [] ==> SameOwner(l, Handle(l, k, c)))
  {
    hide WellOwned, RevokedFrom, Rotated;
    if IsOwner(l.pool[k]) && c.accepted {
      RevokedOwns(l, 0, c.stores, 0);
      RotatedOwns(RevokedFrom(l, 0, c.stores, 0), c.key, c.stored);
    }
  }

  /** Commands that touch one session and leave the accounts alone. */
  lemma {:induction false} HandshakeOwns(l: Link, k: nat, c: Command)
    requires Owns(l) && k < |l.pool| && l.pool[k].sock != -1 && (c.Pake1? || c.Pake3? || c.Auth1? || c.Auth3?)
    ensures Owns(Handle(l, k, c)) && Handle(l, k, c).accounts == l.accounts
  {
    hide FlashAgrees, IndexOf;
    assert SessionOk(l.pool[k], l.accounts.list);
    assert SessionOk(Handle(l, k, c).pool[k], l.accounts.list);
  }

  lemma {:induction false} RemovalOwns(l: Link, k: nat, c: Command)
    requires Owns(l) && k < |l.pool| && (c.Revoke? || c.Unpair?)
    ensures Owns(Handle(l, k, c)) && (l.accounts.list != [] ==> SameOwner(l, Handle(l, k, c)))
  {
    hide IndexOf, Unpaired;
    var s, list := l.pool[k], l.accounts.list;
    if c.Revoke? && IsOwner(s) && c.target.Some? {
      var i := IndexOf(list, c.target.value);
      if i < |list| && i != s.paired {
        UnpairedOwns(l, i, c.stored);
      }
    }
    if c.Unpair? && IsAuthed(s) && s.paired < |list| && list[s.paired].role != Owner {
      UnpairedOwns(l, s.paired, c.stored);
    }
  }

  lemma {:induction false} HandleOwns(l: Link, k: nat, c: Command)
    requires Owns(l) && k < |l.pool| && l.pool[k].sock != -1
    ensures Owns(Handle(l, k, c))
    ensures l.accounts.list != [] ==> (SameOwner(l, Handle(l, k, c)) <==> !(c.Reset? && IsOwner(l.pool[k])))
  {
    match c
    case Enroll(_, _, _, _) => EnrollOwns(l, k, c);
    case PwSet(_, _, _, _) => PwSetOwns(l, k, c);
    case Revoke(_, _) => RemovalOwns(l, k, c);
    case Unpair(_) => RemovalOwns(l, k, c);
    case Reset(_) =>
    case _ => HandshakeOwns(l, k, c);
  }

  /** The events that take the device from its owner: a RESET over the owner's
      encrypted session, and a factory reset whose store succeeds. */
  predicate Wipes(l: Link, e: Event)
  {
    match e
    case Line(sock, encrypted, Reset(_)) =>
      var k := FindSock(l.pool, sock);
      sock >= 0 && k < |l.pool| && encrypted && IsOwner(l.pool[k].(encrypted := true))
    case FactoryReset(cleared, _) => cleared
    case _ => false
  }

  lemma {:induction false} LineOwns(l: Link, sock: int, encrypted: bool, c: Command)
    requires Owns(l)
    ensures var e := Line(sock, encrypted, c);
            Owns(Step(l, e)) && (l.accounts.list != [] ==> (SameOwner(l, Step(l, e)) <==> !Wipes(l, e)))
  {
    hide WellOwned, Handle, FlashAgrees;
    var k := FindSock(l.pool, sock);
    if k < |l.pool| && sock >= 0 && !(encrypted && !Keyed(l.pool[k])) {
      var m := SetSession(l, k, l.pool[k].(encrypted := encrypted));
      assert SessionOk(m.pool[k], m.accounts.list) by { assert SessionOk(l.pool[k], l.accounts.list); }
      HandleOwns(m, k, c);
    }
  }

  /** Ownership survives every event, and an owned device changes hands or
      becomes free exactly on the events named in Wipes. */
  lemma {:induction false} StepOwns(l: Link, e: Event)
    requires Owns(l)
    ensures Owns(Step(l, e)) && (l.accounts.list != [] ==> (SameOwner(l, Step(l, e)) <==> !Wipes(l, e)))
  {
    match e
    case Line(sock, encrypted, c) => LineOwns(l, sock, encrypted, c);
    case Reboot(stored) => ReloadKeepsOwner(l.accounts, stored); ReloadAgrees(l.accounts, stored);
    case FactoryReset(cleared, stored) =>
      var a := Cleared(l.accounts, cleared);
      ReloadKeepsOwner(a, stored);
      ReloadAgrees(a, stored);
    case _ =>
  }

  lemma {:induction false} ReloadAgrees(p: Paired, ok: bool)
    requires WellOwned(p)
    ensures FlashAgrees(Reloaded(p, ok))
    ensures p.flash.Blob? || p.flash.BlobV2? ==> Reloaded(p, ok).owner == p.flash.owner && Reloaded(p, ok).list != []
  {
    hide Deduped, Owned, Migrated;
    LoadedOwned(p.flash);
    OwnedHasOwner(p.(owner := Loaded(p.flash).0, list := Deduped(Loaded(p.flash).1)));
  }

  /** From an unpaired device, after any events at all, failed flash writes and
      reboots included: the list is empty exactly when there is no owner, and
      otherwise exactly its first entry is the owner's; sessions that hold the
      owner role point at that entry. */
  lemma {:induction false} OwnershipOverRuns(l: Link, events: seq<Event>)
    requires Init(l)
    ensures Owns(Run(l, events))
  {
    OwnsOnwards(l, events);
  }

  lemma {:induction false} OwnsOnwards(l: Link, events: seq<Event>)
    requires Owns(l)
    ensures Owns(Run(l, events))
    decreases |events|
  {
    if events != [] {
      StepOwns(l, events[0]);
      OwnsOnwards(Step(l, events[0]), events[1..]);
    }
  }

  /** Until a wiping event happens, no run takes the device from its owner. */
  lemma {:induction false} OwnerStays(l: Link, events: seq<Event>)
    requires Owns(l) && l.accounts.list != []
    requires forall i :: 0 <= i < |events| ==> !Wipes(RunTo(l, events, i), events[i])
    ensures SameOwner(l, Run(l, events))
    decreases |events|
  {
    if events != [] {
      assert RunTo(l, events, 0) == l;
      StepOwns(l, events[0]);
      var m, rest := Step(l, events[0]), events[1..];
      forall i | 0 <= i < |rest|
        ensures !Wipes(RunTo(m, rest, i), rest[i])
      {
        assert events[..i + 1][0] == events[0] && events[..i + 1][1..] == rest[..i];
        assert RunTo(l, events, i + 1) == RunTo(m, rest, i);
      }
      OwnerStays(m, rest);
    }
  }

  /** The state before event i of a run. */
  function RunTo(l: Link, events: seq<Event>, i: nat): Link
    requires |l.pool| == |l.named| && i <= |events|
  {
    Run(l, events[..i])
  }
}

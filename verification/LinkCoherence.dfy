/** What the index held by a session means: the entry of the account the session
    named, across every removal that shifts the list; and what rotating the
    password leaves of the list and of the other sessions. */
module LinkCoherence {
  import opened Accounts
  import opened LocalLink

  predicate Points(s: Session, who: Sub, list: seq<Entry>)
  {
    s.paired >= 0 ==> s.paired < |list| && list[s.paired].sub == who
  }

  /** Every session that points into the list points at the account it named. */
  predicate Coherent(l: Link)
  {
    && Owns(l)
    && forall k :: 0 <= k < |l.pool| ==> Points(l.pool[k], l.named[k], l.accounts.list)
  }

  predicate NoneAtOrAbove(pool: seq<Session>, i: int)
  {
    forall k :: 0 <= k < |pool| ==> pool[k].paired < i
  }

  lemma {:induction false} PointsAfterRemoval(s: Session, who: Sub, list: seq<Entry>, i: nat)
    requires DistinctSubs(list) && i < |list| && Points(s, who, list) && s.paired >= -1
    requires s.sock == -1 ==> s.paired == -1
    ensures Points(Shifted(s, i), who, Without(list, i))
    ensures Points(s, who, Without(list, i)) <==> s.paired < i
  {
    var w := Without(list, i);
    assert forall j :: 0 <= j < |w| ==> w[j] == list[if j < i then j else j + 1];
  }

  /** Removing an entry keeps every session on its own account exactly when the
      store succeeded, so that the sessions were told, or no session pointed at
      the entry or past it. */
  lemma {:induction false} RemovalCoherentExactlyWhen(l: Link, i: nat, ok: bool)
    requires Coherent(l) && 0 < i < |l.accounts.list|
    ensures Coherent(Unpaired(l, i, ok)) <==> ok || NoneAtOrAbove(l.pool, i)
  {
    hide Without;
    var m, list := Unpaired(l, i, ok), l.accounts.list;
    UnpairedOwns(l, i, ok);
    forall k | 0 <= k < |l.pool|
      ensures Points(Shifted(l.pool[k], i), l.named[k], m.accounts.list)
      ensures Points(l.pool[k], l.named[k], m.accounts.list) <==> l.pool[k].paired < i
    {
      assert SessionOk(l.pool[k], list) && Points(l.pool[k], l.named[k], list);
      PointsAfterRemoval(l.pool[k], l.named[k], list, i);
    }
  }

  /** A session that unpairs itself while the store fails is left pointing at
      another account's entry or past the end. */
  lemma {:induction false} UnpairCoherentExactlyWhen(l: Link, k: nat, ok: bool)
    requires Coherent(l) && k < |l.pool| && IsAuthed(l.pool[k]) && l.pool[k].paired > 0
    ensures Coherent(Handle(l, k, Unpair(ok))) <==> ok
  {
    hide Unpaired;
    assert Points(l.pool[k], l.named[k], l.accounts.list);
    RemovalCoherentExactlyWhen(l, l.pool[k].paired, ok);
  }

  /** Each removal the event makes was stored. */
  ghost predicate RemovalsStored(e: Event)
  {
    e.Line? ==>
      match e.command
      case Revoke(_, stored) => stored
      case Unpair(stored) => stored
      case PwSet(_, stores, _, _) => forall n: nat :: stores(n)
      case _ => true
  }

  lemma {:induction false} RevokedCoherent(l: Link, i: nat, stores: nat -> bool, n: nat)
    requires Coherent(l) && i <= |l.accounts.list| && forall m: nat :: stores(m)
    ensures Coherent(RevokedFrom(l, i, stores, n))
    decreases |l.accounts.list| - i
  {
    hide Unpaired;
    if i < |l.accounts.list| {
      if l.accounts.list[i].role == Owner {
        RevokedCoherent(l, i + 1, stores, n);
      } else {
        RemovalCoherentExactlyWhen(l, i, true);
        var m := Unpaired(l, i, true);
        assert |m.accounts.list| == |l.accounts.list| - 1 by { SizeUnpaired(l, i, true); }
        RevokedCoherent(m, i, stores, n + 1);
      }
    }
  }

  lemma {:induction false} RotatedCoherent(l: Link, key: Key, ok: bool)
    requires Coherent(l) && l.accounts.list != []
    ensures Coherent(l.(accounts := Rotated(l.accounts, key, ok)))
  {
    RotatedOwns(l, key, ok);
    var m := l.(accounts := Rotated(l.accounts, key, ok));
    forall k | 0 <= k < |m.pool|
      ensures Points(m.pool[k], m.named[k], m.accounts.list)
    {
      assert Points(l.pool[k], l.named[k], l.accounts.list);
    }
  }

  lemma {:induction false} EnrollCoherent(l: Link, k: nat, c: Command)
    requires Coherent(l) && k < |l.pool| && c.Enroll? && l.pool[k].sock != -1
    ensures Coherent(Handle(l, k, c))
  {
    hide WellOwned, IndexOf, RoleFor;
    EnrollOwns(l, k, c);
    var m := Handle(l, k, c);
    forall j | 0 <= j < |m.pool|
      ensures Points(m.pool[j], m.named[j], m.accounts.list)
    {
      assert Points(l.pool[j], l.named[j], l.accounts.list);
    }
  }

  lemma {:induction false} HandshakeCoherent(l: Link, k: nat, c: Command)
    requires Coherent(l) && k < |l.pool| && l.pool[k].sock != -1 && (c.Pake1? || c.Pake3? || c.Auth1? || c.Auth3?)
    ensures Coherent(Handle(l, k, c))
  {
    hide WellOwned, IndexOf;
    HandshakeOwns(l, k, c);
    var m := Handle(l, k, c);
    forall j | 0 <= j < |m.pool|
      ensures Points(m.pool[j], m.named[j], m.accounts.list)
    {
      assert Points(l.pool[j], l.named[j], l.accounts.list);
    }
  }

  lemma {:induction false} RemovalsCoherent(l: Link, k: nat, c: Command)
    requires Coherent(l) && k < |l.pool| && RemovalsStored(Line(0, true, c)) && (c.Revoke? || c.Unpair? || c.PwSet?)
    ensures Coherent(Handle(l, k, c))
  {
    hide Unpaired, IndexOf, RevokedFrom, Rotated;
    var s, list := l.pool[k], l.accounts.list;
    if c.Revoke? && IsOwner(s) && c.target.Some? {
      var i := IndexOf(list, c.target.value);
      if i < |list| && i != s.paired {
        RemovalCoherentExactlyWhen(l, i, true);
      }
    }
    if c.Unpair? && IsAuthed(s) && s.paired < |list| && list[s.paired].role != Owner {
      RemovalCoherentExactlyWhen(l, s.paired, true);
    }
    if c.PwSet? && IsOwner(s) && c.accepted {
      RevokedCoherent(l, 0, c.stores, 0);
      RevokedOwns(l, 0, c.stores, 0);
      RotatedCoherent(RevokedFrom(l, 0, c.stores, 0), c.key, c.stored);
    }
  }

  lemma {:induction false} HandleCoherent(l: Link, k: nat, c: Command)
    requires Coherent(l) && k < |l.pool| && l.pool[k].sock != -1 && RemovalsStored(Line(0, true, c))
    ensures Coherent(Handle(l, k, c))
  {
    match c
    case Enroll(_, _, _, _) => EnrollCoherent(l, k, c);
    case Reset(_) => HandleOwns(l, k, c);
    case Revoke(_, _) => RemovalsCoherent(l, k, c);
    case Unpair(_) => RemovalsCoherent(l, k, c);
    case PwSet(_, _, _, _) => RemovalsCoherent(l, k, c);
    case _ => HandshakeCoherent(l, k, c);
  }

  lemma {:induction false} StepCoherent(l: Link, e: Event)
    requires Coherent(l) && RemovalsStored(e)
    ensures Coherent(Step(l, e))
  {
    hide Owns, Handle;
    StepOwns(l, e);
    if e.Line? {
      var k := FindSock(l.pool, e.sock);
      if k < |l.pool| && e.sock >= 0 && !(e.encrypted && !Keyed(l.pool[k])) {
        FlagKeepsCoherence(l, k, e.encrypted);
        HandleCoherent(SetSession(l, k, l.pool[k].(encrypted := e.encrypted)), k, e.command);
      }
    }
  }

  lemma {:induction false} FlagKeepsCoherence(l: Link, k: nat, encrypted: bool)
    requires Coherent(l) && k < |l.pool|
    ensures Coherent(SetSession(l, k, l.pool[k].(encrypted := encrypted)))
  {
    assert SessionOk(l.pool[k], l.accounts.list) && Points(l.pool[k], l.named[k], l.accounts.list);
  }

  /** Over any run whose removals were stored, every session stays on the account
      it named. */
  lemma {:induction false} CoherenceOverRuns(l: Link, events: seq<Event>)
    requires Init(l) && forall i :: 0 <= i < |events| ==> RemovalsStored(events[i])
    ensures Coherent(Run(l, events))
  {
    CoherentOnwards(l, events);
  }

  lemma {:induction false} CoherentOnwards(l: Link, events: seq<Event>)
    requires Coherent(l) && forall i :: 0 <= i < |events| ==> RemovalsStored(events[i])
    ensures Coherent(Run(l, events))
    decreases |events|
  {
    hide WellOwned, RemovalsStored;
    if events != [] {
      StepCoherent(l, events[0]);
      CoherentOnwards(Step(l, events[0]), events[1..]);
    }
  }

  // ---- Rotating the password ----------------------------------------------------------

  /** Entries before the one looked at are never touched again. */
  lemma {:induction false} RevokedKeepsFirst(l: Link, i: nat, stores: nat -> bool, n: nat)
    requires i <= |l.accounts.list|
    ensures var m := RevokedFrom(l, i, stores, n).accounts.list; i <= |m| && m[..i] == l.accounts.list[..i]
    decreases |l.accounts.list| - i
  {
    if i < |l.accounts.list| {
      if l.accounts.list[i].role == Owner {
        RevokedKeepsFirst(l, i + 1, stores, n);
      } else {
        var m := Unpaired(l, i, stores(n));
        assert m.accounts.list[..i] == l.accounts.list[..i];
        if stores(n) {
          RevokedKeepsFirst(m, i, stores, n + 1);
        } else if i < |m.accounts.list| {
          RevokedKeepsFirst(m, i + 1, stores, n + 1);
        }
      }
    }
  }

  lemma {:induction false} RevokedFromFirst(l: Link, stores: nat -> bool, n: nat)
    requires Owns(l) && l.accounts.list != []
    ensures |RevokedFrom(l, 1, stores, n).accounts.list| == 1 <==>
            forall m: nat :: n <= m < n + |l.accounts.list| - 2 ==> stores(m)
    decreases |l.accounts.list|
  {
    var list := l.accounts.list;
    if |list| >= 2 {
      var m := Unpaired(l, 1, stores(n));
      UnpairedOwns(l, 1, stores(n));
      if stores(n) {
        RevokedFromFirst(m, stores, n + 1);
        var more := forall j: nat :: n + 1 <= j < n + 1 + |m.accounts.list| - 2 ==> stores(j);
        assert more <==> forall j: nat :: n <= j < n + |list| - 2 ==> stores(j);
      } else if |list| > 2 {
        RevokedKeepsFirst(m, 2, stores, n + 1);
      }
    }
  }

  /** Rotating the password leaves the owner alone on the list exactly when every
      removal but possibly the last was stored: the entry is gone from RAM either
      way, but after a failed store the walk steps over its successor. */
  lemma {:induction false} OnlyOwnerLeftExactlyWhen(l: Link, k: nat, stores: nat -> bool, key: Key, stored: bool)
    requires Owns(l) && k < |l.pool| && IsOwner(l.pool[k])
    ensures var m := Handle(l, k, PwSet(true, stores, key, stored)).accounts;
            |m.list| == 1 <==> forall n: nat :: n < |l.accounts.list| - 2 ==> stores(n)
  {
    hide WellOwned, Rotated, Unpaired;
    assert SessionOk(l.pool[k], l.accounts.list);
    RevokedFromFirst(l, stores, 0);
    assert l.accounts.list[0].role == Owner by { OwnerFirst(l); }
    assert RevokedFrom(l, 0, stores, 0) == RevokedFrom(l, 1, stores, 0);
    RotatedSize(RevokedFrom(l, 1, stores, 0).accounts, key, stored);
  }

  lemma {:induction false} OwnerFirst(l: Link)
    requires Owns(l) && l.accounts.list != []
    ensures l.accounts.list[0].role == Owner
  {
  }

  lemma {:induction false} RotatedSize(p: Paired, key: Key, ok: bool)
    ensures |Rotated(p, key, ok).list| == |p.list|
  {
  }

  /** Sessions on the owner's account, and sessions on none, are left as they are. */
  function UsersDropped(pool: seq<Session>): (r: seq<Session>)
    ensures |r| == |pool|
  {
    seq(|pool|, i requires 0 <= i < |pool| => if pool[i].paired > 0 then Dropped(pool[i]) else pool[i])
  }

  predicate Bounded(l: Link)
  {
    forall k :: 0 <= k < |l.pool| ==>
      -1 <= l.pool[k].paired < |l.accounts.list| && (l.pool[k].sock == -1 ==> l.pool[k].paired == -1)
  }

  lemma {:induction false} UsersDroppedStep(l: Link)
    requires Bounded(l) && |l.accounts.list| >= 2
    ensures var m := Unpaired(l, 1, true);
            Bounded(m) && UsersDropped(m.pool) == UsersDropped(l.pool) && |m.accounts.list| == |l.accounts.list| - 1
  {
    var m := Unpaired(l, 1, true);
    forall k | 0 <= k < |l.pool|
      ensures UsersDropped(m.pool)[k] == UsersDropped(l.pool)[k]
    {
      assert m.pool[k] == Shifted(l.pool[k], 1);
    }
    assert UsersDropped(m.pool) == UsersDropped(l.pool);
  }

  lemma {:induction false} RevokedDropsUsers(l: Link, stores: nat -> bool, n: nat)
    requires Owns(l) && Bounded(l) && l.accounts.list != [] && forall m: nat :: stores(m)
    ensures var m := RevokedFrom(l, 1, stores, n);
            m.accounts.list == [l.accounts.list[0]] && m.pool == UsersDropped(l.pool)
    decreases |l.accounts.list|
  {
    hide Bounded, UsersDropped, Unpaired;
    if |l.accounts.list| >= 2 {
      UnpairedOwns(l, 1, true);
      UsersDroppedStep(l);
      RevokedDropsUsers(Unpaired(l, 1, true), stores, n + 1);
    } else {
      assert UsersDropped(l.pool) == l.pool by { NothingDropped(l); }
    }
  }

  lemma {:induction false} NothingDropped(l: Link)
    requires Bounded(l) && |l.accounts.list| == 1
    ensures UsersDropped(l.pool) == l.pool
  {
  }

  /** With every store succeeding, rotating the password keeps just the owner's
      entry, in RAM and in flash, under the new key, and de-authenticates exactly
      the sessions of the other accounts. */
  lemma {:induction false} PasswordChange(l: Link, k: nat, stores: nat -> bool, key: Key)
    requires Coherent(l) && k < |l.pool| && IsOwner(l.pool[k]) && forall n: nat :: stores(n)
    ensures var m, e := Handle(l, k, PwSet(true, stores, key, true)), l.accounts.list[0].(key := key);
            && m.accounts == Paired(l.accounts.owner, [e], Blob(l.accounts.owner, [e]))
            && m.pool == UsersDropped(l.pool) && IsOwner(m.pool[k])
  {
    hide UsersDropped;
    assert Bounded(l) by { CoherentBounded(l); }
    assert SessionOk(l.pool[k], l.accounts.list);
    OwnerFirst(l);
    assert RevokedFrom(l, 0, stores, 0) == RevokedFrom(l, 1, stores, 0);
    RevokedDropsUsers(l, stores, 0);
    RevokedOwns(l, 1, stores, 0);
    var m := RevokedFrom(l, 1, stores, 0);
    assert m.accounts.list[0 := m.accounts.list[0].(key := key)] == [l.accounts.list[0].(key := key)];
    assert UsersDropped(l.pool)[k] == l.pool[k] by { OwnerNotDropped(l.pool, k); }
  }

  lemma {:induction false} OwnerNotDropped(pool: seq<Session>, k: nat)
    requires k < |pool| && pool[k].paired == 0
    ensures UsersDropped(pool)[k] == pool[k]
  {
  }

  lemma {:induction false} CoherentBounded(l: Link)
    requires Coherent(l) && l.accounts.list != []
    ensures Bounded(l)
  {
    forall k | 0 <= k < |l.pool|
      ensures -1 <= l.pool[k].paired < |l.accounts.list| && (l.pool[k].sock == -1 ==> l.pool[k].paired == -1)
    {
      assert SessionOk(l.pool[k], l.accounts.list) && Points(l.pool[k], l.named[k], l.accounts.list);
    }
  }
}

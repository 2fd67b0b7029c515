/** Whose the owner sessions are, who can take an account off the list, and how a
    session becomes the owner's: over every event, failed flash writes and reboots
    included. */
module LinkAuthority {
  import opened Accounts
  import opened LinkCoherence
  import opened LocalLink
  import opened Options

  predicate Has(list: seq<Entry>, sub: Sub) { exists i :: 0 <= i < |list| && list[i].sub == sub }

  /** Everyone paired in RAM is also in the flash blob. */
  predicate Covered(p: Paired)
  {
    forall i :: 0 <= i < |p.list| ==> Has(Loaded(p.flash).1, p.list[i].sub)
  }

  /** A stored list covers itself. */
  lemma {:induction false} StoredCovers(p: Paired)
    requires |p.list| <= PAIRED_LIST_MAX
    ensures Covered(Stored(p, true))
  {
    assert forall i :: 0 <= i < |p.list| ==> Has(p.list, p.list[i].sub);
  }

  lemma {:induction false} HasWithout(list: seq<Entry>, i: nat, sub: Sub)
    requires i < |list|
    ensures Has(Without(list, i), sub) ==> Has(list, sub)
    ensures Has(list, sub) && list[i].sub != sub ==> Has(Without(list, i), sub)
  {
    var w := Without(list, i);
    assert forall j :: 0 <= j < |w| ==> w[j] == list[if j < i then j else j + 1];
    if Has(list, sub) && list[i].sub != sub {
      var j :| 0 <= j < |list| && list[j].sub == sub;
      assert w[if j < i then j else j - 1] == list[j];
    }
  }

  lemma {:induction false} RemovedCovers(p: Paired, i: nat, ok: bool)
    requires Covered(p) && i < |p.list| <= PAIRED_LIST_MAX
    ensures Covered(RemovedAt(p, i, ok))
  {
    if ok {
      StoredCovers(p.(list := Without(p.list, i)));
    } else {
      var w := Without(p.list, i);
      assert forall j :: 0 <= j < |w| ==> w[j] == p.list[if j < i then j else j + 1];
    }
  }

  lemma {:induction false} RotatedCovers(p: Paired, key: Key, ok: bool)
    requires Covered(p) && |p.list| <= PAIRED_LIST_MAX
    ensures Covered(Rotated(p, key, ok))
  {
    hide Covered, Stored;
    var i := OwnerIndex(p.list);
    if i < |p.list| && ok {
      StoredCovers(p.(list := p.list[i := p.list[i].(key := key)]));
    }
  }

  /** Enrolling loses nobody and leaves everyone covered. */
  lemma {:induction false} AddedCovers(p: Paired, sub: Sub, email: Email, key: Key, at: nat, ok: bool, other: Sub)
    requires Covered(p) && |p.list| <= PAIRED_LIST_MAX
    ensures var q := Added(p, sub, email, key, at, ok).paired; Covered(q) && (Has(p.list, other) ==> Has(q.list, other))
  {
    hide IndexOf, Covered;
    var q := Enrolled(p, sub, email, key, at);
    if |q.list| <= PAIRED_LIST_MAX {
      StoredCovers(q);
    }
    if Has(p.list, other) {
      var i :| 0 <= i < |p.list| && p.list[i].sub == other;
      assert q.list[i].sub == other;
    }
  }

  /** Collapsing duplicates keeps every account. */
  lemma {:induction false} DedupedHas(list: seq<Entry>, sub: Sub)
    ensures Has(Deduped(list), sub) <==> Has(list, sub)
  {
    hide Deduped, IndexOf;
    DedupeKeepsFirsts(list);
    var d := Deduped(list);
    if Has(list, sub) {
      var j :| 0 <= j < |list| && list[j].sub == sub;
      assert IndexOf(list, sub) < |list|;
      var e := list[IndexOf(list, sub)];
      var i :| 0 <= i < |d| && d[i] == e;
    }
    if Has(d, sub) {
      var i :| 0 <= i < |d| && d[i].sub == sub;
      assert list[IndexOf(list, sub)].sub == sub;
    }
  }

  /** A reload brings back everyone who was in RAM. */
  lemma {:induction false} ReloadCovers(p: Paired, ok: bool, sub: Sub)
    ensures Covered(Reloaded(p, ok))
    ensures Covered(p) && Has(p.list, sub) ==> Has(Reloaded(p, ok).list, sub)
  {
    hide Deduped, Loaded, Has;
    var entries := Loaded(p.flash).1;
    var q := p.(owner := Loaded(p.flash).0, list := Deduped(entries));
    DedupedHas(entries, sub);
    StoredCovers(q);
    forall i | 0 <= i < |q.list|
      ensures Has(entries, q.list[i].sub)
    {
      HasAt(q.list, i);
      DedupedHas(entries, q.list[i].sub);
    }
    if Covered(p) && Has(p.list, sub) {
      CoveredHas(p, sub);
    }
  }

  lemma {:induction false} HasAt(list: seq<Entry>, i: nat)
    requires i < |list|
    ensures Has(list, list[i].sub)
  {
  }

  lemma {:induction false} CoveredHas(p: Paired, sub: Sub)
    requires Covered(p) && Has(p.list, sub)
    ensures Has(Loaded(p.flash).1, sub)
  {
    hide Loaded;
    var i :| 0 <= i < |p.list| && p.list[i].sub == sub;
  }

  /** A removal whose store fails takes the account out of RAM, and the next reboot
      brings it back. */
  lemma {:induction false} FailedRemovalReturns(p: Paired, i: nat, ok: bool)
    requires Covered(p) && DistinctSubs(p.list) && i < |p.list|
    ensures var sub, q := p.list[i].sub, RemovedAt(p, i, false);
            !Has(q.list, sub) && Has(Reloaded(q, ok).list, sub)
  {
    hide Deduped, Loaded;
    var sub, w := p.list[i].sub, Without(p.list, i);
    assert forall j :: 0 <= j < |w| ==> w[j] == p.list[if j < i then j else j + 1];
    HasAt(p.list, i);
    CoveredHas(p, sub);
    DedupedHas(Loaded(p.flash).1, sub);
  }

  /** A RESET whose store fails empties RAM only: the next reboot brings the owner
      and every account back. */
  lemma {:induction false} FailedResetReturns(l: Link, k: nat, ok: bool, sub: Sub)
    requires Owns(l) && Covered(l.accounts) && k < |l.pool| && IsOwner(l.pool[k]) && Has(l.accounts.list, sub)
    ensures var m := Handle(l, k, Reset(false));
            && m.accounts.list == [] && m.accounts.owner == ""
            && Step(m, Reboot(ok)).accounts.owner == l.accounts.owner && Has(Step(m, Reboot(ok)).accounts.list, sub)
  {
    hide Deduped, Loaded, Owned;
    CoveredHas(l.accounts, sub);
    DedupedHas(Loaded(l.accounts.flash).1, sub);
    assert l.accounts.list != [];
    ReloadAgrees(l.accounts, ok);
    assert Reloaded(Cleared(l.accounts, false), ok).owner == Reloaded(l.accounts, ok).owner;
  }

  // ---- Owner sessions ------------------------------------------------------------------

  /** A session that points at the first entry named the owner. */
  predicate NamesOwner(s: Session, who: Sub, p: Paired) { s.paired == 0 ==> p.list != [] && who == p.owner }

  /** What every run keeps, whatever fails. */
  predicate Sound(l: Link)
  {
    && Owns(l) && Covered(l.accounts)
    && forall k :: 0 <= k < |l.pool| ==> NamesOwner(l.pool[k], l.named[k], l.accounts)
  }

  lemma {:induction false} OwnerSmall(l: Link)
    requires Owns(l)
    ensures |l.accounts.list| <= PAIRED_LIST_MAX
  {
  }

  lemma {:induction false} UnpairedNames(l: Link, i: nat, ok: bool)
    requires Sound(l) && 0 < i < |l.accounts.list|
    ensures var m := Unpaired(l, i, ok);
            |m.pool| == |m.named| && forall k :: 0 <= k < |m.pool| ==> NamesOwner(m.pool[k], m.named[k], m.accounts)
  {
    hide Covered, Without;
    UnpairedOwns(l, i, ok);
    forall k | 0 <= k < |l.pool|
      ensures NamesOwner(Unpaired(l, i, ok).pool[k], l.named[k], Unpaired(l, i, ok).accounts)
    {
      assert NamesOwner(l.pool[k], l.named[k], l.accounts);
    }
  }

  lemma {:induction false} UnpairedSound(l: Link, i: nat, ok: bool)
    requires Sound(l) && 0 < i < |l.accounts.list|
    ensures Sound(Unpaired(l, i, ok))
  {
    hide Covered, WellOwned, NamesOwner, OnRemoved;
    UnpairedOwns(l, i, ok);
    UnpairedNames(l, i, ok);
    OwnerSmall(l);
    RemovedCovers(l.accounts, i, ok);
  }

  lemma {:induction false} RevokedSound(l: Link, i: nat, stores: nat -> bool, n: nat)
    requires Sound(l) && i <= |l.accounts.list| && l.accounts.list != []
    ensures Sound(RevokedFrom(l, i, stores, n)) && RevokedFrom(l, i, stores, n).accounts.list != []
    decreases |l.accounts.list| - i
  {
    hide Sound, Unpaired;
    if i < |l.accounts.list| {
      if l.accounts.list[i].role == Owner {
        RevokedSound(l, i + 1, stores, n);
      } else {
        assert i > 0 by { FirstIsOwner(l); }
        UnpairedSound(l, i, stores(n));
        SizeUnpaired(l, i, stores(n));
        var m := Unpaired(l, i, stores(n));
        if stores(n) {
          RevokedSound(m, i, stores, n + 1);
        } else if i < |m.accounts.list| {
          RevokedSound(m, i + 1, stores, n + 1);
        }
      }
    }
  }

  lemma {:induction false} FirstIsOwner(l: Link)
    requires Sound(l) && l.accounts.list != []
    ensures l.accounts.list[0].role == Owner && l.accounts.list[0].sub == l.accounts.owner
  {
    hide Covered;
  }

  lemma {:induction false} PwSetSound(l: Link, k: nat, c: Command)
    requires Sound(l) && k < |l.pool| && c.PwSet?
    ensures Sound(Handle(l, k, c))
  {
    hide Covered, RevokedFrom, Rotated, WellOwned;
    if IsOwner(l.pool[k]) && c.accepted {
      var m := RevokedFrom(l, 0, c.stores, 0);
      assert SessionOk(l.pool[k], l.accounts.list);
      RevokedSound(l, 0, c.stores, 0);
      OwnerSmall(m);
      RotatedOwns(m, c.key, c.stored);
      RotatedCovers(m.accounts, c.key, c.stored);
      assert Rotated(m.accounts, c.key, c.stored).owner == m.accounts.owner;
    }
  }

  lemma {:induction false} EnrollSound(l: Link, k: nat, c: Command)
    requires Sound(l) && k < |l.pool| && c.Enroll? && l.pool[k].sock != -1
    ensures Sound(Handle(l, k, c))
  {
    hide Covered, IndexOf, RoleFor;
    EnrollOwns(l, k, c);
    OwnerSmall(l);
    if c.who.Some? {
      AddedCovers(l.accounts, c.who.value.0, c.who.value.1, c.key, c.at, c.stored, "");
    }
    var m := Handle(l, k, c);
    forall j | 0 <= j < |m.pool|
      ensures NamesOwner(m.pool[j], m.named[j], m.accounts)
    {
      assert NamesOwner(l.pool[j], l.named[j], l.accounts);
    }
  }

  lemma {:induction false} HandshakeSound(l: Link, k: nat, c: Command)
    requires Sound(l) && k < |l.pool| && l.pool[k].sock != -1 && (c.Pake1? || c.Pake3? || c.Auth1? || c.Auth3?)
    ensures Sound(Handle(l, k, c))
  {
    hide Covered, IndexOf;
    HandshakeOwns(l, k, c);
    var m := Handle(l, k, c);
    forall j | 0 <= j < |m.pool|
      ensures NamesOwner(m.pool[j], m.named[j], m.accounts)
    {
      assert NamesOwner(l.pool[j], l.named[j], l.accounts);
    }
  }

  lemma {:induction false} RemovalSound(l: Link, k: nat, c: Command)
    requires Sound(l) && k < |l.pool| && (c.Revoke? || c.Unpair?)
    ensures Sound(Handle(l, k, c))
  {
    hide IndexOf, Unpaired, Covered;
    var s, list := l.pool[k], l.accounts.list;
    assert SessionOk(s, list);
    if c.Revoke? && IsOwner(s) && c.target.Some? {
      var i := IndexOf(list, c.target.value);
      if i < |list| && i != s.paired {
        UnpairedSound(l, i, c.stored);
      }
    }
    if c.Unpair? && IsAuthed(s) && s.paired < |list| && list[s.paired].role != Owner {
      FirstIsOwner(l);
      UnpairedSound(l, s.paired, c.stored);
    }
  }

  lemma {:induction false} HandleSound(l: Link, k: nat, c: Command)
    requires Sound(l) && k < |l.pool| && l.pool[k].sock != -1
    ensures Sound(Handle(l, k, c))
  {
    hide Covered;
    match c
    case Enroll(_, _, _, _) => EnrollSound(l, k, c);
    case PwSet(_, _, _, _) => PwSetSound(l, k, c);
    case Revoke(_, _) => RemovalSound(l, k, c);
    case Unpair(_) => RemovalSound(l, k, c);
    case Reset(stored) => HandleOwns(l, k, c); NobodyCovered(Cleared(l.accounts, stored));
    case _ => HandshakeSound(l, k, c);
  }

  lemma {:induction false} NobodyCovered(p: Paired)
    requires p.list == []
    ensures Covered(p)
  {
  }

  lemma {:induction false} FlagSound(l: Link, k: nat, encrypted: bool)
    requires Sound(l) && k < |l.pool|
    ensures Sound(SetSession(l, k, l.pool[k].(encrypted := encrypted)))
  {
    hide Covered, WellOwned;
    assert SessionOk(l.pool[k], l.accounts.list) && NamesOwner(l.pool[k], l.named[k], l.accounts);
  }

  lemma {:induction false} StepSound(l: Link, e: Event)
    requires Sound(l)
    ensures Sound(Step(l, e))
  {
    hide Covered, Handle, Reloaded, WellOwned;
    StepOwns(l, e);
    match e
    case Line(sock, encrypted, c) =>
      var k := FindSock(l.pool, sock);
      if k < |l.pool| && sock >= 0 && !(encrypted && !Keyed(l.pool[k])) {
        FlagSound(l, k, encrypted);
        HandleSound(SetSession(l, k, l.pool[k].(encrypted := encrypted)), k, c);
      }
    case Reboot(stored) => ReloadCovers(l.accounts, stored, "");
    case FactoryReset(cleared, stored) => ReloadCovers(Cleared(l.accounts, cleared), stored, "");
    case _ =>
  }

  /** Over every run, failed stores included: ownership holds, everyone in RAM is in
      flash, and a session with the owner role named the owner's account. */
  lemma {:induction false} OwnerSessionsOverRuns(l: Link, events: seq<Event>)
    requires Init(l)
    ensures var m := Run(l, events);
            && Sound(m)
            && forall k :: 0 <= k < |m.pool| && m.pool[k].role == OwnerRole ==> m.named[k] == m.accounts.owner
  {
    hide Run;
    NobodyCovered(l.accounts);
    SoundOnwards(l, events);
    var m := Run(l, events);
    forall k | 0 <= k < |m.pool| && m.pool[k].role == OwnerRole
      ensures m.named[k] == m.accounts.owner
    {
      assert SessionOk(m.pool[k], m.accounts.list) && NamesOwner(m.pool[k], m.named[k], m.accounts);
    }
  }

  lemma {:induction false} SoundOnwards(l: Link, events: seq<Event>)
    requires Sound(l)
    ensures Sound(Run(l, events))
    decreases |events|
  {
    hide Covered, WellOwned, Step;
    if events != [] {
      StepSound(l, events[0]);
      SoundOnwards(Step(l, events[0]), events[1..]);
    }
  }

  // ---- Who can remove an account ---------------------------------------------------------

  /** A command of a session of the owner. */
  predicate ByOwner(l: Link, k: nat)
    requires k < |l.pool| == |l.named|
  {
    IsOwner(l.pool[k]) && l.named[k] == l.accounts.owner
  }

  /** The commands that may take an account off the list, on the session in slot k. */
  predicate CommandRemoves(l: Link, k: nat, c: Command, sub: Sub)
    requires k < |l.pool| == |l.named|
  {
    var s := l.pool[k];
    match c
    case Revoke(target, _) => ByOwner(l, k) && target == Some(sub) && sub != l.accounts.owner
    case PwSet(accepted, _, _, _) => ByOwner(l, k) && accepted && sub != l.accounts.owner
    case Unpair(_) =>
      IsAuthed(s) && s.paired < |l.accounts.list| && l.accounts.list[s.paired].sub == sub && sub != l.accounts.owner
    case Reset(_) => ByOwner(l, k)
    case _ => false
  }

  lemma {:induction false} OwnersAct(l: Link, k: nat)
    requires Sound(l) && k < |l.pool| && IsOwner(l.pool[k])
    ensures ByOwner(l, k)
  {
    assert SessionOk(l.pool[k], l.accounts.list) && NamesOwner(l.pool[k], l.named[k], l.accounts);
  }

  lemma {:induction false} OwnerListed(l: Link)
    requires Owns(l) && l.accounts.list != []
    ensures Has(l.accounts.list, l.accounts.owner)
  {
    assert l.accounts.list[0].sub == l.accounts.owner;
  }

  lemma {:induction false} RemovalLoses(l: Link, k: nat, c: Command, sub: Sub)
    requires Sound(l) && k < |l.pool| && (c.Revoke? || c.Unpair?) && Has(l.accounts.list, sub)
    ensures !Has(Handle(l, k, c).accounts.list, sub) ==> CommandRemoves(l, k, c, sub)
  {
    hide IndexOf, Covered, Has, Without;
    var s, list := l.pool[k], l.accounts.list;
    RemovalOwns(l, k, c);
    assert list != [] by { HasSome(list, sub); }
    OwnerListed(Handle(l, k, c));
    if c.Revoke? && IsOwner(s) && c.target.Some? {
      OwnersAct(l, k);
      var i := IndexOf(list, c.target.value);
      if i < |list| && i != s.paired {
        HasWithout(list, i, sub);
      }
    }
    if c.Unpair? && IsAuthed(s) && s.paired < |list| && list[s.paired].role != Owner {
      HasWithout(list, s.paired, sub);
    }
  }

  lemma {:induction false} HasSome(list: seq<Entry>, sub: Sub)
    requires Has(list, sub)
    ensures list != []
  {
  }

  lemma {:induction false} PwSetLoses(l: Link, k: nat, c: Command, sub: Sub)
    requires Sound(l) && k < |l.pool| && c.PwSet? && Has(l.accounts.list, sub)
    ensures !Has(Handle(l, k, c).accounts.list, sub) ==> CommandRemoves(l, k, c, sub)
  {
    hide Covered, Has, RevokedFrom, Rotated, WellOwned;
    PwSetOwns(l, k, c);
    assert l.accounts.list != [] by { HasSome(l.accounts.list, sub); }
    OwnerListed(Handle(l, k, c));
    if IsOwner(l.pool[k]) {
      OwnersAct(l, k);
    }
  }

  lemma {:induction false} HandleLoses(l: Link, k: nat, c: Command, sub: Sub)
    requires Sound(l) && k < |l.pool| && Has(l.accounts.list, sub)
    ensures !Has(Handle(l, k, c).accounts.list, sub) ==> CommandRemoves(l, k, c, sub)
  {
    hide Has, WellOwned, IndexOf, Added, RevokedFrom, Covered;
    match c
    case Enroll(who, key, at, stored) =>
      OwnerSmall(l);
      if who.Some? {
        AddedCovers(l.accounts, who.value.0, who.value.1, key, at, stored, sub);
      }
    case Revoke(_, _) => RemovalLoses(l, k, c, sub);
    case Unpair(_) => RemovalLoses(l, k, c, sub);
    case PwSet(_, _, _, _) => PwSetLoses(l, k, c, sub);
    case Reset(_) =>
      if IsOwner(l.pool[k]) {
        OwnersAct(l, k);
      }
    case _ =>
  }

  /** The events that may take an account off the list. */
  predicate Removes(l: Link, e: Event, sub: Sub)
    requires |l.pool| == |l.named|
  {
    match e
    case Line(sock, encrypted, c) =>
      var k := FindSock(l.pool, sock);
      sock >= 0 && k < |l.pool| && encrypted && Keyed(l.pool[k])
      && CommandRemoves(SetSession(l, k, l.pool[k].(encrypted := true)), k, c, sub)
    case FactoryReset(cleared, _) => cleared
    case _ => false
  }

  /** An account leaves the list only by the owner's REVOKE of it or PWSET, an UNPAIR
      from a session that points at it, the owner's RESET, each in an encrypted
      line on a keyed session, or a stored factory reset; a reboot loses nobody,
      and only the last two lose the owner. */
  lemma {:induction false} AccountLost(l: Link, e: Event, sub: Sub)
    requires Sound(l) && Has(l.accounts.list, sub)
    ensures !Has(Step(l, e).accounts.list, sub) ==> Removes(l, e, sub)
  {
    hide Has, WellOwned, Handle, Reloaded, FlashAgrees, Covered;
    match e
    case Line(sock, encrypted, c) =>
      var k := FindSock(l.pool, sock);
      if k < |l.pool| && sock >= 0 && !(encrypted && !Keyed(l.pool[k])) {
        FlagSound(l, k, encrypted);
        HandleLoses(SetSession(l, k, l.pool[k].(encrypted := encrypted)), k, c, sub);
      }
    case Reboot(stored) => ReloadCovers(l.accounts, stored, sub);
    case FactoryReset(cleared, stored) => ResetLoses(l.accounts, cleared, stored, sub);
    case _ =>
  }

  lemma {:induction false} ResetLoses(p: Paired, cleared: bool, stored: bool, sub: Sub)
    requires Covered(p) && Has(p.list, sub)
    ensures !cleared ==> Has(Reloaded(Cleared(p, cleared), stored).list, sub)
  {
    hide Has, Deduped, Loaded;
    CoveredHas(p, sub);
    DedupedHas(Loaded(p.flash).1, sub);
  }

  /** UNPAIR takes exactly the account the session's index points at, and that is the
      session's own exactly when the session still points at the account it named. */
  lemma {:induction false} UnpairTakesOwnExactlyWhen(l: Link, k: nat, stored: bool)
    requires Sound(l) && k < |l.pool| && IsAuthed(l.pool[k]) && 0 < l.pool[k].paired < |l.accounts.list|
    ensures var before, after := l.accounts.list, Handle(l, k, Unpair(stored)).accounts.list;
            && (forall sub :: Has(before, sub) && !Has(after, sub) <==> sub == before[l.pool[k].paired].sub)
            && (Has(before, l.named[k]) && !Has(after, l.named[k]) <==> Points(l.pool[k], l.named[k], before))
  {
    hide Covered, Has;
    var i, list := l.pool[k].paired, l.accounts.list;
    assert DistinctSubs(list) && list[i].role != Owner;
    forall sub
      ensures Has(list, sub) && !Has(Without(list, i), sub) <==> sub == list[i].sub
    {
      HasWithout(list, i, sub);
      WithoutLacks(list, i);
      HasAt(list, i);
    }
  }

  lemma {:induction false} WithoutLacks(list: seq<Entry>, i: nat)
    requires DistinctSubs(list) && i < |list|
    ensures !Has(Without(list, i), list[i].sub)
  {
    var w := Without(list, i);
    assert forall j :: 0 <= j < |w| ==> w[j] == list[if j < i then j else j + 1];
  }

  /** While sessions point at the accounts they named, no account but a session's own
      leaves by its UNPAIR. */
  lemma {:induction false} OnlyOwnUnpair(l: Link, e: Event, sub: Sub)
    requires Sound(l) && Coherent(l) && Has(l.accounts.list, sub) && !Has(Step(l, e).accounts.list, sub)
    requires e.Line? && e.command.Unpair?
    ensures FindSock(l.pool, e.sock) < |l.pool| && l.named[FindSock(l.pool, e.sock)] == sub
  {
    hide Has, Covered, WellOwned, Step;
    AccountLost(l, e, sub);
    var k := FindSock(l.pool, e.sock);
    assert Points(l.pool[k], l.named[k], l.accounts.list);
  }

  // ---- How a session becomes the owner's --------------------------------------------

  /** A session gets the owner role only by enrolling the owner's account inside an
      encrypted PAKE session with a stored result, or by a right proof for the
      owner's account. */
  lemma {:induction false} OwnerRoleGained(l: Link, e: Event, k: nat)
    requires Sound(l) && k < |l.pool| && l.pool[k].role != OwnerRole
    ensures var m := Step(l, e);
            && |m.pool| == |l.pool|
            && (m.pool[k].role == OwnerRole ==>
                  && e.Line? && k == FindSock(l.pool, e.sock)
                  && match e.command
                     case Enroll(Some(who), _, _, stored) =>
                       e.encrypted && l.pool[k].phase == PakeOk && stored && who.0 == m.accounts.owner
                     case Auth3(proof) =>
                       proof == Right && l.pool[k].phase == AuthWaitProof && l.named[k] == l.accounts.owner
                     case _ => false)
  {
    StepKeepsSize(l, e);
    hide Handle, Reloaded, WellOwned, Covered;
    assert NamesOwner(l.pool[k], l.named[k], l.accounts);
    if e.Line? {
      var j := FindSock(l.pool, e.sock);
      if j < |l.pool| && e.sock >= 0 && !(e.encrypted && !Keyed(l.pool[j])) {
        var n := SetSession(l, j, l.pool[j].(encrypted := e.encrypted));
        HandleGains(n, j, e.command, k);
      }
    }
  }

  lemma {:induction false} HandleGains(l: Link, j: nat, c: Command, k: nat)
    requires |l.pool| == |l.named| && WellOwned(l.accounts)
    requires j < |l.pool| && k < |l.pool| && l.pool[k].role != OwnerRole
    ensures var m := Handle(l, j, c);
            |m.pool| == |l.pool| && m.pool[k].role == OwnerRole ==>
              && k == j
              && match c
                 case Enroll(Some(who), _, _, stored) =>
                   l.pool[k].encrypted && l.pool[k].phase == PakeOk && stored && who.0 == m.accounts.owner
                 case Auth3(proof) =>
                   && proof == Right && l.pool[k].phase == AuthWaitProof
                   && l.pool[k].paired == 0 && l.accounts.list != []
                 case _ => false
  {
    hide IndexOf, RevokedFrom, Rotated;
    if c.PwSet? {
      RevokedGains(l, 0, c.stores, 0, k);
    }
  }

  lemma {:induction false} RevokedGains(l: Link, i: nat, stores: nat -> bool, n: nat, k: nat)
    requires i <= |l.accounts.list| && k < |l.pool| && l.pool[k].role != OwnerRole
    ensures var m := RevokedFrom(l, i, stores, n); k < |m.pool| && m.pool[k].role != OwnerRole
    decreases |l.accounts.list| - i
  {
    hide RemovedAt;
    if i < |l.accounts.list| {
      if l.accounts.list[i].role == Owner {
        RevokedGains(l, i + 1, stores, n, k);
      } else {
        SizeUnpaired(l, i, stores(n));
        var m := Unpaired(l, i, stores(n));
        if stores(n) {
          RevokedGains(m, i, stores, n + 1, k);
        } else if i < |m.accounts.list| {
          RevokedGains(m, i + 1, stores, n + 1, k);
        }
      }
    }
  }
}

/** Runs from an unpaired device in which a failed flash write breaks what the
    commands promise: concrete events, one store failing. */
module LinkFailures {
  import opened Accounts
  import opened LinkAuthority
  import opened LinkCoherence
  import opened LinkCommands
  import opened LocalLink

  // ---- Three accounts -----------------------------------------------------------------

  const A: Entry := Entry("A", "", 1, 0, Owner)
  const B: Entry := Entry("B", "", 2, 0, User)
  const C: Entry := Entry("C", "", 3, 0, User)

  function Pairing(): seq<Event> { Joining(1, "A", 1) + Joining(2, "B", 2) + Joining(3, "C", 3) }

  /** The owner A in slot 0, and B and C, each with an authenticated session. */
  predicate Trio(l: Link)
  {
    && |l.pool| == |l.named| && |l.pool| > 2
    && l.accounts == Paired("A", [A, B, C], Blob("A", [A, B, C]))
    && l.pool[0] == Session(1, PakeOk, OwnerRole, 0, true) && l.named[0] == "A"
    && l.pool[1] == Session(2, PakeOk, UserRole, 1, true) && l.named[1] == "B"
    && l.pool[2] == Session(3, PakeOk, UserRole, 2, true) && l.named[2] == "C"
  }

  lemma {:induction false} FirstAdded(p: Paired)
    requires p == Paired("", [], Empty)
    ensures Added(p, "A", "", 1, 0, true) == AddResult(Paired("A", [A], Blob("A", [A])), 0, 1, Owner)
  {
    assert IndexOf([], "A") == 0;
  }

  lemma {:induction false} NextAdded(list: seq<Entry>, flash: Flash, e: Entry)
    requires list != [] && |list| < PAIRED_LIST_MAX && IndexOf(list, e.sub) == |list|
    requires e == Entry(e.sub, "", e.key, 0, User) && e.sub != "" && e.sub != "A"
    ensures var all := list + [e];
            Added(Paired("A", list, flash), e.sub, "", e.key, 0, true) ==
            AddResult(Paired("A", all, Blob("A", all)), |list|, e.key, User)
  {
    hide IndexOf;
  }

  lemma {:induction false} NotListed()
    ensures IndexOf([A], "B") == 1 && IndexOf([A, B], "C") == 2
  {
    assert [A][0].sub == "A" && [A, B][1].sub == "B";
  }

  lemma {:induction false} PairsThree(l: Link)
    requires Init(l)
    ensures Trio(Run(l, Pairing()))
  {
    hide Added, Run, IndexOf, Joining;
    FirstAdded(l.accounts);
    NotListed();
    NextAdded([A], Blob("A", [A]), B);
    NextAdded([A, B], Blob("A", [A, B]), C);
    assert [A] + [B] == [A, B] && [A, B] + [C] == [A, B, C];
    var x := Joined(l, 0, 1, "A", 1);
    var y := Joined(x, 1, 2, "B", 2);
    var z := Joined(y, 2, 3, "C", 3);
    Joins(l, 0, 1, "A", 1);
    Joins(x, 1, 2, "B", 2);
    Joins(y, 2, 3, "C", 3);
    RunAppend(l, Joining(1, "A", 1), Joining(2, "B", 2));
    RunAppend(l, Joining(1, "A", 1) + Joining(2, "B", 2), Joining(3, "C", 3));
    assert z == Run(l, Pairing());
  }

  // ---- A failed UNPAIR ------------------------------------------------------------------

  /** B unpairs, and the store fails. */
  function FailedUnpair(): seq<Event> { Pairing() + [Line(2, true, Unpair(false))] }

  /** The state after it: B is gone from the list, its session is still there. */
  predicate Stale(l: Link)
  {
    && |l.pool| == |l.named| && |l.pool| > 2 && l.accounts.list == [A, C] && l.accounts.owner == "A"
    && l.pool[0].sock == 1 && l.pool[1] == Session(2, PakeOk, UserRole, 1, true) && l.named[1] == "B"
  }

  lemma {:induction false} UnpairFails(l: Link)
    requires Trio(l)
    ensures Stale(Step(l, Line(2, true, Unpair(false))))
  {
    hide Step;
    LineIs(l, 1, 2, true, Unpair(false));
    assert Without([A, B, C], 1) == [A, C];
  }

  /** A session is left on another account's entry: B's points at C's. */
  lemma {:induction false} SessionLeftOnAnother(l: Link)
    requires Init(l)
    ensures var m := Run(l, FailedUnpair());
            Stale(m) && m.accounts.list[m.pool[1].paired].sub == "C" && !Coherent(m)
  {
    hide Run, Step, Pairing;
    PairsThree(l);
    var t, e := Run(l, Pairing()), Line(2, true, Unpair(false));
    UnpairFails(t);
    RunAppend(l, Pairing(), [e]);
    RunOne(t, e, []);
    assert [e] + [] == [e];
    NoMore(Step(t, e));
    var m := Step(t, e);
    assert !Points(m.pool[1], m.named[1], m.accounts.list);
  }

  /** B's second UNPAIR then removes C, who never asked to leave. */
  lemma {:induction false} UnpairTakesAnother(l: Link)
    requires Init(l)
    ensures var m := Run(l, FailedUnpair());
            && |m.named| > 1 && FindSock(m.pool, 2) == 1 && m.named[1] == "B"
            && Has(m.accounts.list, "C") && !Has(Step(m, Line(2, true, Unpair(true))).accounts.list, "C")
  {
    hide Run, FailedUnpair, Step;
    SessionLeftOnAnother(l);
    var m := Run(l, FailedUnpair());
    SlotIs(m.pool, 1, 2);
    LineIs(m, 1, 2, true, Unpair(true));
    assert m.accounts.list[1].sub == "C";
    assert Without([A, C], 1) == [A];
  }

  // ---- A failed PWSET ---------------------------------------------------------------------

  /** The owner rotates the password, and the first removal is not stored. */
  function FailedRotation(): Event { Line(1, true, PwSet(true, n => n > 0, 9, true)) }

  /** C, the entry after the failed one, stays paired under the new password. */
  lemma {:induction false} RotationLeavesUser(l: Link)
    requires Init(l)
    ensures Has(Run(l, Pairing() + [FailedRotation()]).accounts.list, "C")
  {
    hide Run, Step, Pairing, Handle;
    PairsThree(l);
    var t, e := Run(l, Pairing()), FailedRotation();
    LineIs(t, 0, 1, true, e.command);
    RotationSkips(t);
    RunAppend(l, Pairing(), [e]);
    RunOne(t, e, []);
    assert [e] + [] == [e];
    NoMore(Step(t, e));
    assert SetSession(t, 0, t.pool[0].(encrypted := true)).pool == t.pool;
  }

  lemma {:induction false} RotationSkips(l: Link)
    requires Trio(l)
    ensures Has(Handle(l, 0, FailedRotation().command).accounts.list, "C")
  {
    hide RevokedFrom, Rotated;
    var stores := FailedRotation().command.stores;
    assert Without([A, B, C], 1) == [A, C];
    var m := Unpaired(l, 1, false);
    SkipsOne(l, stores, m);
    SameSubs(m.accounts, 9, true);
    assert Rotated(m.accounts, 9, true).list[1].sub == "C";
  }

  lemma {:induction false} SkipsOne(l: Link, stores: nat -> bool, m: Link)
    requires l.accounts.list == [A, B, C] && m.accounts.list == [A, C] && m == Unpaired(l, 1, false) && !stores(0)
    ensures RevokedFrom(l, 0, stores, 0) == m
  {
    hide Unpaired;
    assert RevokedFrom(m, 2, stores, 1) == m;
    assert RevokedFrom(l, 1, stores, 0) == m;
  }

  lemma {:induction false} SameSubs(p: Paired, key: Key, ok: bool)
    ensures var r := Rotated(p, key, ok).list;
            |r| == |p.list| && forall i :: 0 <= i < |r| ==> r[i].sub == p.list[i].sub
  {
  }
}

/** The paired-account list of paired_list.c as a value: who is paired, who owns
    the device, and what flash holds. */
module Accounts {

  const PAIRED_LIST_MAX := 16

  /** A Cognito sub fits 40 characters, a label 64; longer ones are refused
      before they reach the list. */
  type Sub = s: string | |s| <= 40
  type Email = s: string | |s| <= 64

  /** Key material is opaque here. */
  type Key = nat

  datatype Role = User | Owner

  datatype Entry = Entry(sub: Sub, email: Email, key: Key, pairedAt: nat, role: Role)

  /** An entry of the version 2 layout, one per phone of an account. */
  type Name = s: string | |s| <= 32
  datatype EntryV2 = EntryV2(sub: Sub, installId: Name, displayName: Name, key: Key, pairedAt: nat, role: Role)

  /** What flash holds: nothing, a version 3 blob, a version 2 blob, or a blob of
      another version or of the wrong size. */
  datatype Flash =
    | Empty
    | Blob(owner: Sub, entries: seq<Entry>)
    | BlobV2(owner: Sub, phones: seq<EntryV2>)
    | Unusable

  /** RAM list and owner, and the blob in flash. */
  datatype Paired = Paired(owner: Sub, list: seq<Entry>, flash: Flash)

  /** find_locked: the first entry of an account, or the length. */
  function IndexOf(list: seq<Entry>, sub: Sub): (k: nat)
    ensures k <= |list|
    ensures k < |list| ==> list[k].sub == sub
    ensures forall i :: 0 <= i < k ==> list[i].sub != sub
  {
    if list == [] then 0 else if list[0].sub == sub then 0 else 1 + IndexOf(list[1..], sub)
  }

  /** role_for_locked */
  function RoleFor(owner: Sub, sub: Sub): Role { if owner != "" && sub == owner then Owner else User }

  /** nvs_store: rewritten whole, or erased when empty; a failure changes nothing. */
  function Stored(p: Paired, ok: bool): Paired
  {
    if !ok then p else p.(flash := if p.list == [] then Empty else Blob(p.owner, p.list))
  }

  datatype AddResult = AddResult(paired: Paired, index: int, key: Key, role: Role)

  /** The list paired_list_add wants to store. */
  function Enrolled(p: Paired, sub: Sub, email: Email, key: Key, at: nat): Paired
  {
    var owner := if p.owner == "" then sub else p.owner;
    var i := IndexOf(p.list, sub);
    var before := if i < |p.list| then p.list[i] else Entry(sub, "", key, at, User);
    var e := before.(email := if email != "" then email else before.email, pairedAt := at, role := RoleFor(owner, sub));
    p.(owner := owner, list := if i < |p.list| then p.list[i := e] else p.list + [e])
  }

  /** paired_list_add: all or nothing; a paired account gets its stored key back. */
  function Added(p: Paired, sub: Sub, email: Email, key: Key, at: nat, ok: bool): AddResult
  {
    var i := IndexOf(p.list, sub);
    if sub == "" || (i == |p.list| && |p.list| >= PAIRED_LIST_MAX) || !ok then AddResult(p, -1, key, User)
    else
      var q := Stored(Enrolled(p, sub, email, key, at), true);
      AddResult(q, i, q.list[i].key, q.list[i].role)
  }

  function Without(list: seq<Entry>, i: nat): seq<Entry>
    requires i < |list|
  {
    list[..i] + list[i + 1..]
  }

  /** paired_list_remove of an entry in range: RAM loses it whether or not the store succeeds. */
  function RemovedAt(p: Paired, i: nat, ok: bool): Paired
    requires i < |p.list|
  {
    Stored(p.(list := Without(p.list, i)), ok)
  }

  function OwnerIndex(list: seq<Entry>): (k: nat)
    ensures k <= |list|
    ensures k < |list| ==> list[k].role == Owner
    ensures forall i :: 0 <= i < k ==> list[i].role != Owner
  {
    if list == [] then 0 else if list[0].role == Owner then 0 else 1 + OwnerIndex(list[1..])
  }

  /** paired_list_rotate_owner_key */
  function Rotated(p: Paired, key: Key, ok: bool): Paired
  {
    var i := OwnerIndex(p.list);
    if i == |p.list| || !ok then p else Stored(p.(list := p.list[i := p.list[i].(key := key)]), true)
  }

  /** paired_list_clear */
  function Cleared(p: Paired, ok: bool): Paired { Stored(p.(owner := "", list := []), ok) }

  /** The first entry of each account, in order. */
  function Deduped(list: seq<Entry>): (r: seq<Entry>)
    ensures |r| <= |list|
  {
    if list == [] then []
    else
      var init, last := Deduped(list[..|list| - 1]), list[|list| - 1];
      if IndexOf(list[..|list| - 1], last.sub) < |list| - 1 then init else init + [last]
  }

  /** migrate_v2: the display name becomes the label. */
  function Migrated(phones: seq<EntryV2>): (list: seq<Entry>)
    ensures |list| == |phones|
  {
    seq(|phones|, i requires 0 <= i < |phones| => MigratedOne(phones[i]))
  }

  function MigratedOne(e: EntryV2): Entry { Entry(e.sub, e.displayName, e.key, e.pairedAt, e.role) }

  /** nvs_load: the owner and entries read, none from a blob that is not usable. */
  function Loaded(flash: Flash): (r: (Sub, seq<Entry>))
    ensures |r.1| <= PAIRED_LIST_MAX
  {
    match flash
    case Blob(owner, entries) => if |entries| <= PAIRED_LIST_MAX then (owner, entries) else ("", [])
    case BlobV2(owner, phones) => if |phones| <= PAIRED_LIST_MAX then (owner, Migrated(phones)) else ("", [])
    case _ => ("", [])
  }

  predicate IsMigrated(flash: Flash) { flash.BlobV2? && |flash.phones| <= PAIRED_LIST_MAX }

  /** paired_list_init: reload from flash, collapse duplicates, and store if the
      blob was migrated or anything was collapsed. */
  function Reloaded(p: Paired, ok: bool): Paired
  {
    var entries := Loaded(p.flash).1;
    var q := p.(owner := Loaded(p.flash).0, list := Deduped(entries));
    if IsMigrated(p.flash) || q.list != entries then Stored(q, ok) else q
  }

  // ---- Ownership ---------------------------------------------------------------

  predicate DistinctSubs(list: seq<Entry>)
  {
    forall i, j :: 0 <= i < j < |list| ==> list[i].sub != list[j].sub
  }

  /** Nobody, or the owner's entry first and only users after it. */
  predicate Owned(owner: Sub, list: seq<Entry>)
  {
    && DistinctSubs(list) && |list| <= PAIRED_LIST_MAX
    && (list == [] <==> owner == "")
    && (list != [] ==> list[0].sub == owner && list[0].role == Owner)
    && (forall i :: 0 < i < |list| ==> list[i].role == User)
  }

  /** One owner, who paired first; each entry's role follows the owner. */
  predicate RolesFollow(owner: Sub, list: seq<Entry>)
  {
    && list != [] && |list| <= PAIRED_LIST_MAX && owner != "" && list[0].sub == owner
    && forall i :: 0 <= i < |list| ==> (list[i].role == Owner <==> list[i].sub == owner)
  }

  /** A blob the device stored, or an older device did. */
  predicate FlashOwned(flash: Flash)
  {
    match flash
    case Blob(owner, entries) => entries != [] && Owned(owner, entries)
    case BlobV2(owner, phones) => RolesFollow(owner, Migrated(phones))
    case _ => true
  }

  predicate WellOwned(p: Paired) { Owned(p.owner, p.list) && FlashOwned(p.flash) }

  lemma {:induction false} AddKeepsOwner(p: Paired, sub: Sub, email: Email, key: Key, at: nat, ok: bool)
    requires WellOwned(p)
    ensures WellOwned(Added(p, sub, email, key, at, ok).paired)
    ensures p.list != [] ==> Added(p, sub, email, key, at, ok).paired.owner == p.owner
  {
  }

  lemma {:induction false} WithoutKeepsOwner(owner: Sub, list: seq<Entry>, i: nat)
    requires Owned(owner, list) && 0 < i < |list|
    ensures Owned(owner, Without(list, i)) && Without(list, i)[0] == list[0]
  {
    var m := Without(list, i);
    assert forall j :: 0 <= j < |m| ==> m[j] == list[if j < i then j else j + 1];
  }

  lemma {:induction false} DedupeOfDistinct(list: seq<Entry>)
    requires DistinctSubs(list)
    ensures Deduped(list) == list
  {
    if list != [] {
      var init := list[..|list| - 1];
      DedupeOfDistinct(init);
      assert list == init + [list[|list| - 1]];
    }
  }

  /** Each of `d` is the first entry of its account in `list`. */
  predicate Firsts(list: seq<Entry>, d: seq<Entry>)
  {
    forall i :: 0 <= i < |d| ==> IndexOf(list, d[i].sub) < |list| && list[IndexOf(list, d[i].sub)] == d[i]
  }

  predicate InListOrder(list: seq<Entry>, d: seq<Entry>)
  {
    forall i, j :: 0 <= i < j < |d| ==> IndexOf(list, d[i].sub) < IndexOf(list, d[j].sub)
  }

  ghost predicate AllAccounts(list: seq<Entry>, d: seq<Entry>)
  {
    forall sub :: IndexOf(list, sub) < |list| ==> list[IndexOf(list, sub)] in d
  }

  /** `d` is exactly the first entry of each account of `list`, in order. */
  ghost predicate FirstsOf(list: seq<Entry>, d: seq<Entry>)
  {
    Firsts(list, d) && InListOrder(list, d) && AllAccounts(list, d)
  }

  lemma {:induction false} DedupeKeepsFirsts(list: seq<Entry>)
    ensures FirstsOf(list, Deduped(list)) && DistinctSubs(Deduped(list))
  {
    if list != [] {
      DedupeKeepsFirsts(list[..|list| - 1]);
      FirstsSnoc(list, Deduped(list[..|list| - 1]));
    } else {
      assert IndexOf([], "") == 0;
    }
    FirstsDistinct(list, Deduped(list));
  }

  lemma {:induction false} FirstsDistinct(list: seq<Entry>, d: seq<Entry>)
    requires FirstsOf(list, d)
    ensures DistinctSubs(d)
  {
    hide IndexOf;
  }

  /** Where an account is first listed, with one more entry at the end. */
  lemma {:induction false} IndexOfSnoc(list: seq<Entry>, s: Sub)
    requires list != []
    ensures var n := |list| - 1; var i := IndexOf(list[..n], s);
            && (i < n ==> IndexOf(list, s) == i && list[i] == list[..n][i])
            && (i == n ==> IndexOf(list, s) == if s == list[n].sub then n else n + 1)
  {
    hide IndexOf;
    IndexOfPrefix(list, |list| - 1, s);
  }

  /** One more entry, kept only if its account is new. */
  function Kept(list: seq<Entry>, d: seq<Entry>): seq<Entry>
    requires list != []
  {
    var n := |list| - 1; if IndexOf(list[..n], list[n].sub) < n then d else d + [list[n]]
  }

  lemma {:induction false} FirstsStay(list: seq<Entry>, d: seq<Entry>)
    requires list != [] && Firsts(list[..|list| - 1], d)
    ensures forall i :: 0 <= i < |d| ==>
              IndexOf(list, d[i].sub) == IndexOf(list[..|list| - 1], d[i].sub) < |list| - 1
              && list[IndexOf(list, d[i].sub)] == d[i]
  {
    hide IndexOf;
    forall i | 0 <= i < |d|
      ensures IndexOf(list, d[i].sub) == IndexOf(list[..|list| - 1], d[i].sub) < |list| - 1
      ensures list[IndexOf(list, d[i].sub)] == d[i]
    {
      IndexOfSnoc(list, d[i].sub);
    }
  }

  lemma {:induction false} AllAccountsSnoc(list: seq<Entry>, d: seq<Entry>)
    requires list != [] && AllAccounts(list[..|list| - 1], d)
    ensures AllAccounts(list, Kept(list, d))
  {
    hide IndexOf;
    var n, r := |list| - 1, Kept(list, d);
    forall sub: Sub | IndexOf(list, sub) < |list|
      ensures list[IndexOf(list, sub)] in r
    {
      IndexOfSnoc(list, sub);
      if IndexOf(list[..n], sub) < n {
        assert list[..n][IndexOf(list[..n], sub)] in d;
      } else {
        assert r[|r| - 1] == list[n];
      }
    }
  }

  lemma {:induction false} FirstsSnoc(list: seq<Entry>, d: seq<Entry>)
    requires list != [] && FirstsOf(list[..|list| - 1], d)
    ensures FirstsOf(list, Kept(list, d))
  {
    hide IndexOf, AllAccounts, Firsts, InListOrder, Kept;
    EachFirstSnoc(list, d);
    OrderSnoc(list, d);
    AllAccountsSnoc(list, d);
  }

  lemma {:induction false} EachFirstSnoc(list: seq<Entry>, d: seq<Entry>)
    requires list != [] && Firsts(list[..|list| - 1], d)
    ensures Firsts(list, Kept(list, d))
  {
    hide IndexOf;
    FirstsStay(list, d);
    IndexOfSnoc(list, list[|list| - 1].sub);
  }

  lemma {:induction false} OrderSnoc(list: seq<Entry>, d: seq<Entry>)
    requires list != [] && Firsts(list[..|list| - 1], d) && InListOrder(list[..|list| - 1], d)
    ensures InListOrder(list, Kept(list, d))
  {
    hide IndexOf, Firsts;
    FirstsStay(list, d);
    var n, r := |list| - 1, Kept(list, d);
    IndexOfSnoc(list, list[n].sub);
    forall i, j | 0 <= i < j < |r|
      ensures IndexOf(list, r[i].sub) < IndexOf(list, r[j].sub)
    {
      assert r[i] == d[i];
      assert j < |d| ==> IndexOf(list[..n], d[i].sub) < IndexOf(list[..n], d[j].sub);
    }
  }

  lemma {:induction false} IndexOfPrefix(list: seq<Entry>, n: nat, sub: Sub)
    requires n < |list|
    ensures IndexOf(list[..n], sub) < n ==> IndexOf(list, sub) == IndexOf(list[..n], sub)
    ensures IndexOf(list[..n], sub) == n ==>
              IndexOf(list, sub) >= n && (IndexOf(list, sub) == n <==> list[n].sub == sub)
  {
    var a, b := IndexOf(list[..n], sub), IndexOf(list, sub);
    assert forall i :: 0 <= i < n ==> list[..n][i] == list[i];
    assert a < n ==> list[a].sub == sub;
    assert b < n ==> list[..n][b].sub == sub;
  }

  lemma {:induction false} FirstIsFirst(list: seq<Entry>, d: seq<Entry>)
    requires FirstsOf(list, d) && list != []
    ensures d != [] && d[0] == list[0]
  {
    hide IndexOf;
    assert IndexOf(list, list[0].sub) == 0;
    assert list[IndexOf(list, list[0].sub)] in d;
    assert IndexOf(list, d[0].sub) == 0;
  }

  /** Collapsing a list whose roles follow its owner leaves a well-owned one. */
  lemma {:induction false} DedupedOwned(owner: Sub, list: seq<Entry>)
    requires RolesFollow(owner, list)
    ensures Deduped(list) != [] && Owned(owner, Deduped(list))
  {
    hide Deduped, IndexOf;
    DedupeKeepsFirsts(list);
    var d := Deduped(list);
    assert IndexOf(list, owner) == 0;
    FirstIsFirst(list, d);
    forall i | 0 <= i < |d|
      ensures d[i].role == Owner <==> d[i].sub == owner
    {
      assert list[IndexOf(list, d[i].sub)] == d[i];
    }
  }

  /** A reload leaves a list that is well owned, and the owner named in flash. */
  lemma {:induction false} LoadedOwned(flash: Flash)
    requires FlashOwned(flash)
    ensures var (owner, entries) := Loaded(flash);
            && Owned(owner, Deduped(entries)) && (Deduped(entries) == [] <==> entries == [])
            && (flash.Blob? ==> Deduped(entries) == entries == flash.entries && owner == flash.owner)
            && (flash.BlobV2? ==> entries != [] && owner == flash.owner)
  {
    hide Owned, Deduped;
    var (owner, entries) := Loaded(flash);
    match flash
    case Blob(o, e) => OwnedIsDistinct(o, e); DedupeOfDistinct(e);
    case BlobV2(o, phones) => DedupedOwned(o, Migrated(phones));
    case _ => NobodyOwned();
  }

  lemma {:induction false} OwnedIsDistinct(owner: Sub, list: seq<Entry>)
    requires Owned(owner, list)
    ensures DistinctSubs(list) && |list| <= PAIRED_LIST_MAX
  {
  }

  lemma {:induction false} NobodyOwned()
    ensures Owned("", Deduped([])) && Deduped([]) == []
  {
  }

  /** Loading a stored list gives it back. */
  lemma {:induction false} StoredReloads(p: Paired, ok: bool)
    requires WellOwned(p)
    ensures Reloaded(Stored(p, true), ok) == Stored(p, true)
  {
    hide Deduped, Owned;
    assert (p.list == [] <==> p.owner == "") && |p.list| <= PAIRED_LIST_MAX by { OwnedHasOwner(p); }
    OwnedIsDistinct(p.owner, p.list);
    DedupeOfDistinct(p.list);
    NobodyOwned();
  }

  lemma {:induction false} OwnedHasOwner(p: Paired)
    requires Owned(p.owner, p.list)
    ensures (p.list == [] <==> p.owner == "") && |p.list| <= PAIRED_LIST_MAX
  {
  }

  /** A reboot keeps ownership, also when it migrates an older blob. */
  lemma {:induction false} ReloadKeepsOwner(p: Paired, ok: bool)
    requires WellOwned(p)
    ensures WellOwned(Reloaded(p, ok))
  {
    hide Deduped, Owned, Migrated;
    LoadedOwned(p.flash);
  }

  // ---- What each update leaves ------------------------------------------------------------

  /** Enrolling is refused for an empty account, a full list or a failed store, and then
      changes nothing. An account already paired keeps its key, which is handed back,
      and its label unless a new one is given; a new account goes to the end with the
      key given. The first account becomes the owner, and flash holds the result. */
  lemma {:induction false} AddedMeans(p: Paired, sub: Sub, email: Email, key: Key, at: nat, ok: bool)
    ensures var r, i := Added(p, sub, email, key, at, ok), IndexOf(p.list, sub);
            && (r.index < 0 <==> sub == "" || !ok || (i == |p.list| && |p.list| >= PAIRED_LIST_MAX))
            && (r.index < 0 ==> r.paired == p)
            && (r.index >= 0 ==>
                  var q, role := r.paired, if sub == r.paired.owner then Owner else User;
                  && q.owner == (if p.owner == "" then sub else p.owner) && q.flash == Blob(q.owner, q.list)
                  && r.role == role && r.index == i
                  && (i == |p.list| ==> r.key == key && q.list == p.list + [Entry(sub, email, key, at, role)])
                  && (i < |p.list| ==>
                        var shown := if email == "" then p.list[i].email else email;
                        && r.key == p.list[i].key
                        && q.list == p.list[..i] + [Entry(sub, shown, p.list[i].key, at, role)] + p.list[i + 1..]))
  {
    hide IndexOf;
  }

  /** A key rotation that is stored changes the owner's key and nothing else, in RAM and
      in flash; one that is not stored, or without an owner, changes nothing. */
  lemma {:induction false} RotatedMeans(p: Paired, key: Key, ok: bool)
    requires WellOwned(p)
    ensures !ok || p.list == [] ==> Rotated(p, key, ok) == p
    ensures ok && p.list != [] ==>
              var list := [p.list[0].(key := key)] + p.list[1..];
              Rotated(p, key, ok) == Paired(p.owner, list, Blob(p.owner, list))
  {
    hide FlashOwned;
    if ok && p.list != [] {
      assert OwnerIndex(p.list) == 0;
      assert p.list[0 := p.list[0].(key := key)] == [p.list[0].(key := key)] + p.list[1..];
    }
  }

  /** After a stored reload of a blob with entries, flash holds the list as version 3, and
      further reloads change nothing; without the store only flash stays behind. */
  lemma {:induction false} ReloadSettles(p: Paired, ok: bool)
    requires Loaded(p.flash).1 != []
    ensures var q := Reloaded(p, true);
            && q.list != [] && q.flash == Blob(q.owner, q.list) && Reloaded(q, ok) == q
            && Reloaded(p, false) == q.(flash := p.flash)
  {
    hide Deduped, Migrated, IndexOf;
    var (owner, entries) := Loaded(p.flash);
    var d := Deduped(entries);
    DedupeKeepsFirsts(entries);
    FirstIsFirst(entries, d);
    DedupeOfDistinct(d);
    if d == entries && !IsMigrated(p.flash) {
      assert p.flash == Blob(owner, entries);
    }
  }

  /** Migration keeps the first phone of every account: its key, its name as the label,
      its time and its role. */
  lemma {:induction false} MigrationKeeps(p: Paired, ok: bool, i: nat)
    requires IsMigrated(p.flash) && i < |p.flash.phones|
    requires forall j :: 0 <= j < i ==> p.flash.phones[j].sub != p.flash.phones[i].sub
    ensures var e := p.flash.phones[i];
            Entry(e.sub, e.displayName, e.key, e.pairedAt, e.role) in Reloaded(p, ok).list
  {
    hide Deduped, IndexOf;
    var entries, e := Loaded(p.flash).1, p.flash.phones[i];
    DedupeKeepsFirsts(entries);
    assert entries[i].sub == e.sub && forall j :: 0 <= j < i ==> entries[j].sub == p.flash.phones[j].sub;
    assert IndexOf(entries, e.sub) == i;
    assert entries[IndexOf(entries, e.sub)] in Deduped(entries);
  }
}

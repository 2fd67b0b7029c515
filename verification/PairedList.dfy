/** The dense in-place array behind the paired-account list (paired_list.c). */
module PairedList {
  import opened Accounts

  /** A wiped slot: no key lingers past the count. */
  const BLANK := Entry("", "", 0, 0, User)

  class List {
    const entries: array<Entry>
    var count: nat
    var owner: Sub
    var flash: Flash

    ghost predicate Valid()
      reads this, entries
    {
      && entries.Length == PAIRED_LIST_MAX && count <= PAIRED_LIST_MAX
      && forall i :: count <= i < entries.Length ==> entries[i] == BLANK
    }

    ghost function View(): Paired
      requires Valid()
      reads this, entries
    {
      Paired(owner, entries[..count], flash)
    }

    constructor (flash: Flash)
      ensures Valid() && fresh(entries) && View() == Paired("", [], flash)
    {
      entries := new Entry[PAIRED_LIST_MAX](_ => BLANK);
      count, owner := 0, "";
      this.flash := flash;
    }

    method Find(sub: Sub) returns (index: int)
      requires Valid()
      ensures var k := IndexOf(View().list, sub); index == if k < count then k else -1
    {
      index := 0;
      while index < count && entries[index].sub != sub
        invariant 0 <= index <= count
        invariant forall i :: 0 <= i < index ==> entries[i].sub != sub
      {
        index := index + 1;
      }
      ghost var k := IndexOf(View().list, sub);
      assert index < count ==> entries[..count][index].sub == sub;
      assert k < count ==> entries[k].sub == sub;
      if index == count {
        index := -1;
      }
    }

    /** nvs_store; `ok` is the outcome of the flash write. */
    method Store(ok: bool)
      requires Valid()
      modifies this`flash
      ensures Valid() && View() == Stored(old(View()), ok)
    {
      if ok {
        if count == 0 {
          flash := Empty;
        } else {
          flash := Blob(owner, entries[..count]);
        }
      }
    }

    /** The entry paired_list_add writes before it stores, new or updated. */
    method Stage(sub: Sub, email: Email, key: Key, at: nat, found: int) returns (index: nat, e: Entry)
      requires Valid() && found == (if IndexOf(View().list, sub) < count then IndexOf(View().list, sub) else -1)
      requires found < 0 ==> count < PAIRED_LIST_MAX
      modifies this, entries
      ensures Valid() && index == (if found < 0 then old(count) else found) < count == |View().list|
      ensures View() == Enrolled(old(View()), sub, email, key, at) && View().list[index] == e
    {
      hide IndexOf;
      ghost var was := View();
      if owner == "" {
        owner := sub;
      }
      e := BLANK.(sub := sub, key := key);
      if found < 0 {
        index := count;
        count := count + 1;
      } else {
        index := found;
        e := entries[index];
      }
      if email != "" {
        e := e.(email := email);
      }
      e := e.(pairedAt := at, role := RoleFor(owner, sub));
      entries[index] := e;
      assert entries[..count] == Enrolled(was, sub, email, key, at).list;
    }

    method Add(sub: Sub, email: Email, key: Key, at: nat, ok: bool) returns (index: int, stored: Key, role: Role)
      requires Valid()
      modifies this, entries
      ensures Valid()
      ensures AddResult(View(), index, stored, role) == Added(old(View()), sub, email, key, at, ok)
    {
      hide IndexOf, Enrolled;
      stored, role := key, User;
      if sub == "" {
        return -1, key, User;
      }
      var found := Find(sub);
      if found < 0 && count >= PAIRED_LIST_MAX {
        return -1, key, User;
      }
      ghost var was := View();
      var claimed, before := owner == "", if found < 0 then BLANK else entries[found];
      var e;
      index, e := Stage(sub, email, key, at, found);
      Store(ok);
      if ok {
        return index, e.key, e.role;
      }
      ghost var q := View();
      EnrolledUndone(was, q, sub, email, key, at);
      Undo(index, found < 0, claimed, before);
      assert View() == was;
      return -1, key, User;
    }

    /** The roll-back of paired_list_add when the store fails. */
    method Undo(index: nat, appended: bool, claimed: bool, before: Entry)
      requires Valid() && index < count && (appended ==> index == count - 1)
      modifies this, entries
      ensures Valid() && flash == old(flash) && owner == if claimed then "" else old(owner)
      ensures entries[..count] == if appended then old(entries[..count - 1]) else old(entries[..count])[index := before]
    {
      if appended {
        entries[index] := BLANK;
        count := count - 1;
      } else {
        entries[index] := before;
      }
      if claimed {
        owner := "";
      }
    }

    /** The shift that keeps the array dense: drop slot i, wipe the freed one. */
    method ShiftOut(i: nat)
      requires Valid() && i < count
      modifies this`count, entries
      ensures Valid() && count == old(count) - 1 && entries[..count] == Without(old(entries[..count]), i)
    {
      ghost var was := entries[..];
      var k := i;
      while k < count - 1
        invariant i <= k <= count - 1 && count == old(count)
        invariant forall j :: 0 <= j < i ==> entries[j] == was[j]
        invariant forall j :: i <= j < k ==> entries[j] == was[j + 1]
        invariant forall j :: k <= j < entries.Length ==> entries[j] == was[j]
      {
        entries[k] := entries[k + 1];
        k := k + 1;
      }
      entries[count - 1] := BLANK;
      count := count - 1;
      WithoutPointwise(was[..count + 1], i, entries[..count]);
    }

    method Remove(index: int, ok: bool) returns (found: bool, stored: bool)
      requires Valid()
      modifies this, entries
      ensures Valid() && found == (0 <= index < old(count)) && stored == (found && ok)
      ensures View() == if found then RemovedAt(old(View()), index, ok) else old(View())
    {
      if index < 0 || index >= count {
        return false, false;
      }
      ShiftOut(index);
      Store(ok);
      return true, ok;
    }

    method RotateOwnerKey(key: Key, ok: bool)
      requires Valid()
      modifies this, entries
      ensures Valid() && View() == Rotated(old(View()), key, ok)
    {
      ghost var was := View();
      var i := 0;
      while i < count && entries[i].role != Owner
        invariant 0 <= i <= count
        invariant forall j :: 0 <= j < i ==> entries[j].role != Owner
      {
        i := i + 1;
      }
      assert i < count ==> was.list[i].role == Owner;
      assert OwnerIndex(was.list) < count ==> entries[OwnerIndex(was.list)].role == Owner;
      assert OwnerIndex(was.list) == i;
      if i < count {
        var before := entries[i].key;
        entries[i] := entries[i].(key := key);
        assert entries[..count] == was.list[i := was.list[i].(key := key)];
        Store(ok);
        if !ok {
          entries[i] := entries[i].(key := before);
          assert entries[..count] == was.list;
        }
      }
    }

    method Clear(ok: bool)
      requires Valid()
      modifies this, entries
      ensures Valid() && View() == Cleared(old(View()), ok)
    {
      forall i | 0 <= i < entries.Length { entries[i] := BLANK; }
      count, owner := 0, "";
      assert entries[..count] == [];
      Store(ok);
    }

    /** Slots after i hold no other entry of accounts at or before i. */
    ghost predicate Settled(i: nat)
      requires Valid()
      reads this, entries
    {
      forall a, b :: 0 <= a < b < count && a < i ==> entries[a].sub != entries[b].sub
    }

    /** The inner loop of dedupe_accounts_locked: drop the later entries of slot i's account. */
    method DropCopies(i: nat)
      requires Valid() && i < count && Settled(i)
      modifies this`count, entries
      ensures Valid() && i < count <= old(count) && Settled(i + 1)
      ensures Deduped(entries[..count]) == Deduped(old(entries[..count]))
    {
      hide Deduped, IndexOf, Without;
      ghost var was := entries[..count];
      var j := i + 1;
      while j < count
        invariant Valid() && i < j <= count <= |was| && Settled(i)
        invariant forall b :: i < b < j ==> entries[b].sub != entries[i].sub
        invariant Deduped(entries[..count]) == Deduped(was)
        decreases count - j
      {
        if entries[j].sub == entries[i].sub {
          ghost var now := entries[..count];
          DropLater(now, i, j);
          ShiftOut(j);
          WithoutAt(now, j, entries[..count]);
          assert forall b :: 0 <= b < count ==> entries[b] == entries[..count][b];
        } else {
          j := j + 1;
        }
      }
    }

    /** dedupe_accounts_locked: quadratic, in place. */
    method DedupeAccounts() returns (changed: bool)
      requires Valid()
      modifies this`count, entries
      ensures Valid() && entries[..count] == Deduped(old(entries[..count]))
      ensures changed <==> count != old(count)
    {
      hide Deduped, IndexOf;
      ghost var was := entries[..count];
      changed := false;
      var i := 0;
      while i < count
        invariant Valid() && 0 <= i <= count <= |was| && Settled(i)
        invariant Deduped(entries[..count]) == Deduped(was)
        invariant changed <==> count != |was|
        decreases count - i
      {
        var before := count;
        DropCopies(i);
        changed := changed || count != before;
        i := i + 1;
      }
      assert DistinctSubs(entries[..count]);
      DedupeOfDistinct(entries[..count]);
    }

    /** nvs_load with migrate_v2; tells whether the list must be written back. */
    method Load() returns (dirty: bool)
      requires Valid()
      modifies this, entries
      ensures Valid() && flash == old(flash) && dirty == IsMigrated(flash)
      ensures (owner, entries[..count]) == Loaded(flash)
    {
      forall i | 0 <= i < entries.Length { entries[i] := BLANK; }
      count, owner, dirty := 0, "", false;
      if flash.Blob? && |flash.entries| <= PAIRED_LIST_MAX {
        forall i | 0 <= i < |flash.entries| { entries[i] := flash.entries[i]; }
        count, owner := |flash.entries|, flash.owner;
        assert entries[..count] == flash.entries;
      } else if flash.BlobV2? && |flash.phones| <= PAIRED_LIST_MAX {
        Migrate();
        dirty := true;
      }
    }

    /** The copy loop of migrate_v2. */
    method Migrate()
      requires Valid() && count == 0 && flash.BlobV2? && |flash.phones| <= PAIRED_LIST_MAX
      modifies this, entries
      ensures Valid() && flash == old(flash) && owner == flash.owner && entries[..count] == Migrated(flash.phones)
    {
      owner := flash.owner;
      var i := 0;
      while i < |flash.phones|
        invariant flash == old(flash) && flash.BlobV2? && owner == flash.owner && count == 0
        invariant 0 <= i <= |flash.phones| <= entries.Length
        invariant forall j :: 0 <= j < i ==> entries[j] == MigratedOne(flash.phones[j])
        invariant forall j :: i <= j < entries.Length ==> entries[j] == BLANK
      {
        var e := flash.phones[i];
        entries[i] := Entry(e.sub, e.displayName, e.key, e.pairedAt, e.role);
        i := i + 1;
      }
      count := |flash.phones|;
    }

    /** paired_list_init; `ok` is the outcome of the store it may make. */
    method Init(ok: bool)
      requires Valid()
      modifies this, entries
      ensures Valid() && View() == Reloaded(old(View()), ok)
    {
      hide Deduped, Loaded;
      var dirty := Load();
      ghost var loaded := entries[..count];
      var collapsed := DedupeAccounts();
      DedupeSameSize(loaded);
      if dirty || collapsed {
        Store(ok);
      }
    }
  }

  /** What the roll-back undoes is all that staging did. */
  lemma {:induction false} EnrolledUndone(p: Paired, q: Paired, sub: Sub, email: Email, key: Key, at: nat)
    requires sub != "" && q == Enrolled(p, sub, email, key, at)
    ensures var i := IndexOf(p.list, sub);
            && q.flash == p.flash && q.owner == (if p.owner == "" then sub else p.owner)
            && (if i < |p.list| then |q.list| == |p.list| && q.list[i := p.list[i]] == p.list
                else |q.list| == |p.list| + 1 && q.list[..|p.list|] == p.list)
  {
    hide IndexOf;
  }

  lemma {:induction false} WithoutAt(list: seq<Entry>, i: nat, m: seq<Entry>)
    requires i < |list| && m == Without(list, i)
    ensures forall b :: 0 <= b < |m| ==> m[b] == list[if b < i then b else b + 1]
  {
  }

  lemma {:induction false} WithoutPointwise(list: seq<Entry>, i: nat, m: seq<Entry>)
    requires i < |list| == |m| + 1
    requires (forall j :: 0 <= j < i ==> m[j] == list[j]) && (forall j :: i <= j < |m| ==> m[j] == list[j + 1])
    ensures m == Without(list, i)
  {
  }

  /** A later entry of an account already listed can be dropped first. */
  lemma {:induction false} DropLater(list: seq<Entry>, i: nat, j: nat)
    requires i < j < |list| && list[i].sub == list[j].sub
    ensures Deduped(Without(list, j)) == Deduped(list)
    decreases |list|
  {
    hide Deduped, IndexOf;
    var n := |list| - 1;
    var init, last := list[..n], list[n];
    var w := Without(list, j);
    DedupedStep(list);
    if j == n {
      assert w == init && init[i].sub == last.sub;
    } else {
      DropLater(init, i, j);
      DedupedStep(w);
      assert w[..|w| - 1] == Without(init, j) && w[|w| - 1] == last;
      SameAccounts(init, i, j, last.sub);
    }
  }

  lemma {:induction false} DedupedStep(list: seq<Entry>)
    requires list != []
    ensures var n := |list| - 1;
            Deduped(list) == if IndexOf(list[..n], list[n].sub) < n then Deduped(list[..n])
                             else Deduped(list[..n]) + [list[n]]
  {
  }

  lemma {:induction false} SameAccounts(list: seq<Entry>, i: nat, j: nat, sub: Sub)
    requires i < j < |list| && list[i].sub == list[j].sub
    ensures IndexOf(list, sub) < |list| <==> IndexOf(Without(list, j), sub) < |list| - 1
  {
    var w := Without(list, j);
    var a, b := IndexOf(list, sub), IndexOf(w, sub);
    assert w[i] == list[i];
    assert forall k :: 0 <= k < |w| ==> w[k] == list[if k < j then k else k + 1];
    if a < |list| {
      assert a < j ==> w[a] == list[a];
      assert a > j ==> w[a - 1] == list[a];
    }
    if b < |w| {
      assert list[if b < j then b else b + 1].sub == sub;
    }
  }

  lemma {:induction false} DedupeSameSize(list: seq<Entry>)
    ensures |Deduped(list)| == |list| ==> Deduped(list) == list
  {
    if list != [] {
      DedupeSameSize(list[..|list| - 1]);
      assert list == list[..|list| - 1] + [list[|list| - 1]];
    }
  }
}

/** The session pool and the command handlers as they update their arrays in
    place, proved to take the steps of LocalLink, and what the device therefore
    keeps: one owner, who leaves only by a wipe, and accounts that leave only by
    the events that may remove them. */
module LinkDevice {
  import opened Accounts
  import opened LinkAuthority
  import opened LinkCommands
  import opened LocalLink
  import opened Options
  import opened PairedList

  class SessionPool {
    const slots: array<Session>

    ghost predicate Valid() reads this { slots.Length == LOCAL_SESSION_MAX }

    constructor ()
      ensures Valid() && fresh(slots) && slots[..] == seq(LOCAL_SESSION_MAX, _ => FREE_SLOT)
    {
      slots := new Session[LOCAL_SESSION_MAX](_ => FREE_SLOT);
    }

    /** The first slot holding `sock`, or -1. */
    method SlotOf(sock: int) returns (slot: int)
      requires Valid()
      ensures var k := FindSock(slots[..], sock); slot == if k < slots.Length then k else -1
    {
      slot := 0;
      while slot < slots.Length && slots[slot].sock != sock
        invariant 0 <= slot <= slots.Length
        invariant forall i :: 0 <= i < slot ==> slots[i].sock != sock
      {
        slot := slot + 1;
      }
      ghost var k := FindSock(slots[..], sock);
      assert slot < slots.Length ==> slots[..][slot].sock == sock;
      assert k < slots.Length ==> slots[k].sock == sock;
      if slot == slots.Length {
        slot := -1;
      }
    }

    method Acquire(sock: int)
      requires Valid()
      modifies slots
      ensures var k := FindSock(old(slots[..]), -1);
              slots[..] == if k < slots.Length then old(slots[..])[k := FREE_SLOT.(sock := sock)] else old(slots[..])
    {
      var slot := SlotOf(-1);
      if slot >= 0 {
        slots[slot] := FREE_SLOT.(sock := sock);
      }
    }

    method Release(sock: int)
      requires Valid()
      modifies slots
      ensures var k := FindSock(old(slots[..]), sock);
              slots[..] == if k < slots.Length then old(slots[..])[k := FREE_SLOT] else old(slots[..])
    {
      var slot := SlotOf(sock);
      if slot >= 0 {
        slots[slot] := FREE_SLOT;
      }
    }

    method OnPairedRemoved(index: int)
      requires Valid()
      modifies slots
      ensures slots[..] == OnRemoved(old(slots[..]), index)
    {
      ghost var was := slots[..];
      var i := 0;
      while i < slots.Length
        invariant 0 <= i <= slots.Length
        invariant forall j :: 0 <= j < i ==> slots[j] == Shifted(was[j], index)
        invariant forall j :: i <= j < slots.Length ==> slots[j] == was[j]
      {
        if slots[i].sock != -1 {
          if slots[i].paired == index {
            slots[i] := Dropped(slots[i]);
          } else if slots[i].paired > index {
            slots[i] := slots[i].(paired := slots[i].paired - 1);
          }
        }
        i := i + 1;
      }
    }

    method DropAllAuth()
      requires Valid()
      modifies slots
      ensures slots[..] == AllDropped(old(slots[..]))
    {
      ghost var was := slots[..];
      var i := 0;
      while i < slots.Length
        invariant 0 <= i <= slots.Length
        invariant forall j :: 0 <= j < i ==> slots[j] == if was[j].sock == -1 then was[j] else Dropped(was[j])
        invariant forall j :: i <= j < slots.Length ==> slots[j] == was[j]
      {
        if slots[i].sock != -1 {
          slots[i] := Dropped(slots[i]);
        }
        i := i + 1;
      }
    }

    method Wipe()
      requires Valid()
      modifies slots
      ensures slots[..] == seq(slots.Length, _ => FREE_SLOT)
    {
      forall i | 0 <= i < slots.Length { slots[i] := FREE_SLOT; }
    }
  }

  class Device {
    const list: List
    const sessions: SessionPool
    ghost var named: seq<Sub>

    ghost predicate Shaped()
      reads this, list, list.entries, sessions
    {
      list.Valid() && sessions.Valid() && |named| == LOCAL_SESSION_MAX
    }

    ghost function View(): Link
      requires Shaped()
      reads this, list, list.entries, sessions, sessions.slots
    {
      Link(list.View(), sessions.slots[..], named)
    }

    /** Between events: one owner whose sessions are its own, and everyone paired is
        also in flash. */
    ghost predicate Valid()
      reads this, list, list.entries, sessions, sessions.slots
    {
      Shaped() && Sound(View())
    }

    /** What one event may do to a valid device. */
    twostate predicate Took(e: Event)
      requires old(Shaped()) && Shaped()
      reads this, list, list.entries, sessions, sessions.slots
    {
      var before, now := old(View()), View();
      && now == Step(before, e)
      && (before.accounts.list != [] ==> (SameOwner(before, now) <==> !Wipes(before, e)))
      && (forall sub :: Has(before.accounts.list, sub) && !Has(now.accounts.list, sub) ==> Removes(before, e, sub))
    }

    /** Power-on with any flash; valid if the blob is one the device, or an older
        version of it, stored. */
    constructor (flash: Flash, stored: bool)
      ensures Shaped() && (FlashOwned(flash) ==> Valid())
      ensures fresh(list) && fresh(list.entries) && fresh(sessions) && fresh(sessions.slots)
      ensures View().accounts == Reloaded(Paired("", [], flash), stored)
      ensures flash == Empty ==> Init(View())
    {
      hide Deduped, Sound;
      var l := new List(flash);
      l.Init(stored);
      list := l;
      sessions := new SessionPool();
      named := seq(LOCAL_SESSION_MAX, _ => "");
      new;
      if FlashOwned(flash) {
        PoweredOn(View(), flash, stored);
      }
      NobodyOwned();
    }

    method HandleEnroll(k: nat, who: Option<(Sub, Email)>, key: Key, at: nat, stored: bool)
      requires Shaped() && k < LOCAL_SESSION_MAX
      modifies this, list, list.entries, sessions.slots
      ensures Shaped() && View() == Handle(old(View()), k, Enroll(who, key, at, stored))
    {
      hide Added, Accounts.IndexOf, List.View, List.Valid;
      var s := sessions.slots[k];
      if s.phase == PakeOk && s.encrypted && who.Some? {
        var index, _, role := list.Add(who.value.0, who.value.1, key, at, stored);
        if index >= 0 {
          sessions.slots[k] := s.(paired := index, role := if role == Owner then OwnerRole else UserRole);
          named := named[k := who.value.0];
        }
      }
    }

    method HandleAuth1(k: nat, sub: Option<Sub>)
      requires Shaped() && k < LOCAL_SESSION_MAX
      modifies this, sessions.slots
      ensures Shaped() && View() == Handle(old(View()), k, Auth1(sub))
    {
      hide Accounts.IndexOf;
      var s := Restarted(sessions.slots[k]);
      sessions.slots[k] := s;
      if sub.Some? {
        var index := list.Find(sub.value);
        if index >= 0 {
          sessions.slots[k] := s.(phase := AuthWaitProof, paired := index);
          named := named[k := sub.value];
        }
      }
    }

    method HandleAuth3(k: nat, proof: Proof)
      requires Shaped() && k < LOCAL_SESSION_MAX
      modifies sessions.slots
      ensures Shaped() && View() == Handle(old(View()), k, Auth3(proof))
    {
      var s := sessions.slots[k];
      if s.phase != AuthWaitProof || proof == Malformed {
        return;
      }
      if proof == Wrong {
        sessions.slots[k] := s.(phase := New, paired := -1);
        return;
      }
      var role := UserRole;
      if 0 <= s.paired < list.count && list.entries[s.paired].role == Owner {
        role := OwnerRole;
      }
      sessions.slots[k] := s.(phase := AuthOk, role := role);
    }

    method HandlePake1(k: nat, ready: bool)
      requires Shaped() && k < LOCAL_SESSION_MAX
      modifies sessions.slots
      ensures Shaped() && View() == Handle(old(View()), k, Pake1(ready))
    {
      sessions.slots[k] := Restarted(sessions.slots[k]);
      if ready {
        sessions.slots[k] := sessions.slots[k].(phase := PakeWaitProof);
      }
    }

    method HandlePake3(k: nat, proof: Proof)
      requires Shaped() && k < LOCAL_SESSION_MAX
      modifies sessions.slots
      ensures Shaped() && View() == Handle(old(View()), k, Pake3(proof))
    {
      if sessions.slots[k].phase == PakeWaitProof {
        sessions.slots[k] := sessions.slots[k].(phase := if proof == Right then PakeOk else New);
      }
    }

    /** paired_list_remove, then local_session_on_paired_removed on success. */
    method RemoveEntry(index: nat, stored: bool) returns (removed: bool)
      requires Shaped() && index < list.count
      modifies list, list.entries, sessions.slots
      ensures Shaped() && removed == stored && View() == Unpaired(old(View()), index, stored)
    {
      hide RemovedAt, List.View, List.Valid;
      SizeOfView();
      var _, ok := list.Remove(index, stored);
      if ok {
        sessions.OnPairedRemoved(index);
      }
      return ok;
    }

    lemma SizeOfView()
      requires Shaped()
      ensures |list.View().list| == list.count
    {
    }

    method HandleRevoke(k: nat, target: Option<Sub>, stored: bool)
      requires Shaped() && k < LOCAL_SESSION_MAX
      modifies list, list.entries, sessions.slots
      ensures Shaped() && View() == Handle(old(View()), k, Revoke(target, stored))
      ensures var l := old(View()); Sound(l) && IsOwner(l.pool[k]) ==> Revoked(l, View(), target, stored)
    {
      hide Unpaired, Accounts.IndexOf, Revoked, Sound;
      if Sound(View()) && IsOwner(View().pool[k]) {
        RevokeTakesExactlyWhen(View(), k, target, stored);
      }
      var s := sessions.slots[k];
      if IsOwner(s) && target.Some? {
        var index := list.Find(target.value);
        if index >= 0 && index != s.paired {
          var _ := RemoveEntry(index, stored);
        }
      }
    }

    method HandleUnpair(k: nat, stored: bool)
      requires Shaped() && k < LOCAL_SESSION_MAX
      modifies list, list.entries, sessions.slots
      ensures Shaped() && View() == Handle(old(View()), k, Unpair(stored))
      ensures var l := old(View());
              var i := l.pool[k].paired;
              Sound(l) && IsAuthed(l.pool[k]) ==>
                if 0 < i < |l.accounts.list| then TookOut(l, View(), i, stored) else View() == l
    {
      hide Unpaired, TookOut, Sound;
      if Sound(View()) && IsAuthed(View().pool[k]) {
        UnpairTakes(View(), k, stored);
      }
      var s := sessions.slots[k];
      if IsAuthed(s) && s.paired < list.count && list.entries[s.paired].role != Owner {
        var _ := RemoveEntry(s.paired, stored);
      }
    }

    method RevokeAllNonOwner(stores: nat -> bool)
      requires Shaped()
      modifies list, list.entries, sessions.slots
      ensures Shaped() && View() == RevokedFrom(old(View()), 0, stores, 0)
    {
      hide Unpaired;
      var i, n := 0, 0;
      while i < list.count
        invariant Shaped() && named == old(named)
        invariant i <= list.count ==> RevokedFrom(View(), i, stores, n) == RevokedFrom(old(View()), 0, stores, 0)
        invariant i > list.count ==> View() == RevokedFrom(old(View()), 0, stores, 0)
        decreases list.count - i
      {
        if list.entries[i].role != Owner {
          ghost var was := View();
          SizeUnpaired(was, i, stores(n));
          var removed := RemoveEntry(i, stores(n));
          if !removed {
            i := i + 1;
          }
          n := n + 1;
        } else {
          i := i + 1;
        }
      }
    }

    method HandlePwSet(k: nat, accepted: bool, stores: nat -> bool, key: Key, stored: bool)
      requires Shaped() && k < LOCAL_SESSION_MAX
      modifies list, list.entries, sessions.slots
      ensures Shaped() && View() == Handle(old(View()), k, PwSet(accepted, stores, key, stored))
    {
      hide RevokedFrom, Rotated, List.View, List.Valid;
      if IsOwner(sessions.slots[k]) && accepted {
        RevokeAllNonOwner(stores);
        list.RotateOwnerKey(key, stored);
      }
    }

    method HandleReset(k: nat, stored: bool)
      requires Shaped() && k < LOCAL_SESSION_MAX
      modifies list, list.entries, sessions.slots
      ensures Shaped() && View() == Handle(old(View()), k, Reset(stored))
    {
      hide List.View, List.Valid;
      if IsOwner(sessions.slots[k]) {
        list.Clear(stored);
        sessions.DropAllAuth();
      }
    }

    method Dispatch(k: nat, c: Command)
      requires Shaped() && k < LOCAL_SESSION_MAX
      modifies this, list, list.entries, sessions.slots
      ensures Shaped() && View() == Handle(old(View()), k, c)
    {
      hide Handle, View, Shaped;
      match c
      case Pake1(ready) => HandlePake1(k, ready);
      case Pake3(proof) => HandlePake3(k, proof);
      case Enroll(who, key, at, stored) => HandleEnroll(k, who, key, at, stored);
      case Auth1(sub) => HandleAuth1(k, sub);
      case Auth3(proof) => HandleAuth3(k, proof);
      case Revoke(target, stored) => HandleRevoke(k, target, stored);
      case Unpair(stored) => HandleUnpair(k, stored);
      case PwSet(accepted, stores, key, stored) => HandlePwSet(k, accepted, stores, key, stored);
      case Reset(stored) => HandleReset(k, stored);
    }

    /** The line is looked up, flagged and dispatched. */
    method TakeLine(sock: int, encrypted: bool, c: Command)
      requires Shaped()
      modifies this, list, list.entries, sessions.slots
      ensures Shaped() && View() == Step(old(View()), Line(sock, encrypted, c))
    {
      hide Handle;
      if sock < 0 {
        return;
      }
      var k := sessions.SlotOf(sock);
      if k < 0 || (encrypted && !Keyed(sessions.slots[k])) {
        return;
      }
      ghost var was := View();
      sessions.slots[k] := sessions.slots[k].(encrypted := encrypted);
      assert View() == SetSession(was, k, was.pool[k].(encrypted := encrypted));
      Dispatch(k, c);
    }

    /** One line from a socket, `encrypted` when it came as an authentic frame. */
    method HandleLine(sock: int, encrypted: bool, c: Command)
      requires Valid()
      modifies this, list, list.entries, sessions.slots
      ensures Valid() && Took(Line(sock, encrypted, c))
    {
      hide View, Shaped, Step, Sound, Wipes, Removes, Has, SameOwner;
      StepTaken(View(), Line(sock, encrypted, c));
      TakeLine(sock, encrypted, c);
    }

    method Connect(sock: int)
      requires Valid()
      modifies sessions.slots
      ensures Valid() && Took(Event.Connect(sock))
    {
      hide Sound, Wipes, Removes, Has, SameOwner;
      StepTaken(View(), Event.Connect(sock));
      sessions.Acquire(sock);
    }

    method Disconnect(sock: int)
      requires Valid()
      modifies sessions.slots
      ensures Valid() && Took(Event.Disconnect(sock))
    {
      hide Sound, Wipes, Removes, Has, SameOwner;
      StepTaken(View(), Event.Disconnect(sock));
      sessions.Release(sock);
    }

    method Reboot(stored: bool)
      requires Valid()
      modifies list, list.entries, sessions.slots
      ensures Valid() && Took(Event.Reboot(stored))
    {
      hide Reloaded, Sound, Wipes, Removes, Has, SameOwner;
      StepTaken(View(), Event.Reboot(stored));
      list.Init(stored);
      sessions.Wipe();
    }

    method FactoryReset(cleared: bool, stored: bool)
      requires Valid()
      modifies list, list.entries, sessions.slots
      ensures Valid() && Took(Event.FactoryReset(cleared, stored))
    {
      hide Reloaded, Sound, Wipes, Removes, Has, SameOwner;
      StepTaken(View(), Event.FactoryReset(cleared, stored));
      list.Clear(cleared);
      list.Init(stored);
      sessions.Wipe();
    }
  }

  /** What the theorems say of one event on a sound device. */
  lemma {:induction false} StepTaken(l: Link, e: Event)
    requires Sound(l)
    ensures Sound(Step(l, e))
    ensures l.accounts.list != [] ==> (SameOwner(l, Step(l, e)) <==> !Wipes(l, e))
    ensures forall sub :: Has(l.accounts.list, sub) && !Has(Step(l, e).accounts.list, sub) ==> Removes(l, e, sub)
  {
    hide Step, Wipes, Removes, Has, SameOwner, Covered, WellOwned;
    StepSound(l, e);
    StepOwns(l, e);
    forall sub | Has(l.accounts.list, sub) && !Has(Step(l, e).accounts.list, sub)
      ensures Removes(l, e, sub)
    {
      AccountLost(l, e, sub);
    }
  }

  lemma {:induction false} PoweredOn(l: Link, flash: Flash, stored: bool)
    requires FlashOwned(flash) && l.accounts == Reloaded(Paired("", [], flash), stored)
    requires l.pool == seq(LOCAL_SESSION_MAX, _ => FREE_SLOT) && |l.named| == LOCAL_SESSION_MAX
    ensures Sound(l)
  {
    hide Reloaded, Covered, WellOwned;
    var p := Paired("", [], flash);
    assert WellOwned(p) by { NobodyPaired(flash); }
    ReloadKeepsOwner(p, stored);
    ReloadAgrees(p, stored);
    ReloadCovers(p, stored, "");
  }

  lemma {:induction false} NobodyPaired(flash: Flash)
    requires FlashOwned(flash)
    ensures WellOwned(Paired("", [], flash))
  {
  }
}

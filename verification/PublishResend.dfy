/** handlePublishResend of aws_iot_handler.c: a cursor walk over the outgoing
    slots that calls MQTT_Publish(dup) as it goes. The reserve step inside
    MQTT_Publish may compact the array under the cursor. */
module PublishResend {
  import opened MqttTypes
  import opened RecordList
  import opened RecordArray
  import opened StateEngine
  import opened QosHandlers

  /** The ids of the publishes awaiting a resend, in record order. */
  function PendingIds(s: seq<Record>): (ids: seq<PacketId>)
    ensures |ids| <= |s|
  {
    if s == [] then []
    else if s[0].state in PUBLISH_STATES then [s[0].packetId] + PendingIds(s[1..])
    else PendingIds(s[1..])
  }

  /** The ids the loop hands to MQTT_Publish, from `cursor` on. */
  function Walk(s: seq<Record>, cursor: nat): seq<PacketId>
    requires cursor <= |s|
    decreases |s| - cursor
  {
    var k := NextIn(s, PUBLISH_STATES, cursor);
    if k == |s| then [] else [s[k].packetId] + Walk(Roomy(s), k + 1)
  }

  /** A publish the application keeps until it is acknowledged. */
  datatype Stored = Stored(packetId: PacketId, qos: QoS, message: Message, dup: bool)

  predicate InTable(table: seq<Stored>, id: PacketId)
  {
    exists i :: 0 <= i < |table| && table[i].packetId == id
  }

  predicate ValidTable(table: seq<Stored>)
  {
    && (forall i :: 0 <= i < |table| && table[i].packetId != 0 ==> table[i].qos != QoS0)
    && (forall i, j :: 0 <= i < j < |table| && table[i].packetId != 0 ==> table[i].packetId != table[j].packetId)
  }

  /** The part of a walk before the first id the application does not know. */
  function UntilMissing(ids: seq<PacketId>, table: seq<Stored>): (r: seq<PacketId>)
  {
    if ids == [] || !InTable(table, ids[0]) then []
    else [ids[0]] + UntilMissing(ids[1..], table)
  }

  predicate AllInTable(ids: seq<PacketId>, table: seq<Stored>)
  {
    forall i :: 0 <= i < |ids| ==> InTable(table, ids[i])
  }

  /** Everything before a missing id, or everything. */
  lemma {:induction false} UntilMissingIs(known: seq<PacketId>, rest: seq<PacketId>, table: seq<Stored>)
    requires AllInTable(known, table) && (rest == [] || !InTable(table, rest[0]))
    ensures UntilMissing(known + rest, table) == known
    ensures AllInTable(known + rest, table) <==> rest == []
  {
    if known == [] {
      assert known + rest == rest;
    } else {
      UntilMissingIs(known[1..], rest, table);
      assert (known + rest)[1..] == known[1..] + rest;
      assert forall i :: 0 <= i < |known| ==> (known + rest)[i] == known[i];
    }
    assert rest != [] ==> (known + rest)[|known|] == rest[0];
    assert rest == [] ==> known + rest == known;
  }

  // ---- The walk depends only on the shape of the slots ------------------------

  lemma {:induction false} ShapeOfLive(a: seq<Record>, b: seq<Record>)
    requires SameShape(a, b)
    ensures SameShape(Live(a), Live(b))
  {
    if a != [] {
      ShapeOfLive(a[..|a| - 1], b[..|b| - 1]);
    }
  }

  lemma {:induction false} ShapeOfRoomy(a: seq<Record>, b: seq<Record>)
    requires SameShape(a, b) && |a| > 0
    ensures SameShape(Roomy(a), Roomy(b))
  {
    ShapeOfLive(a, b);
  }

  lemma {:induction false} ShapeOfNext(a: seq<Record>, b: seq<Record>, cursor: nat)
    requires SameShape(a, b) && cursor <= |a|
    ensures NextIn(a, PUBLISH_STATES, cursor) == NextIn(b, PUBLISH_STATES, cursor)
    decreases |a| - cursor
  {
    if cursor < |a| {
      ShapeOfNext(a, b, cursor + 1);
    }
  }

  lemma {:induction false} ShapeOfWalk(a: seq<Record>, b: seq<Record>, cursor: nat)
    requires SameShape(a, b) && cursor <= |a|
    ensures Walk(a, cursor) == Walk(b, cursor)
    decreases |a| - cursor
  {
    hide NextIn, Roomy;
    ShapeOfNext(a, b, cursor);
    var k := NextIn(a, PUBLISH_STATES, cursor);
    if k < |a| {
      ShapeOfRoomy(a, b);
      ShapeOfWalk(Roomy(a), Roomy(b), k + 1);
    }
  }

  /** The rest of a walk once slot k has been published. */
  lemma {:induction false} WalkOn(s: seq<Record>, cursor: nat, k: nat, t: seq<Record>)
    requires cursor <= |s| && k == NextIn(s, PUBLISH_STATES, cursor) < |s| && SameShape(t, Roomy(s))
    ensures Walk(s, cursor) == [s[k].packetId] + Walk(t, k + 1)
  {
    ShapeOfWalk(t, Roomy(s), k + 1);
  }

  // ---- Exactly when the walk resends everything -------------------------------

  lemma {:induction false} PendingAppend(a: seq<Record>, b: seq<Record>)
    ensures PendingIds(a + b) == PendingIds(a) + PendingIds(b)
  {
    if a == [] {
      assert a + b == b;
    } else {
      assert (a + b)[1..] == a[1..] + b;
      PendingAppend(a[1..], b);
      var x, y, z := [a[0].packetId], PendingIds(a[1..]), PendingIds(b);
      assert x + (y + z) == x + y + z;
    }
  }

  lemma {:induction false} PendingEmpty(s: seq<Record>)
    ensures PendingIds(s) == [] <==> forall i :: 0 <= i < |s| ==> s[i].state !in PUBLISH_STATES
  {
    if s != [] {
      PendingEmpty(s[1..]);
      assert forall i :: 0 < i < |s| ==> s[i] == s[1..][i - 1];
    }
  }

  lemma {:induction false} PendingOfLive(s: seq<Record>)
    requires FreeZeroed(s)
    ensures PendingIds(Live(s)) == PendingIds(s)
  {
    if s != [] {
      var c, r := s[..|s| - 1], s[|s| - 1];
      PendingOfLive(c);
      assert s == c + [r];
      PendingAppend(c, [r]);
      PendingAppend(Live(c), [r]);
      assert PendingIds([r][1..]) == [];
    }
  }

  /** Once compaction would change nothing, the walk is a plain scan. */
  lemma {:induction false} WalkOfRoomy(s: seq<Record>, cursor: nat)
    requires |s| > 0 && Roomy(s) == s && cursor <= |s|
    ensures Walk(s, cursor) == PendingIds(s[cursor..])
    decreases |s| - cursor
  {
    var k := NextIn(s, PUBLISH_STATES, cursor);
    ScanTo(s, cursor, k);
    if k < |s| {
      WalkOfRoomy(s, k + 1);
      assert s[k..][1..] == s[k + 1..];
    }
  }

  lemma {:induction false} ScanTo(s: seq<Record>, from: nat, to: nat)
    requires from <= to <= |s| && forall i :: from <= i < to ==> s[i].state !in PUBLISH_STATES
    ensures PendingIds(s[from..]) == PendingIds(s[to..])
  {
    assert s[from..] == s[from..to] + s[to..];
    PendingAppend(s[from..to], s[to..]);
    PendingEmpty(s[from..to]);
  }

  lemma {:induction false} RoomyTwice(s: seq<Record>)
    requires |s| > 0 && FreeZeroed(s)
    ensures Roomy(Roomy(s)) == Roomy(s)
  {
    RoomyLast(s);
  }

  /** None of the records the cursor jumps over when the array is compacted
      after the first resend is itself pending. The jump is as long as the
      number of free slots before the first pending one, and happens only when
      the last slot is taken. */
  predicate NoPendingSkipped(s: seq<Record>)
  {
    var p := NextIn(s, PUBLISH_STATES, 0);
    || p == |s|
    || !IsLive(s[|s| - 1])
    || forall i :: |Live(s[..p])| < i <= p && i < |Live(s)| ==> Live(s)[i].state !in PUBLISH_STATES
  }

  /** How many records of the list the cursor has passed once slot p of the
      compacted array is behind it. */
  function Passed(s: seq<Record>, p: nat): (q: nat)
    ensures q <= |Live(s)|
  {
    if p + 1 <= |Live(s)| then p + 1 else |Live(s)|
  }

  /** What is left to resend after slot p, in list terms. */
  lemma {:induction false} LeftInSlots(s: seq<Record>, p: nat)
    requires FreeZeroed(s) && p < |s| && IsLive(s[p])
    ensures |Live(s[..p])| + 1 <= Passed(s, p)
    ensures PendingIds(s[p + 1..]) ==
            PendingIds(Live(s)[|Live(s[..p])| + 1..Passed(s, p)]) + PendingIds(Live(s)[Passed(s, p)..])
  {
    hide Live, PendingIds;
    var l, h, q := Live(s), |Live(s[..p])| + 1, Passed(s, p);
    LiveAround(s, p);
    assert l[h..] == Live(s[p + 1..]);
    PendingOfLive(s[p + 1..]);
    assert l[h..] == l[h..q] + l[q..];
    PendingAppend(l[h..q], l[q..]);
  }

  /** What the walk finds after slot p in the compacted array, in list terms. */
  lemma {:induction false} LeftInCompacted(s: seq<Record>, p: nat)
    requires FreeZeroed(s) && p < |s|
    ensures PendingIds(Compacted(s)[p + 1..]) == PendingIds(Live(s)[Passed(s, p)..])
  {
    hide Live, PendingIds;
    var l, q := Live(s), Passed(s, p);
    var tail := Compacted(s)[p + 1 + |l| - q..];
    assert Compacted(s)[p + 1..] == l[q..] + tail;
    PendingAppend(l[q..], tail);
    PendingEmpty(tail);
    assert l[q..] + [] == l[q..];
  }

  /** The loop resends every pending publish, each once and in order, exactly
      when no pending record is skipped; a publish it does not reach is not sent. */
  lemma {:induction false} ResendsAllExactlyWhen(s: seq<Record>)
    requires |s| > 0 && FreeZeroed(s)
    ensures Walk(s, 0) == PendingIds(s) <==> NoPendingSkipped(s)
  {
    hide Live, PendingIds, Walk, Compacted, NextIn;
    var p := NextIn(s, PUBLISH_STATES, 0);
    FirstThenRest(s, p);
    if p < |s| && IsLive(s[|s| - 1]) {
      assert IsLive(s[p]) by { assert s[p] != FREE; }
      LeftInSlots(s, p);
      LeftInCompacted(s, p);
      var l, h, q := Live(s), |Live(s[..p])| + 1, Passed(s, p);
      PendingEmpty(l[h..q]);
      assert forall i :: h <= i < q ==> l[i] == l[h..q][i - h];
      var first, skipped, rest := [s[p].packetId], PendingIds(l[h..q]), PendingIds(l[q..]);
      assert PendingIds(s) == first + (skipped + rest) && Walk(s, 0) == first + rest;
      assert |PendingIds(s)| == 1 + |skipped| + |rest|;
      if skipped == [] {
        assert skipped + rest == rest;
      }
    }
  }

  /** The walk never finds more than there is to resend. */
  lemma {:induction false} WalkNotLonger(s: seq<Record>)
    requires |s| > 0 && FreeZeroed(s)
    ensures |Walk(s, 0)| <= |PendingIds(s)|
    ensures |Walk(s, 0)| == |PendingIds(s)| ==> Walk(s, 0) == PendingIds(s)
  {
    hide Live, PendingIds, Walk, Compacted, NextIn;
    var p := NextIn(s, PUBLISH_STATES, 0);
    FirstThenRest(s, p);
    if p < |s| && IsLive(s[|s| - 1]) {
      assert IsLive(s[p]) by { assert s[p] != FREE; }
      LeftInSlots(s, p);
      LeftInCompacted(s, p);
      var l, h, q := Live(s), |Live(s[..p])| + 1, Passed(s, p);
      var skipped, rest := PendingIds(l[h..q]), PendingIds(l[q..]);
      assert skipped == [] ==> skipped + rest == rest;
    }
  }

  /** The pending ids and the walk both start with the first pending slot. */
  lemma {:induction false} FirstThenRest(s: seq<Record>, p: nat)
    requires |s| > 0 && FreeZeroed(s) && p == NextIn(s, PUBLISH_STATES, 0)
    ensures p == |s| ==> Walk(s, 0) == PendingIds(s) == []
    ensures p < |s| ==> PendingIds(s) == [s[p].packetId] + PendingIds(s[p + 1..])
    ensures p < |s| ==> Walk(s, 0) == [s[p].packetId] + PendingIds(Roomy(s)[p + 1..])
  {
    hide Live, Roomy;
    ScanTo(s, 0, p);
    assert s[0..] == s;
    if p < |s| {
      RoomyTwice(s);
      WalkOfRoomy(Roomy(s), p + 1);
      assert s[p..][1..] == s[p + 1..];
    }
  }

  /** Two ways to be safe: a free last slot, or no free slot at all. */
  lemma {:induction false} SafeSlots(s: seq<Record>)
    requires |s| > 0 && FreeZeroed(s)
    requires !IsLive(s[|s| - 1]) || forall r :: r in s ==> IsLive(r)
    ensures Walk(s, 0) == PendingIds(s)
  {
    if IsLive(s[|s| - 1]) {
      var p := NextIn(s, PUBLISH_STATES, 0);
      assert forall i :: 0 <= i < p ==> s[..p][i] in s;
      LiveAll(s[..p]);
    }
    ResendsAllExactlyWhen(s);
  }

  const HOLED := [FREE, Record(1, QoS1, PubAckPending), Record(2, QoS1, PubAckPending)]

  lemma {:induction false} HoledList()
    ensures FreeZeroed(HOLED) && Live(HOLED) == HOLED[1..] && Live(HOLED[..1]) == []
  {
    assert HOLED == HOLED[..1] + HOLED[1..];
    LiveAppend(HOLED[..1], HOLED[1..]);
    LiveNone(HOLED[..1]);
    LiveAll(HOLED[1..]);
  }

  /** An earlier hole and a taken last slot lose a resend. */
  lemma {:induction false} HoleSkipsPublish()
    ensures FreeZeroed(HOLED) && ValidOutgoing(Live(HOLED)) && Walk(HOLED, 0) != PendingIds(HOLED)
  {
    hide Live, Walk, PendingIds, NextIn;
    HoledList();
    ResendsAllExactlyWhen(HOLED);
    var p := NextIn(HOLED, PUBLISH_STATES, 0);
    assert HOLED[1].state in PUBLISH_STATES && HOLED[0].state !in PUBLISH_STATES;
    assert p == 1;
    assert Live(HOLED)[1].state in PUBLISH_STATES;
  }

  // ---- The loop ------------------------------------------------------------------

  /** The application stores a publish with this id and this QoS. */
  predicate Agrees(table: seq<Stored>, id: PacketId, qos: QoS)
  {
    exists i :: 0 <= i < |table| && table[i].packetId == id && table[i].qos == qos
  }

  /** The first entry of an id, or the length. */
  function IndexIn(table: seq<Stored>, id: PacketId): (k: nat)
    ensures k <= |table| && (k < |table| ==> table[k].packetId == id)
    ensures forall i :: 0 <= i < k ==> table[i].packetId != id
  {
    if table == [] || table[0].packetId == id then 0 else 1 + IndexIn(table[1..], id)
  }

  /** The stored publish of an id, with its duplicate flag set. */
  function DuplicateOf(table: seq<Stored>, id: PacketId): Packet
  {
    var k := IndexIn(table, id);
    if k < |table| then PublishPacket(id, table[k].qos, table[k].message, true) else PublishPacket(id, QoS0, 0, true)
  }

  lemma {:induction false} SameIndexIn(a: seq<Stored>, b: seq<Stored>, id: PacketId)
    requires SameKeys(a, b)
    ensures IndexIn(a, id) == IndexIn(b, id)
  {
    hide IndexIn;
    var i, j := IndexIn(a, id), IndexIn(b, id);
    assert i < |a| ==> b[i].packetId == id;
    assert j < |b| ==> a[j].packetId == id;
  }

  /** The same publishes, whatever their duplicate flags. */
  predicate SameKeys(a: seq<Stored>, b: seq<Stored>)
  {
    |a| == |b| && forall i :: 0 <= i < |a| ==> a[i].(dup := b[i].dup) == b[i]
  }

  lemma {:induction false} KeysDecide(a: seq<Stored>, b: seq<Stored>, id: PacketId, qos: QoS)
    requires SameKeys(a, b)
    ensures InTable(a, id) <==> InTable(b, id)
    ensures Agrees(a, id, qos) <==> Agrees(b, id, qos)
    ensures DuplicateOf(a, id) == DuplicateOf(b, id)
  {
    assert forall i :: 0 <= i < |a| ==> a[i].packetId == b[i].packetId && a[i].qos == b[i].qos;
    assert forall i :: 0 <= i < |b| ==> b[i].packetId == a[i].packetId && b[i].qos == a[i].qos;
    assert IndexIn(a, id) == IndexIn(b, id) by { SameIndexIn(a, b, id); }
  }

  /** Same ids and QoS, record by record. */
  predicate SameKinds(a: seq<Record>, b: seq<Record>)
  {
    |a| == |b| && forall i :: 0 <= i < |a| ==> a[i].packetId == b[i].packetId && a[i].qos == b[i].qos
  }

  lemma {:induction false} KindsDecide(a: seq<Record>, b: seq<Record>, id: PacketId)
    requires SameKinds(a, b)
    ensures IndexOf(a, id) == IndexOf(b, id)
  {
    hide IndexOf;
    var i, j := IndexOf(a, id), IndexOf(b, id);
    assert i < |a| ==> b[i].packetId == id;
    assert j < |b| ==> a[j].packetId == id;
  }

  /** A duplicate of a pending publish goes through exactly when the send works and
      the stored QoS is the record's; it changes no id and no QoS. */
  lemma {:induction false} DuplicateGoesThrough(l: seq<Record>, room: nat, p: Stored, ok: bool)
    requires ValidOutgoing(l) && HasId(l, p.packetId) && p.packetId != 0 && p.qos != QoS0
    requires IndexOf(l, p.packetId) < |l| && l[IndexOf(l, p.packetId)].state in PUBLISH_STATES
    ensures var h := PublishCalled(l, room, p.packetId, p.qos, p.message, true, ok);
            && SameKinds(h.records, l)
            && (h.status == Success <==> ok && p.qos == l[IndexOf(l, p.packetId)].qos)
  {
    hide IndexOf;
  }

  /** The record of the id agrees with what the application stored for it. */
  predicate Sendable(l: seq<Record>, table: seq<Stored>, id: PacketId)
  {
    IndexOf(l, id) < |l| && Agrees(table, id, l[IndexOf(l, id)].qos)
  }

  /** The inner search of the loop: publish the stored packet with this id. */
  method ResendStored(c: Client, table: array<Stored>, id: PacketId, ok: bool) returns (found: bool, sent: bool)
    requires c.Valid() && id != 0 && ValidTable(table[..]) && HasId(c.engine.Out(), id)
    requires var l := c.engine.Out(); IndexOf(l, id) < |l| && l[IndexOf(l, id)].state in PUBLISH_STATES
    requires table as object != c.engine.outgoing && table as object != c.engine.incoming
    modifies c, c.engine.outgoing, table
    ensures c.Valid() && ValidTable(table[..]) && SameKeys(table[..], old(table[..]))
    ensures found <==> InTable(old(table[..]), id)
    ensures found ==> SameShape(c.engine.outgoing[..], Roomy(old(c.engine.outgoing[..])))
    ensures !found ==> c.engine.outgoing[..] == old(c.engine.outgoing[..])
    ensures SameKinds(c.engine.Out(), old(c.engine.Out()))
    ensures if found && ok then c.wire == old(c.wire) + [DuplicateOf(old(table[..]), id)] else c.wire == old(c.wire)
    ensures sent <==> found && ok && Sendable(old(c.engine.Out()), old(table[..]), id)
  {
    hide IndexOf, Live, Roomy, PublishCalled, ValidOutgoing, DuplicateOf;
    found, sent := false, false;
    var index := 0;
    while index < table.Length
      invariant 0 <= index <= table.Length
      invariant forall i :: 0 <= i < index ==> table[i].packetId != id
      invariant !found && !sent && unchanged(c) && unchanged(c.engine.outgoing) && unchanged(table)
    {
      if table[index].packetId == id {
        found := true;
        ghost var l, was := c.engine.Out(), table[..];
        table[index] := table[index].(dup := true);
        var p := table[index];
        assert table[..] == was[index := p];
        assert was[index].packetId == id && was[index].qos == p.qos;
        assert ValidTable(table[..]) by { StillValid(was, table[..]); }
        DuplicateGoesThrough(l, c.engine.outgoing.Length, p, ok);
        OneStored(was, index, l[IndexOf(l, id)].qos);
        EntryFound(was, index);
        DuplicateWire(l, c.engine.outgoing.Length, p, ok);
        var status := c.Publish(p.packetId, p.qos, p.message, true, ok);
        sent := status == Success;
        // no other entry has this id, so the rest of the search finds nothing
        return;
      }
      index := index + 1;
    }
  }

  lemma {:induction false} EntryFound(table: seq<Stored>, i: nat)
    requires i < |table| && forall j :: 0 <= j < i ==> table[j].packetId != table[i].packetId
    ensures var e := table[i]; DuplicateOf(table, e.packetId) == PublishPacket(e.packetId, e.qos, e.message, true)
  {
  }

  lemma {:induction false} DuplicateWire(l: seq<Record>, room: nat, p: Stored, ok: bool)
    requires HasId(l, p.packetId) && p.packetId != 0 && p.qos != QoS0
    ensures PublishCalled(l, room, p.packetId, p.qos, p.message, true, ok).wire ==
            if ok then [PublishPacket(p.packetId, p.qos, p.message, true)] else []
  {
    hide IndexOf;
  }

  lemma {:induction false} StillValid(a: seq<Stored>, b: seq<Stored>)
    requires ValidTable(a) && SameKeys(b, a)
    ensures ValidTable(b)
  {
  }

  /** The entry of an id is the only one. */
  lemma {:induction false} OneStored(table: seq<Stored>, i: nat, qos: QoS)
    requires ValidTable(table) && i < |table| && table[i].packetId != 0
    ensures InTable(table, table[i].packetId)
    ensures Agrees(table, table[i].packetId, qos) <==> table[i].qos == qos
  {
  }

  /** `w` grew by the stored publish of each id, flagged as a duplicate, in that order. */
  ghost predicate Resent(before: seq<Packet>, w: seq<Packet>, ids: seq<PacketId>, table: seq<Stored>)
  {
    && |w| == |before| + |ids| && w[..|before|] == before
    && forall i :: |before| <= i < |w| ==> w[i] == DuplicateOf(table, ids[i - |before|])
  }

  lemma {:induction false} ResentOne(before: seq<Packet>, w: seq<Packet>, ids: seq<PacketId>, id: PacketId,
                                     table: seq<Stored>)
    requires Resent(before, w, ids, table)
    ensures Resent(before, w + [DuplicateOf(table, id)], ids + [id], table)
  {
    hide DuplicateOf;
    var v := w + [DuplicateOf(table, id)];
    assert v[..|before|] == w[..|before|];
    assert forall i :: 0 <= i < |w| ==> v[i] == w[i];
  }

  /** The wire tells which ids were resent. */
  lemma {:induction false} ResentSame(before: seq<Packet>, w: seq<Packet>, a: seq<PacketId>, b: seq<PacketId>,
                                      table: seq<Stored>)
    requires Resent(before, w, a, table)
    ensures Resent(before, w, b, table) <==> a == b
  {
    if Resent(before, w, b, table) {
      forall i | 0 <= i < |a|
        ensures a[i] == b[i]
      {
        assert w[|before| + i] == DuplicateOf(table, a[i]) == DuplicateOf(table, b[i]);
      }
    }
  }

  /** The attempts whose send worked. */
  function Went(ids: seq<PacketId>, ok: nat -> bool): (r: seq<PacketId>)
    ensures |r| <= |ids|
  {
    if ids == [] then []
    else var n := |ids| - 1; Went(ids[..n], ok) + if ok(n) then [ids[n]] else []
  }

  lemma {:induction false} WentOne(ids: seq<PacketId>, id: PacketId, ok: nat -> bool)
    ensures Went(ids + [id], ok) == Went(ids, ok) + if ok(|ids|) then [id] else []
  {
    assert (ids + [id])[..|ids|] == ids;
  }

  lemma {:induction false} WentAll(ids: seq<PacketId>, ok: nat -> bool)
    ensures |Went(ids, ok)| == |ids| <==> forall n :: 0 <= n < |ids| ==> ok(n)
    ensures |Went(ids, ok)| == |ids| ==> Went(ids, ok) == ids
  {
    if ids != [] {
      var n := |ids| - 1;
      WentAll(ids[..n], ok);
      assert ids == ids[..n] + [ids[n]];
    }
  }

  /** Progress of the loop: what has been attempted and what is still ahead of
      `from` make up the whole walk. */
  ghost predicate Ahead(whole: seq<PacketId>, known: seq<Stored>, attempted: seq<PacketId>, slots: seq<Record>,
                        from: nat)
  {
    from <= |slots| && whole == attempted + Walk(slots, from) && AllInTable(attempted, known)
  }

  lemma {:induction false} AheadStep(whole: seq<PacketId>, known: seq<Stored>, attempted: seq<PacketId>,
                                     slots: seq<Record>, from: nat, k: nat, t: seq<Record>)
    requires Ahead(whole, known, attempted, slots, from) && k == NextIn(slots, PUBLISH_STATES, from) < |slots|
    ensures !InTable(known, slots[k].packetId) ==> UntilMissing(whole, known) == attempted && !AllInTable(whole, known)
    ensures InTable(known, slots[k].packetId) && SameShape(t, Roomy(slots)) ==>
              Ahead(whole, known, attempted + [slots[k].packetId], t, k + 1)
  {
    hide Walk, Roomy, NextIn, Live, UntilMissing, InTable;
    var id := slots[k].packetId;
    WalkOn(slots, from, k, Roomy(slots));
    assert Walk(slots, from)[0] == id;
    if !InTable(known, id) {
      UntilMissingIs(attempted, Walk(slots, from), known);
    } else if SameShape(t, Roomy(slots)) {
      WalkOn(slots, from, k, t);
      assert attempted + ([id] + Walk(t, k + 1)) == attempted + [id] + Walk(t, k + 1);
    }
  }

  lemma {:induction false} AheadEnd(whole: seq<PacketId>, known: seq<Stored>, attempted: seq<PacketId>,
                                    slots: seq<Record>, from: nat)
    requires Ahead(whole, known, attempted, slots, from) && NextIn(slots, PUBLISH_STATES, from) == |slots|
    ensures UntilMissing(whole, known) == attempted == whole && AllInTable(whole, known)
  {
    hide UntilMissing, InTable;
    assert Walk(slots, from) == [];
    UntilMissingIs(attempted, [], known);
    assert attempted + [] == attempted;
  }

  lemma {:induction false} AheadStart(slots: seq<Record>, known: seq<Stored>)
    ensures Ahead(Walk(slots, 0), known, [], slots, 0)
  {
    assert [] + Walk(slots, 0) == Walk(slots, 0);
  }

  lemma {:induction false} ResentNone(w: seq<Packet>, ok: nat -> bool, table: seq<Stored>)
    ensures Resent(w, w, Went([], ok), table)
  {
  }

  /** Everything attempted so far was sent and agreed. */
  ghost predicate AllSent(attempted: seq<PacketId>, l: seq<Record>, known: seq<Stored>, ok: nat -> bool)
  {
    forall i :: 0 <= i < |attempted| ==> ok(i) && Sendable(l, known, attempted[i])
  }

  lemma {:induction false} AllSentOne(attempted: seq<PacketId>, id: PacketId, l: seq<Record>, known: seq<Stored>,
                                      ok: nat -> bool)
    ensures AllSent(attempted + [id], l, known, ok) <==>
            AllSent(attempted, l, known, ok) && ok(|attempted|) && Sendable(l, known, id)
  {
    hide Sendable;
    var all := attempted + [id];
    assert all[|attempted|] == id && forall i :: 0 <= i < |attempted| ==> all[i] == attempted[i];
  }

  /** The loop meets its purpose exactly when no pending publish is skipped, each is
      in the table, and every send works. */
  lemma {:induction false} AllResentExactlyWhen(s: seq<Record>, table: seq<Stored>, ok: nat -> bool,
                                                before: seq<Packet>, w: seq<Packet>)
    requires |s| > 0 && FreeZeroed(s) && Resent(before, w, Went(UntilMissing(Walk(s, 0), table), ok), table)
    ensures var pending := PendingIds(s);
            Resent(before, w, pending, table) <==>
            NoPendingSkipped(s) && AllInTable(pending, table) && forall n :: 0 <= n < |pending| ==> ok(n)
  {
    hide Walk, PendingIds, NoPendingSkipped, Resent, UntilMissing, InTable, Went;
    var pending, walk := PendingIds(s), Walk(s, 0);
    var attempted := UntilMissing(walk, table);
    ResentSame(before, w, Went(attempted, ok), pending, table);
    ResendsAllExactlyWhen(s);
    WalkNotLonger(s);
    UntilMissingShort(walk, table);
    WentAll(attempted, ok);
  }

  lemma {:induction false} UntilMissingShort(ids: seq<PacketId>, table: seq<Stored>)
    ensures |UntilMissing(ids, table)| <= |ids|
    ensures |UntilMissing(ids, table)| == |ids| <==> AllInTable(ids, table)
    ensures AllInTable(ids, table) ==> UntilMissing(ids, table) == ids
  {
    hide InTable;
    if ids != [] {
      UntilMissingShort(ids[1..], table);
      assert forall i :: 0 < i < |ids| ==> ids[i] == ids[1..][i - 1];
      assert ids == [ids[0]] + ids[1..];
    }
  }

  /** handlePublishResend. A failed send does not end the walk; an id the
      application does not know does. `ok(n)` is the outcome of the n-th send. */
  method HandlePublishResend(c: Client, table: array<Stored>, ok: nat -> bool)
    returns (success: bool, attempted: seq<PacketId>)
    requires c.Valid() && ValidTable(table[..])
    requires table as object != c.engine.outgoing && table as object != c.engine.incoming
    modifies c, c.engine.outgoing, table
    ensures c.Valid()
    ensures attempted == UntilMissing(Walk(old(c.engine.outgoing[..]), 0), old(table[..]))
    ensures Resent(old(c.wire), c.wire, Went(attempted, ok), old(table[..]))
    ensures success <==> AllInTable(Walk(old(c.engine.outgoing[..]), 0), old(table[..]))
                         && AllSent(attempted, old(c.engine.Out()), old(table[..]), ok)
    ensures var pending := PendingIds(old(c.engine.outgoing[..]));
            Resent(old(c.wire), c.wire, pending, old(table[..])) <==>
            && NoPendingSkipped(old(c.engine.outgoing[..])) && AllInTable(pending, old(table[..]))
            && forall n :: 0 <= n < |pending| ==> ok(n)
  {
    hide Walk, UntilMissing, Live, Roomy, SameShape, Ahead, Resent, ValidTable, NextIn, Engine.Valid, Went, DuplicateOf;
    hide PendingIds, NoPendingSkipped, AllSent, AllInTable, InTable, Sendable, SameKeys, SameKinds;
    ghost var known, from, l := table[..], 0, c.engine.Out();
    ghost var slots0 := c.engine.outgoing[..];
    ghost var whole := Walk(slots0, 0);
    success, attempted := true, [];
    AheadStart(slots0, known);
    ResentNone(c.wire, ok, known);
    Alike(known, l, ok);
    assert FreeZeroed(slots0) && |slots0| > 0 by { EngineSlots(c); }
    var id, cursor := c.engine.StateSelect(PUBLISH_STATES, 0);
    while id != 0
      invariant c.Valid() && ValidTable(table[..]) && 0 <= from <= c.engine.outgoing.Length
      invariant SameKeys(table[..], known) && SameKinds(c.engine.Out(), l)
      invariant Ahead(whole, known, attempted, c.engine.outgoing[..], from)
      invariant var k := NextIn(c.engine.outgoing[..], PUBLISH_STATES, from);
                if k < c.engine.outgoing.Length then id == c.engine.outgoing[k].packetId && id != 0 && cursor == k + 1
                else id == 0
      invariant Resent(old(c.wire), c.wire, Went(attempted, ok), known)
      invariant success <==> AllSent(attempted, l, known, ok)
      decreases c.engine.outgoing.Length - from
    {
      ghost var slots, k, wire, out, keys := c.engine.outgoing[..], cursor - 1, c.wire, c.engine.Out(), table[..];
      PendingAt(c, k, from);
      SendableSame(out, l, keys, known, id);
      var found, sent := ResendStored(c, table, id, ok(|attempted|));
      AheadStep(whole, known, attempted, slots, from, k, c.engine.outgoing[..]);
      AlikeOn(table[..], keys, known, c.engine.Out(), out, l);
      if !found {
        success := false;
        AllResentExactlyWhen(slots0, known, ok, old(c.wire), c.wire);
        return;
      }
      WentOne(attempted, id, ok);
      if ok(|attempted|) {
        ResentOne(old(c.wire), wire, Went(attempted, ok), id, known);
      } else {
        assert Went(attempted, ok) + [] == Went(attempted, ok);
      }
      AllSentOne(attempted, id, l, known, ok);
      success := success && sent;
      attempted, from := attempted + [id], cursor;
      id, cursor := c.engine.StateSelect(PUBLISH_STATES, cursor);
    }
    AheadEnd(whole, known, attempted, c.engine.outgoing[..], from);
    AllResentExactlyWhen(slots0, known, ok, old(c.wire), c.wire);
  }

  lemma {:induction false} EngineSlots(c: Client)
    requires c.Valid()
    ensures FreeZeroed(c.engine.outgoing[..]) && |c.engine.outgoing[..]| > 0
  {
  }

  /** The slot the cursor stopped at holds a pending record of the list. */
  lemma {:induction false} PendingAt(c: Client, k: nat, from: nat)
    requires c.Valid() && from <= k < c.engine.outgoing.Length
    requires k == NextIn(c.engine.outgoing[..], PUBLISH_STATES, from)
    ensures var l, id := c.engine.Out(), c.engine.outgoing[k].packetId;
            HasId(l, id) && IndexOf(l, id) < |l| && l[IndexOf(l, id)].state in PUBLISH_STATES
  {
    hide Live, IndexOf;
    var s := c.engine.outgoing[..];
    assert s[k] != FREE && IsLive(s[k]);
    IdAtSlot(s, k);
    LiveHasId(s, s[k].packetId);
  }

  lemma {:induction false} SendableSame(a: seq<Record>, b: seq<Record>, s: seq<Stored>, t: seq<Stored>, id: PacketId)
    requires SameKinds(a, b) && SameKeys(s, t)
    ensures Sendable(a, s, id) <==> Sendable(b, t, id)
    ensures (InTable(s, id) <==> InTable(t, id)) && DuplicateOf(s, id) == DuplicateOf(t, id)
  {
    hide IndexOf, Agrees, InTable, DuplicateOf;
    KindsDecide(a, b, id);
    var i := IndexOf(a, id);
    if i < |a| {
      KeysDecide(s, t, id, a[i].qos);
    } else {
      KeysDecide(s, t, id, QoS1);
    }
  }

  lemma {:induction false} Alike(known: seq<Stored>, l: seq<Record>, ok: nat -> bool)
    ensures SameKeys(known, known) && SameKinds(l, l) && AllSent([], l, known, ok)
  {
  }

  lemma {:induction false} AlikeOn(a: seq<Stored>, b: seq<Stored>, c: seq<Stored>,
                                   x: seq<Record>, y: seq<Record>, z: seq<Record>)
    ensures SameKeys(a, b) && SameKeys(b, c) ==> SameKeys(a, c)
    ensures SameKinds(x, y) && SameKinds(y, z) ==> SameKinds(x, z)
  {
  }
}

/** The in-place operations of core_mqtt_state.c on one record array. Each is
    proved against the ordered list of live records. */
module RecordArray {
  import opened MqttTypes
  import opened RecordList

  /** findInRecord: the slot of `id`, or the array length. */
  method FindInRecord(records: array<Record>, id: PacketId) returns (index: nat, qos: QoS, state: PublishState)
    requires id != 0
    ensures index == IndexOf(records[..], id)
    ensures index < records.Length ==> qos == records[index].qos && state == records[index].state
    ensures index == records.Length ==> qos == QoS0 && state == StateNull
    ensures index == records.Length <==> !HasId(Live(records[..]), id)
    ensures index < records.Length ==>
              && IndexOf(Live(records[..]), id) == |Live(records[..index])| < |Live(records[..])|
              && Live(records[..])[|Live(records[..index])|] == records[index]
  {
    index, qos, state := 0, QoS0, StateNull;
    while index < records.Length && records[index].packetId != id
      invariant 0 <= index <= records.Length
      invariant forall i :: 0 <= i < index ==> records[i].packetId != id
    {
      index := index + 1;
    }
    LiveHasId(records[..], id);
    if index < records.Length {
      assert records[..][index].packetId == id;
      LiveIndex(records[..], index, id);
      qos, state := records[index].qos, records[index].state;
    }
  }

  /** What compaction leaves: the live records first, then free slots. */
  function Compacted(s: seq<Record>): (c: seq<Record>)
    ensures |c| == |s|
  {
    Live(s) + seq(|s| - |Live(s)|, _ => FREE)
  }

  lemma {:induction false} CompactedIsStable(s: seq<Record>)
    requires FreeZeroed(s)
    ensures Live(Compacted(s)) == Live(s)
    ensures FreeZeroed(Compacted(s))
    ensures |Live(s)| == |s| ==> Compacted(s) == s
  {
    var f := seq(|s| - |Live(s)|, _ => FREE);
    LiveAppend(Live(s), f);
    LiveAll(Live(s));
    LiveNone(f);
    if |Live(s)| == |s| {
      LiveFull(s);
      LiveAll(s);
    }
  }

  /** compactRecords: a stable in-place filter. */
  method CompactRecords(records: array<Record>)
    requires FreeZeroed(records[..])
    modifies records
    ensures records[..] == Compacted(old(records[..]))
  {
    ghost var was := records[..];
    var index := 0;
    var emptyIndex := -1;             // MQTT_INVALID_STATE_COUNT
    ghost var done := 0;              // length of the compacted prefix
    while index < records.Length
      invariant 0 <= done <= index <= records.Length
      invariant emptyIndex == if done < index then done else -1
      invariant records[..done] == Live(was[..index])
      invariant forall i :: done <= i < index ==> records[i] == FREE
      invariant forall i :: index <= i < records.Length ==> records[i] == was[i]
    {
      assert was[..index + 1][..index] == was[..index];
      if records[index].packetId == 0 {
        if emptyIndex == -1 {
          emptyIndex := index;
        }
        assert records[index] == FREE;
      } else {
        ghost var before := records[..done];
        if emptyIndex != -1 {
          records[emptyIndex] := records[index];
          records[index] := Record(0, QoS0, StateNull);
          emptyIndex := emptyIndex + 1;
        }
        done := done + 1;
        assert records[..done] == before + [was[index]];
      }
      index := index + 1;
    }
    assert was[..index] == was;
  }

  /** The slots addRecord searches: compacted first when the last one is taken. */
  function Roomy(s: seq<Record>): (c: seq<Record>)
    requires |s| > 0
    ensures |c| == |s|
  {
    if IsLive(s[|s| - 1]) then Compacted(s) else s
  }

  /** Slots up to k hold the whole list and slot k onwards is free. */
  lemma {:induction false} LiveTail(s: seq<Record>, k: nat)
    requires k <= |s|
    requires forall i :: k <= i < |s| ==> !IsLive(s[i])
    ensures Live(s) == Live(s[..k])
  {
    assert s == s[..k] + s[k..];
    LiveAppend(s[..k], s[k..]);
    LiveNone(s[k..]);
  }

  /** After Roomy, the last slot is taken only if every slot is. */
  lemma {:induction false} RoomyLast(s: seq<Record>)
    requires |s| > 0 && FreeZeroed(s)
    ensures FreeZeroed(Roomy(s)) && Live(Roomy(s)) == Live(s)
    ensures IsLive(Roomy(s)[|s| - 1]) <==> |Live(s)| == |s|
  {
    CompactedIsStable(s);
    LiveFull(s);
  }

  /** The backward search of addRecord: where the new record goes, or the
      array length when the id is already there or no slot is free at the end. */
  method FindAvailable(records: array<Record>, id: PacketId) returns (collision: bool, available: nat)
    requires records.Length > 0 && id != 0
    ensures collision <==> HasId(records[..], id)
    ensures available <= records.Length
    ensures collision ==> available == records.Length
    ensures !collision ==> forall i :: available <= i < records.Length ==> !IsLive(records[i])
    ensures !collision ==> available == 0 || IsLive(records[available - 1])
  {
    collision, available := false, records.Length;
    var validEntryFound := false;
    var index := records.Length - 1;
    while index >= 0
      invariant -1 <= index < records.Length
      invariant !collision
      invariant index + 1 <= available <= records.Length
      invariant !validEntryFound ==> available == index + 1
      invariant forall i :: available <= i < records.Length ==> !IsLive(records[i])
      invariant validEntryFound ==> available > 0 && IsLive(records[available - 1])
      invariant forall i :: index < i < records.Length ==> records[i].packetId != id
    {
      if records[index].packetId == 0 {
        if !validEntryFound {
          available := index;
        }
      } else {
        validEntryFound := true;
        if records[index].packetId == id {
          collision, available := true, records.Length;
          assert records[..][index].packetId == id;
          return;
        }
      }
      index := index - 1;
    }
  }

  /** Filling the first slot of the free tail appends to the list. */
  lemma {:induction false} LiveFill(s: seq<Record>, k: nat, r: Record)
    requires k < |s| && IsLive(r)
    requires forall i :: k <= i < |s| ==> !IsLive(s[i])
    ensures Live(s[k := r]) == Live(s) + [r]
  {
    LivePut(s, k, r);
    LiveNone(s[k + 1..]);
    LiveTail(s, k);
  }

  /** addRecord: collision iff the id is live, out of memory iff every slot is
      live and the id is not, otherwise the record is appended to the list. */
  method AddRecord(records: array<Record>, id: PacketId, qos: QoS, state: PublishState) returns (status: Status)
    requires records.Length > 0 && id != 0 && qos != QoS0
    requires FreeZeroed(records[..])
    modifies records
    ensures FreeZeroed(records[..])
    ensures status == Added(old(Live(records[..])), records.Length, Record(id, qos, state)).status
    ensures Live(records[..]) == Added(old(Live(records[..])), records.Length, Record(id, qos, state)).records
    ensures status == NoMemory <==>
              (forall r :: r in old(records[..]) ==> IsLive(r)) && !HasId(old(Live(records[..])), id)
    ensures status != Success ==> records[..] == Roomy(old(records[..]))
  {
    hide Live, Compacted;
    ghost var was := records[..];
    if records[records.Length - 1].packetId != 0 {
      CompactRecords(records);
    }
    ghost var roomy := records[..];
    RoomyLast(was);
    LiveFull(was);
    LiveHasId(roomy, id);
    var collision, available := FindAvailable(records, id);
    if collision {
      status := StateCollision;
    } else if available < records.Length {
      LiveFill(roomy, available, Record(id, qos, state));
      records[available] := Record(id, qos, state);
      assert records[..] == roomy[available := Record(id, qos, state)];
      status := Success;
    } else {
      status := NoMemory;
    }
  }

  lemma {:induction false} MiddleOf(a: seq<Record>, x: Record, b: seq<Record>, y: Record)
    ensures var l := a + [x] + b;
            && l[|a|] == x && Removed(l, |a|) == a + b && l[|a| := y] == a + [y] + b
  {
    var l := a + [x] + b;
    assert l[..|a|] == a;
    assert l[|a| + 1..] == b;
  }

  lemma {:induction false} LiveUpdate(s: seq<Record>, k: nat, state: PublishState)
    requires k < |s| && IsLive(s[k])
    ensures |Live(s[..k])| < |Live(s)|
    ensures Live(s[k := FREE]) == Removed(Live(s), |Live(s[..k])|)
    ensures Live(s[k := s[k].(state := state)]) == Restated(Live(s), |Live(s[..k])|, state)
  {
    var a, b, r := Live(s[..k]), Live(s[k + 1..]), s[k].(state := state);
    LivePut(s, k, FREE);
    LivePut(s, k, r);
    MiddleOf(a, s[k], b, r);
    assert a + [] + b == a + b;
  }

  /** updateRecord: delete a record, or give it a new state, in its slot. */
  method UpdateRecord(records: array<Record>, index: nat, newState: PublishState, shouldDelete: bool)
    requires index < records.Length && IsLive(records[index])
    requires FreeZeroed(records[..])
    modifies records
    ensures FreeZeroed(records[..])
    ensures records[..] ==
            old(records[..])[index := if shouldDelete then FREE else old(records[index]).(state := newState)]
    ensures |Live(old(records[..index]))| < |old(Live(records[..]))|
    ensures Live(records[..]) ==
            if shouldDelete then Removed(old(Live(records[..])), |Live(old(records[..index]))|)
            else Restated(old(Live(records[..])), |Live(old(records[..index]))|, newState)
  {
    ghost var was := records[..];
    LiveUpdate(was, index, newState);
    assert was[..index] == records[..index];
    if shouldDelete {
      records[index] := Record(0, QoS0, StateNull);
      assert records[..] == was[index := FREE];
    } else {
      records[index] := records[index].(state := newState);
      assert records[..] == was[index := was[index].(state := newState)];
    }
  }
}

/** Response lines of tcp_client_list.c: "<target>:<payload>" lines pushed on the
    FIFO, and the send task that splits a drained batch and routes each line. */
module LineRouter {
  import opened ByteSeq
  import opened Decimal
  import opened Options
  import opened ResponseFifo
  import opened TextLines

  const COLON: Byte := 58
  const RESPONSE_LINE_MAX := 256
  const TARGET_ALL: Int32 := 0
  const TARGET_EVERYONE: Int32 := -1
  const SEND_TO_ALL: Int32 := -2
  const SEND_TO_ALL_PUBLIC: Int32 := -3

  // ---- Formatting --------------------------------------------------------------------

  function TargetOf(sock: Int32): Int32
  {
    if sock == SEND_TO_ALL then TARGET_ALL else if sock == SEND_TO_ALL_PUBLIC then TARGET_EVERYONE else sock
  }

  /** %s and %.*s print up to the first NUL. */
  function Text(data: seq<Byte>): (t: seq<Byte>)
    ensures t <= data && (forall i :: 0 <= i < |t| ==> t[i] != 0) && (|t| < |data| ==> data[|t|] == 0)
  {
    data[..FirstOf(data, 0)]
  }

  /** vsnprintf into the line buffer, and the newline forced onto a cut line. */
  function Cut(text: seq<Byte>): (line: seq<Byte>)
    ensures |line| < RESPONSE_LINE_MAX
  {
    if |text| >= RESPONSE_LINE_MAX then text[..RESPONSE_LINE_MAX - 2] + [NL] else text
  }

  function Addressed(target: Int32, body: seq<Byte>): seq<Byte> { Printed(target) + [COLON] + body }

  /** The line that reaches the FIFO. */
  function Line(target: Int32, body: seq<Byte>): (line: seq<Byte>)
    ensures Whole(line)
  {
    Terminated(Cut(Addressed(target, body)))
  }

  /** What a receiver of the line gets: the body, newline-terminated, or as much
      of it as fits with its newline. */
  function Payload(target: Int32, body: seq<Byte>): (p: seq<Byte>)
  {
    var room := RESPONSE_LINE_MAX - |Printed(target)| - 1;
    if |body| >= room then body[..room - 2] + [NL] else Terminated(body)
  }

  predicate NewlineFree(body: seq<Byte>) { forall i :: 0 <= i < |body| - 1 ==> body[i] != NL }

  // ---- Routing -------------------------------------------------------------------------

  datatype Routing = Routing(target: Int32, payload: seq<Byte>)

  /** A line without a well-formed target prefix is dropped. */
  function Route(line: seq<Byte>): Option<Routing>
  {
    var sep := FirstOf(line, COLON);
    if sep == |line| || StrToL(line).1 != sep || sep == 0 then None
    else Some(Routing(StrToL(line).0, line[sep + 1..]))
  }

  /** A dropped line routes nowhere. */
  function Routes(line: seq<Byte>): seq<Routing>
  {
    match Route(line)
    case None => []
    case Some(x) => [x]
  }

  function RoutedLines(lines: seq<seq<Byte>>): (r: seq<Routing>)
  {
    if lines == [] then [] else Routes(lines[0]) + RoutedLines(lines[1..])
  }

  function Routed(batch: seq<Byte>): seq<Routing> { RoutedLines(Lines(batch)) }

  lemma {:induction false} RoutedLinesStep(lines: seq<seq<Byte>>)
    requires lines != []
    ensures RoutedLines(lines) == Routes(lines[0]) + RoutedLines(lines[1..])
  {
  }

  lemma {:induction false} RoutedLinesAppend(a: seq<seq<Byte>>, b: seq<seq<Byte>>)
    ensures RoutedLines(a + b) == RoutedLines(a) + RoutedLines(b)
  {
    hide RoutedLines, Routes;
    if a == [] {
      RoutedNone();
      assert a + b == b;
    } else {
      RoutedLinesAppend(a[1..], b);
      RoutedLinesStep(a);
      RoutedLinesStep(a + b);
      assert (a + b)[1..] == a[1..] + b;
      var first, x, y := Routes(a[0]), RoutedLines(a[1..]), RoutedLines(b);
      assert first + (x + y) == first + x + y;
    }
  }

  /** Batching does not matter: routing two batches is routing them together. */
  lemma {:induction false} BatchesCompose(a: seq<Byte>, b: seq<Byte>)
    requires Whole(a)
    ensures Routed(a + b) == Routed(a) + Routed(b)
  {
    LinesAppend(a, b);
    RoutedLinesAppend(Lines(a), Lines(b));
  }

  /** Cutting and terminating a headed text leaves the head alone. */
  lemma {:induction false} CutAfterHead(head: seq<Byte>, body: seq<Byte>)
    requires 0 < |head| <= RESPONSE_LINE_MAX - 2 && head[|head| - 1] != NL
    ensures var room := RESPONSE_LINE_MAX - |head|;
            Terminated(Cut(head + body)) == head + if |body| >= room then body[..room - 2] + [NL] else Terminated(body)
  {
    var room, text := RESPONSE_LINE_MAX - |head|, head + body;
    if |body| >= room {
      assert text[..RESPONSE_LINE_MAX - 2] == head + body[..room - 2];
    } else {
      assert body != [] ==> text[|text| - 1] == body[|body| - 1];
      assert body == [] ==> text == head;
    }
  }

  /** The prefix is never cut into, and the rest is cut to the payload. */
  lemma {:induction false} LineIs(target: Int32, body: seq<Byte>)
    ensures Line(target, body) == Addressed(target, Payload(target, body))
    ensures NewlineFree(body) ==> IsLine(Line(target, body)) && IsLine(Payload(target, body))
  {
    hide Cut, Printed, Terminated, IsLine;
    var head, p := Printed(target) + [COLON], Payload(target, body);
    CutAfterHead(head, body);
    assert Addressed(target, body) == head + body && Addressed(target, p) == head + p;
    if NewlineFree(body) {
      PayloadIsLine(target, body);
      HeadedIsLine(head, p);
    }
  }

  /** A body that fits its line arrives whole, with a newline added only if it had none
      at its end; of a longer one arrives what fills the line buffer to its last byte. */
  lemma {:induction false} PayloadMeans(target: Int32, body: seq<Byte>)
    ensures var p, line := Payload(target, body), Line(target, body);
            && p != [] && p[|p| - 1] == NL
            && (if |Printed(target)| + 1 + |body| < RESPONSE_LINE_MAX
                then body <= p && (|p| == |body| <==> body != [] && body[|body| - 1] == NL) && |p| <= |body| + 1
                else p[..|p| - 1] <= body && |line| == RESPONSE_LINE_MAX - 1)
  {
    hide Printed, Line;
    LineIs(target, body);
  }

  lemma {:induction false} PayloadIsLine(target: Int32, body: seq<Byte>)
    requires NewlineFree(body)
    ensures IsLine(Payload(target, body))
  {
    hide Printed;
    var p := Payload(target, body);
    assert forall i :: 0 <= i < |p| - 1 && i < |body| ==> p[i] == body[i];
  }

  lemma {:induction false} HeadedIsLine(head: seq<Byte>, p: seq<Byte>)
    requires IsLine(p) && forall i :: 0 <= i < |head| ==> head[i] != NL
    ensures IsLine(head + p)
  {
    assert forall i :: 0 <= i < |head + p| ==> (head + p)[i] == if i < |head| then head[i] else p[i - |head|];
  }

  /** The send task reads back the target and payload of an addressed line. */
  lemma {:induction false} RouteInverts(target: Int32, p: seq<Byte>)
    ensures Route(Addressed(target, p)) == Some(Routing(target, p))
  {
    hide Printed, StrToL;
    var line, t := Addressed(target, p), Printed(target);
    assert line == t + ([COLON] + p);
    ReadsPrinted(target, [COLON] + p);
    assert line[|t|] == COLON;
    assert forall i :: 0 <= i < |t| ==> line[i] == t[i];
    assert FirstOf(line, COLON) == |t|;
    assert line[|t| + 1..] == p;
  }

  /** A pushed line comes out as its target and payload exactly when the payload
      has no newline before its end: a longer one is split. */
  lemma {:induction false} RecoveredExactlyWhen(target: Int32, body: seq<Byte>)
    ensures var p := Payload(target, body); Routed(Line(target, body)) == [Routing(target, p)] <==> IsLine(p)
  {
    hide Payload, Line, Route, Lines, RoutedLines, LineEnd, Printed;
    var line, p, head := Line(target, body), Payload(target, body), Printed(target) + [COLON];
    LineIs(target, body);
    assert p != [] by { LastIsNewline(head, p); }
    HeadedLine(head, p);
    var n := LineEnd(line);
    LinesStep(line, n);
    assert line[..n] == Addressed(target, p[..n - |head|]);
    RouteInverts(target, p[..n - |head|]);
    RoutedCons(line[..n], Routing(target, p[..n - |head|]), Lines(line[n..]));
    assert Routed(line)[0] == Routing(target, p[..n - |head|]);
    assert n < |line| ==> |Routed(line)[0].payload| < |p|;
    if n == |line| {
      assert line[n..] == [] && p[..n - |head|] == p;
      LinesNone();
      RoutedNone();
    }
  }

  lemma {:induction false} LastIsNewline(head: seq<Byte>, p: seq<Byte>)
    requires Whole(head + p) && head != [] && head[|head| - 1] != NL
    ensures p != [] && Whole(p)
  {
    assert p == [] ==> head + p == head;
    assert p != [] ==> (head + p)[|head + p| - 1] == p[|p| - 1];
  }

  /** The first line of head + p ends where the first line of p does. */
  lemma {:induction false} HeadedLine(head: seq<Byte>, p: seq<Byte>)
    requires Whole(head + p) && head != [] && forall i :: 0 <= i < |head| ==> head[i] != NL
    ensures LineEnd(head + p) > |head| && (LineEnd(head + p) == |head + p| <==> IsLine(p))
  {
    var line := head + p;
    var n := LineEnd(line);
    LastIsNewline(head, p);
    assert forall i :: 0 <= i < |head| ==> line[i] == head[i];
    assert forall i :: 0 <= i < |p| ==> line[|head| + i] == p[i];
  }

  datatype Message = Message(target: Int32, body: seq<Byte>)

  function Pushes(ms: seq<Message>): (v: seq<seq<Byte>>)
    ensures |v| == |ms|
  {
    seq(|ms|, i requires 0 <= i < |ms| => Line(ms[i].target, ms[i].body))
  }

  function Arrivals(ms: seq<Message>): (v: seq<Routing>)
    ensures |v| == |ms|
  {
    seq(|ms|, i requires 0 <= i < |ms| => Routing(ms[i].target, Payload(ms[i].target, ms[i].body)))
  }

  /** Any messages whose bodies have no newline inside: routing the bytes of their
      lines gives every target with its payload, in push order. */
  lemma {:induction false} RecoversAll(ms: seq<Message>)
    requires forall i :: 0 <= i < |ms| ==> NewlineFree(ms[i].body)
    ensures Routed(Flat(Pushes(ms))) == Arrivals(ms)
  {
    hide Lines, Flat, Line, RoutedLines;
    forall i | 0 <= i < |ms|
      ensures IsLine(Pushes(ms)[i])
    {
      LineIs(ms[i].target, ms[i].body);
    }
    LinesOfFlat(Pushes(ms));
    RoutedPushes(ms);
  }

  lemma {:induction false} RoutedCons(line: seq<Byte>, x: Routing, rest: seq<seq<Byte>>)
    requires Route(line) == Some(x)
    ensures RoutedLines([line] + rest) == [x] + RoutedLines(rest)
  {
    assert ([line] + rest)[1..] == rest;
  }

  lemma {:induction false} RoutedNone()
    ensures RoutedLines([]) == []
  {
  }

  lemma {:induction false} RoutedPushes(ms: seq<Message>)
    ensures RoutedLines(Pushes(ms)) == Arrivals(ms)
  {
    hide Line, Payload, Route, RoutedLines;
    if ms == [] {
      RoutedNone();
    } else {
      var m := ms[0];
      var x := Routing(m.target, Payload(m.target, m.body));
      LineIs(m.target, m.body);
      RouteInverts(m.target, Payload(m.target, m.body));
      RoutedPushes(ms[1..]);
      RoutedCons(Line(m.target, m.body), x, Pushes(ms[1..]));
      assert Pushes(ms) == [Line(m.target, m.body)] + Pushes(ms[1..]);
      assert Arrivals(ms) == [x] + Arrivals(ms[1..]);
    }
  }

  // ---- Delivery --------------------------------------------------------------------

  datatype Send = Send(sock: int, payload: seq<Byte>)

  /** A broadcast to all skips the sockets that may not have it. */
  function Broadcast(clients: seq<int>, target: Int32, payload: seq<Byte>, allowed: int -> bool): (r: seq<Send>)
  {
    if clients == [] then []
    else
      var rest := Broadcast(clients[1..], target, payload, allowed);
      if target == TARGET_ALL && !allowed(clients[0]) then rest else [Send(clients[0], payload)] + rest
  }

  function Delivered(x: Routing, clients: seq<int>, allowed: int -> bool): seq<Send>
  {
    if x.target == TARGET_ALL || x.target == TARGET_EVERYONE then Broadcast(clients, x.target, x.payload, allowed)
    else if x.target in clients then [Send(x.target, x.payload)]
    else []
  }

  function DeliveredAll(xs: seq<Routing>, clients: seq<int>, allowed: int -> bool): seq<Send>
  {
    if xs == [] then [] else Delivered(xs[0], clients, allowed) + DeliveredAll(xs[1..], clients, allowed)
  }

  /** What one socket receives, in order. */
  function Inbox(log: seq<Send>, sock: int): seq<seq<Byte>>
  {
    if log == [] then []
    else (if log[0].sock == sock then [log[0].payload] else []) + Inbox(log[1..], sock)
  }

  predicate IsFor(target: Int32, sock: int, allowed: int -> bool)
  {
    if target == TARGET_ALL then allowed(sock) else target == TARGET_EVERYONE || target == sock
  }

  /** The payloads meant for one socket, in order. */
  function MeantFor(xs: seq<Routing>, sock: int, allowed: int -> bool): seq<seq<Byte>>
  {
    if xs == [] then []
    else (if IsFor(xs[0].target, sock, allowed) then [xs[0].payload] else []) + MeantFor(xs[1..], sock, allowed)
  }

  predicate DistinctSocks(clients: seq<int>)
  {
    forall i, j :: 0 <= i < j < |clients| ==> clients[i] != clients[j]
  }

  lemma {:induction false} InboxAppend(a: seq<Send>, b: seq<Send>, sock: int)
    ensures Inbox(a + b, sock) == Inbox(a, sock) + Inbox(b, sock)
  {
    if a == [] {
      assert a + b == b;
    } else {
      InboxAppend(a[1..], b, sock);
      assert (a + b)[1..] == a[1..] + b;
      var first := if a[0].sock == sock then [a[0].payload] else [];
      assert first + (Inbox(a[1..], sock) + Inbox(b, sock)) == first + Inbox(a[1..], sock) + Inbox(b, sock);
    }
  }

  lemma {:induction false} BroadcastInbox(clients: seq<int>, target: Int32, payload: seq<Byte>, allowed: int -> bool,
                                          sock: int)
    requires DistinctSocks(clients)
    ensures Inbox(Broadcast(clients, target, payload, allowed), sock) ==
            if sock in clients && (target == TARGET_ALL ==> allowed(sock)) then [payload] else []
  {
    if clients != [] {
      BroadcastInbox(clients[1..], target, payload, allowed, sock);
      assert clients[0] !in clients[1..];
      assert sock in clients <==> sock == clients[0] || sock in clients[1..];
      var rest := Broadcast(clients[1..], target, payload, allowed);
      InboxAppend([Send(clients[0], payload)], rest, sock);
    }
  }

  /** Every connected socket receives exactly the payloads meant for it, each once,
      in order; a socket that is not connected receives nothing. */
  lemma {:induction false} InboxIsMeant(xs: seq<Routing>, clients: seq<int>, allowed: int -> bool, sock: int)
    requires DistinctSocks(clients)
    ensures Inbox(DeliveredAll(xs, clients, allowed), sock) ==
            if sock in clients then MeantFor(xs, sock, allowed) else []
  {
    if xs != [] {
      var first := Delivered(xs[0], clients, allowed);
      InboxIsMeant(xs[1..], clients, allowed, sock);
      InboxAppend(first, DeliveredAll(xs[1..], clients, allowed), sock);
      BroadcastInbox(clients, xs[0].target, xs[0].payload, allowed, sock);
    }
  }

  /** Who gets what was sent to `sock`: for SEND_TO_ALL the clients that may have it, for
      SEND_TO_ALL_PUBLIC every client, otherwise the client on that socket; each once.
      The numbers 0 and -1 broadcast too, as the prefixes of the two. */
  lemma {:induction false} Audience(sock: Int32, payload: seq<Byte>, clients: seq<int>, allowed: int -> bool, x: int)
    requires DistinctSocks(clients)
    ensures Inbox(Delivered(Routing(TargetOf(sock), payload), clients, allowed), x) ==
            if x in clients && (if sock == SEND_TO_ALL || sock == 0 then allowed(x)
                                else sock == SEND_TO_ALL_PUBLIC || sock == -1 || sock == x)
            then [payload] else []
  {
    hide Broadcast;
    BroadcastInbox(clients, TargetOf(sock), payload, allowed, x);
  }

  // ---- From push to socket ----------------------------------------------------------

  /** The send task routes one drained batch at a time. */
  function RoutedBatches(batches: seq<seq<Byte>>): seq<Routing>
  {
    if batches == [] then [] else Routed(batches[0]) + RoutedBatches(batches[1..])
  }

  lemma {:induction false} RoutedBatchesAre(batches: seq<seq<Byte>>)
    requires AllWhole(batches)
    ensures RoutedBatches(batches) == Routed(Flat(batches))
  {
    if batches == [] {
      LinesNone();
      RoutedNone();
    } else {
      hide Routed;
      RoutedBatchesAre(batches[1..]);
      BatchesCompose(batches[0], Flat(batches[1..]));
    }
  }

  /** What producers and the send task do: push a message, or drain the FIFO. */
  datatype Turn = Say(message: Message) | Flush

  function OpOf(turn: Turn): Op
  {
    match turn
    case Say(m) => Push(Cut(Addressed(m.target, m.body)))
    case Flush => Drain(RESPONSE_FIFO_SIZE)
  }

  function OpsOf(turns: seq<Turn>): (ops: seq<Op>)
    ensures |ops| == |turns| && FullDrains(ops)
  {
    if turns == [] then [] else [OpOf(turns[0])] + OpsOf(turns[1..])
  }

  predicate AllNewlineFree(turns: seq<Turn>)
  {
    forall i :: 0 <= i < |turns| ==> turns[i].Say? ==> NewlineFree(turns[i].message.body)
  }

  /** The messages whose push the FIFO takes. */
  function Accepted(l: Ledger, turns: seq<Turn>, onFull: OnFull): (ms: seq<Message>)
    requires |l.content| <= RESPONSE_FIFO_SIZE
    decreases |turns|
  {
    if turns == [] then []
    else
      var op := OpOf(turns[0]);
      (if op.Push? && Pushed(l.content, op.data, onFull).0 then [turns[0].message] else [])
      + Accepted(Apply(l, op, onFull), turns[1..], onFull)
  }

  lemma {:induction false} PushesAppend(a: seq<Message>, b: seq<Message>)
    ensures Pushes(a + b) == Pushes(a) + Pushes(b)
  {
    hide Line;
  }

  lemma {:induction false} TakenAre(l: Ledger, before: seq<Message>, turns: seq<Turn>, onFull: OnFull)
    requires |l.content| <= RESPONSE_FIFO_SIZE && l.taken == Pushes(before)
    ensures ApplyAll(l, OpsOf(turns), onFull).taken == Pushes(before + Accepted(l, turns, onFull))
    decreases |turns|
  {
    hide Pushed, Pushes, Cut, Addressed, Terminated;
    if turns == [] {
      assert before + [] == before;
    } else {
      var op, t := OpOf(turns[0]), turns[0];
      var m := Apply(l, op, onFull);
      var first := if op.Push? && Pushed(l.content, op.data, onFull).0 then [t.message] else [];
      var rest := Accepted(m, turns[1..], onFull);
      if first != [] {
        OnePush(t.message);
        PushesAppend(before, first);
      } else {
        assert before + first == before;
      }
      TakenAre(m, before + first, turns[1..], onFull);
      assert before + first + rest == before + (first + rest);
      assert OpsOf(turns)[1..] == OpsOf(turns[1..]);
    }
  }

  lemma {:induction false} OnePush(m: Message)
    ensures Pushes([m]) == [Terminated(Cut(Addressed(m.target, m.body)))]
  {
  }

  lemma {:induction false} AcceptedFree(l: Ledger, turns: seq<Turn>, onFull: OnFull)
    requires |l.content| <= RESPONSE_FIFO_SIZE && AllNewlineFree(turns)
    ensures forall i :: 0 <= i < |Accepted(l, turns, onFull)| ==> NewlineFree(Accepted(l, turns, onFull)[i].body)
    decreases |turns|
  {
    hide Pushed, NewlineFree, Cut, Addressed;
    if turns != [] {
      AcceptedFree(Apply(l, OpOf(turns[0]), onFull), turns[1..], onFull);
    }
  }

  /** In the drop-new setting, over any messages with newline-free bodies and any
      drains: routing batch by batch, and then what is still buffered, gives
      exactly the messages whose push was taken, in order. */
  lemma {:induction false} EndToEnd(turns: seq<Turn>)
    requires AllNewlineFree(turns)
    ensures var r := ApplyAll(EMPTY_LEDGER, OpsOf(turns), DropNew);
            RoutedBatches(r.batches) + Routed(r.content) == Arrivals(Accepted(EMPTY_LEDGER, turns, DropNew))
  {
    hide Routed, ApplyAll, Arrivals, Accepted, RoutedBatches, AllWhole, NewlineFree, Flat;
    var ops, ms := OpsOf(turns), Accepted(EMPTY_LEDGER, turns, DropNew);
    var r := ApplyAll(EMPTY_LEDGER, ops, DropNew);
    StartsBalanced();
    BytesConserved(EMPTY_LEDGER, ops);
    BatchesWhole(EMPTY_LEDGER, ops, DropNew);
    RoutedBatchesAre(r.batches);
    FlatWhole(r.batches);
    BatchesCompose(Flat(r.batches), r.content);
    TakenAre(EMPTY_LEDGER, [], turns, DropNew);
    assert [] + ms == ms;
    AcceptedFree(EMPTY_LEDGER, turns, DropNew);
    RecoversAll(ms);
  }

  lemma {:induction false} StartsBalanced()
    ensures Balanced(EMPTY_LEDGER) && InLines(EMPTY_LEDGER) && Accounted(EMPTY_LEDGER, [])
  {
  }

  lemma {:induction false} RoutedThinned(a: seq<seq<Byte>>, b: seq<seq<Byte>>)
    requires Thinned(a, b)
    ensures Thinned(RoutedLines(a), RoutedLines(b))
    decreases |b|
  {
    hide RoutedLines;
    if a == [] {
      RoutedNone();
    } else {
      var init, last := b[..|b| - 1], b[|b| - 1..];
      assert b == init + last;
      RoutedLinesAppend(init, last);
      if Thinned(a, init) {
        RoutedThinned(a, init);
        ThinnedLonger(RoutedLines(a), RoutedLines(init), RoutedLines(last));
      } else {
        var c := a[..|a| - 1];
        assert a == c + last;
        RoutedThinned(c, init);
        RoutedLinesAppend(c, last);
        ThinnedLonger(RoutedLines(c), RoutedLines(init), RoutedLines(last));
      }
    }
  }

  /** The same in the overwrite-oldest setting, with some of the messages lost. */
  lemma {:induction false} EndToEndThinned(turns: seq<Turn>)
    requires AllNewlineFree(turns)
    ensures var r := ApplyAll(EMPTY_LEDGER, OpsOf(turns), OverwriteOldest);
            Thinned(RoutedBatches(r.batches) + Routed(r.content),
                    Arrivals(Accepted(EMPTY_LEDGER, turns, OverwriteOldest)))
  {
    hide ApplyAll, Arrivals, Accepted, RoutedBatches, AllWhole, NewlineFree, Flat, Lines, RoutedLines, Thinned, Pushes;
    var ops, ms := OpsOf(turns), Accepted(EMPTY_LEDGER, turns, OverwriteOldest);
    var r := ApplyAll(EMPTY_LEDGER, ops, OverwriteOldest);
    StartsBalanced();
    var p := OldestLost(EMPTY_LEDGER, [], ops);
    TakenAre(EMPTY_LEDGER, [], turns, OverwriteOldest);
    assert [] + ms == ms;
    AcceptedFree(EMPTY_LEDGER, turns, OverwriteOldest);
    RecoversAll(ms);
    RoutedBatchesAre(r.batches);
    BatchesCompose(p, r.content);
    var out, c := Lines(Flat(r.batches)), Lines(r.content);
    RoutedThinned(out, Lines(p));
    ThinnedLonger(RoutedLines(out), RoutedLines(Lines(p)), RoutedLines(c));
  }

  /** One batch after another goes to the sockets connected when it is routed. */
  function DeliveredBatches(batches: seq<seq<Byte>>, clients: seq<seq<int>>, allowed: int -> bool): seq<Send>
    requires |batches| == |clients|
  {
    if batches == [] then []
    else DeliveredAll(Routed(batches[0]), clients[0], allowed) + DeliveredBatches(batches[1..], clients[1..], allowed)
  }

  /** The socket is connected throughout, once. */
  predicate Stays(clients: seq<seq<int>>, sock: int)
  {
    forall i :: 0 <= i < |clients| ==> DistinctSocks(clients[i]) && sock in clients[i]
  }

  lemma {:induction false} MeantForAppend(a: seq<Routing>, b: seq<Routing>, sock: int, allowed: int -> bool)
    ensures MeantFor(a + b, sock, allowed) == MeantFor(a, sock, allowed) + MeantFor(b, sock, allowed)
  {
    if a == [] {
      assert a + b == b;
    } else {
      MeantForAppend(a[1..], b, sock, allowed);
      assert (a + b)[1..] == a[1..] + b;
      var first := if IsFor(a[0].target, sock, allowed) then [a[0].payload] else [];
      var x, y := MeantFor(a[1..], sock, allowed), MeantFor(b, sock, allowed);
      assert first + (x + y) == first + x + y;
    }
  }

  lemma {:induction false} BatchInbox(batches: seq<seq<Byte>>, clients: seq<seq<int>>, allowed: int -> bool, sock: int)
    requires |batches| == |clients| && Stays(clients, sock)
    ensures Inbox(DeliveredBatches(batches, clients, allowed), sock) == MeantFor(RoutedBatches(batches), sock, allowed)
  {
    if batches != [] {
      hide Routed, DeliveredAll, MeantFor, Inbox, DistinctSocks;
      var first, rest := Routed(batches[0]), RoutedBatches(batches[1..]);
      BatchInbox(batches[1..], clients[1..], allowed, sock);
      InboxIsMeant(first, clients[0], allowed, sock);
      InboxAppend(
        DeliveredAll(first, clients[0], allowed), DeliveredBatches(batches[1..], clients[1..], allowed), sock);
      MeantForAppend(first, rest, sock, allowed);
    }
  }

  /** A socket connected throughout receives, in the drop-new setting, exactly the
      payloads of the taken messages meant for it, in order, the last of them
      still buffered. */
  lemma {:induction false} EndToSocket(turns: seq<Turn>, clients: seq<seq<int>>, allowed: int -> bool, sock: int)
    requires AllNewlineFree(turns)
    requires var r := ApplyAll(EMPTY_LEDGER, OpsOf(turns), DropNew); |r.batches| == |clients| && Stays(clients, sock)
    ensures var r := ApplyAll(EMPTY_LEDGER, OpsOf(turns), DropNew);
            Inbox(DeliveredBatches(r.batches, clients, allowed), sock) + MeantFor(Routed(r.content), sock, allowed)
            == MeantFor(Arrivals(Accepted(EMPTY_LEDGER, turns, DropNew)), sock, allowed)
  {
    hide Routed, ApplyAll, Arrivals, Accepted, RoutedBatches, MeantFor, Inbox, AllNewlineFree;
    var r := ApplyAll(EMPTY_LEDGER, OpsOf(turns), DropNew);
    EndToEnd(turns);
    BatchInbox(r.batches, clients, allowed, sock);
    MeantForAppend(RoutedBatches(r.batches), Routed(r.content), sock, allowed);
  }

  lemma {:induction false} MeantForThinned(a: seq<Routing>, b: seq<Routing>, sock: int, allowed: int -> bool)
    requires Thinned(a, b)
    ensures Thinned(MeantFor(a, sock, allowed), MeantFor(b, sock, allowed))
    decreases |b|
  {
    if a != [] {
      hide MeantFor;
      var init, last := b[..|b| - 1], b[|b| - 1..];
      var tail := MeantFor(last, sock, allowed);
      assert b == init + last;
      MeantForAppend(init, last, sock, allowed);
      if Thinned(a, init) {
        MeantForThinned(a, init, sock, allowed);
        ThinnedLonger(MeantFor(a, sock, allowed), MeantFor(init, sock, allowed), tail);
      } else {
        var c := a[..|a| - 1];
        assert a == c + last;
        MeantForThinned(c, init, sock, allowed);
        MeantForAppend(c, last, sock, allowed);
        ThinnedLonger(MeantFor(c, sock, allowed), MeantFor(init, sock, allowed), tail);
      }
    }
  }

  /** In the overwrite-oldest setting it may miss some of them, but gets nothing
      twice, out of order or meant for another. */
  lemma {:induction false} EndToSocketThinned(turns: seq<Turn>, clients: seq<seq<int>>, allowed: int -> bool, sock: int)
    requires AllNewlineFree(turns)
    requires var r := ApplyAll(EMPTY_LEDGER, OpsOf(turns), OverwriteOldest);
             |r.batches| == |clients| && Stays(clients, sock)
    ensures var r := ApplyAll(EMPTY_LEDGER, OpsOf(turns), OverwriteOldest);
            Thinned(
              Inbox(DeliveredBatches(r.batches, clients, allowed), sock) + MeantFor(Routed(r.content), sock, allowed),
              MeantFor(Arrivals(Accepted(EMPTY_LEDGER, turns, OverwriteOldest)), sock, allowed))
  {
    hide Routed, ApplyAll, Arrivals, Accepted, RoutedBatches, MeantFor, Inbox, AllNewlineFree, Thinned;
    var r := ApplyAll(EMPTY_LEDGER, OpsOf(turns), OverwriteOldest);
    var ms := Accepted(EMPTY_LEDGER, turns, OverwriteOldest);
    EndToEndThinned(turns);
    BatchInbox(r.batches, clients, allowed, sock);
    MeantForAppend(RoutedBatches(r.batches), Routed(r.content), sock, allowed);
    MeantForThinned(RoutedBatches(r.batches) + Routed(r.content), Arrivals(ms), sock, allowed);
  }

  // ---- The send task ------------------------------------------------------------------

  method BroadcastTo(clients: seq<int>, target: Int32, payload: seq<Byte>, allowed: int -> bool)
    returns (log: seq<Send>)
    ensures log == Broadcast(clients, target, payload, allowed)
  {
    log := [];
    var i := 0;
    while i < |clients|
      invariant 0 <= i <= |clients|
      invariant log + Broadcast(clients[i..], target, payload, allowed) == Broadcast(clients, target, payload, allowed)
    {
      assert clients[i..][1..] == clients[i + 1..];
      if target != TARGET_ALL || allowed(clients[i]) {
        log := log + [Send(clients[i], payload)];
      }
      i := i + 1;
    }
  }

  method Deliver(x: Routing, clients: seq<int>, allowed: int -> bool) returns (sent: seq<Send>)
    ensures sent == Delivered(x, clients, allowed)
  {
    hide Broadcast;
    sent := [];
    if x.target == TARGET_ALL || x.target == TARGET_EVERYONE {
      sent := BroadcastTo(clients, x.target, x.payload, allowed);
    } else if x.target in clients {
      sent := [Send(x.target, x.payload)];
    }
  }

  /** tcp_response_send_task on one drained batch. */
  method SendTask(staging: seq<Byte>, clients: seq<int>, allowed: int -> bool) returns (log: seq<Send>)
    ensures log == DeliveredAll(Routed(staging), clients, allowed)
  {
    hide Lines, RoutedLines, Delivered, DeliveredAll, StrToL, LineEnd, FirstOf;
    log := [];
    var line := 0;
    while line < |staging|
      invariant 0 <= line <= |staging|
      invariant log + DeliveredAll(Routed(staging[line..]), clients, allowed) ==
                DeliveredAll(Routed(staging), clients, allowed)
    {
      ghost var rest := staging[line..];
      var nl := Find(staging, NL, line, |staging|);
      var lineEnd := if nl < |staging| then nl + 1 else nl;
      assert staging[line..|staging|] == rest;
      LineEndFound(rest);
      var sep := Find(staging, COLON, line, lineEnd);
      var text := staging[line..lineEnd];
      RoutedStep(staging, line, lineEnd);
      var (target, end) := StrToL(text);
      if sep < lineEnd && line + end == sep && sep != line {
        var payload := staging[sep + 1..lineEnd];
        assert text[sep - line + 1..] == payload;
        var x := Routing(target, payload);
        assert Route(text) == Some(x);
        DeliveredStep(x, Routed(staging[lineEnd..]), clients, allowed);
        var sent := Deliver(x, clients, allowed);
        ghost var after := DeliveredAll(Routed(staging[lineEnd..]), clients, allowed);
        assert log + (sent + after) == log + sent + after;
        log := log + sent;
      } else {
        assert Route(text) == None;
        assert [] + Routed(staging[lineEnd..]) == Routed(staging[lineEnd..]);
      }
      line := lineEnd;
    }
    Finished(staging, clients, allowed);
  }

  lemma {:induction false} Finished(s: seq<Byte>, clients: seq<int>, allowed: int -> bool)
    ensures DeliveredAll(Routed(s[|s|..]), clients, allowed) == []
  {
  }

  lemma {:induction false} LineEndFound(s: seq<Byte>)
    requires s != []
    ensures LineEnd(s) == if FirstOf(s, NL) < |s| then FirstOf(s, NL) + 1 else |s|
  {
    var n, m := LineEnd(s), FirstOf(s, NL);
    assert m < |s| ==> s[m] == NL;
    assert n < |s| ==> s[n - 1] == NL;
  }

  lemma {:induction false} RoutedStep(s: seq<Byte>, line: nat, end: nat)
    requires line < |s| && end == line + LineEnd(s[line..])
    ensures Routed(s[line..]) == Routes(s[line..end]) + Routed(s[end..])
  {
    hide LineEnd, Routes;
    var r := s[line..];
    LinesStep(r, end - line);
    assert r[..end - line] == s[line..end] && r[end - line..] == s[end..];
    assert Lines(r)[1..] == Lines(s[end..]);
  }

  lemma {:induction false} DeliveredStep(x: Routing, rest: seq<Routing>, clients: seq<int>, allowed: int -> bool)
    ensures DeliveredAll([x] + rest, clients, allowed) ==
            Delivered(x, clients, allowed) + DeliveredAll(rest, clients, allowed)
  {
    assert ([x] + rest)[1..] == rest;
  }

  // ---- The producers ----------------------------------------------------------------------

  class Responses {
    const tcp: Fifo
    const mqtt: Fifo
    var responseId: Int32

    ghost predicate Valid()
      reads this, tcp, tcp.buf, mqtt, mqtt.buf
    {
      tcp != mqtt && tcp.buf != mqtt.buf && tcp.Valid() && mqtt.Valid() && 10 <= responseId < 255
    }

    ghost function TcpAfter(text: seq<Byte>): seq<Byte>
      requires Valid()
      reads this, tcp, tcp.buf, mqtt, mqtt.buf
    {
      Pushed(tcp.Content(), Cut(text), tcp.onFull).1
    }

    ghost function MqttAfter(text: seq<Byte>): seq<Byte>
      requires Valid()
      reads this, tcp, tcp.buf, mqtt, mqtt.buf
    {
      Pushed(mqtt.Content(), text, mqtt.onFull).1
    }

    constructor (onFull: OnFull)
      ensures Valid() && fresh(tcp) && fresh(tcp.buf) && fresh(mqtt) && fresh(mqtt.buf)
      ensures tcp.Content() == [] && mqtt.Content() == []
    {
      tcp := new Fifo(onFull);
      mqtt := new Fifo(onFull);
      responseId := 10;
    }

    /** update_response_id: round the ids 10 to 254. */
    method NextId() returns (id: Int32)
      requires Valid()
      modifies this
      ensures Valid() && id == responseId && id == if old(responseId) == 254 then 10 else old(responseId) + 1
    {
      responseId := responseId + 1;
      if responseId >= 255 {
        responseId := 10;
      }
      return responseId;
    }

    method PushTcpLine(text: seq<Byte>) returns (line: seq<Byte>)
      requires Valid()
      modifies tcp, tcp.buf
      ensures Valid() && line == Cut(text) && tcp.Content() == old(TcpAfter(text))
      ensures mqtt.Content() == old(mqtt.Content())
    {
      hide Pushed;
      line := text;
      if |text| >= RESPONSE_LINE_MAX {
        line := text[..RESPONSE_LINE_MAX - 1];
        line := line[|line| - 1 := NL];
        assert line == Cut(text);
      }
      var _ := tcp.Push(line);
    }

    method SendRaw(sock: Int32, text: seq<Byte>)
      requires Valid()
      modifies tcp, tcp.buf
      ensures Valid() && mqtt.Content() == old(mqtt.Content())
      ensures tcp.Content() == old(TcpAfter(Addressed(sock, Text(text) + [NL])))
    {
      hide Pushed;
      var _ := PushTcpLine(Printed(sock) + [COLON] + (Text(text) + [NL]));
    }

    /** Broadcasts are mirrored to MQTT without the target prefix. */
    method SendData(sock: Int32, data: seq<Byte>, remote: bool)
      requires Valid()
      modifies this, tcp, tcp.buf, mqtt, mqtt.buf
      ensures Valid()
      ensures var body := Printed(responseId) + [COLON] + Text(data);
              && tcp.Content() == old(TcpAfter(Addressed(TargetOf(sock), body)))
              && mqtt.Content() == if remote && (sock == SEND_TO_ALL || sock == SEND_TO_ALL_PUBLIC)
                   then old(MqttAfter(Payload(TargetOf(sock), body)))
                   else old(mqtt.Content())
    {
      hide Pushed, Payload, FirstOf, Cut, Printed, Terminated;
      var target := TargetOf(sock);
      var id := NextId();
      var body := Printed(id) + [COLON] + Text(data);
      var line := PushTcpLine(Printed(target) + [COLON] + body);
      if remote && (sock == SEND_TO_ALL || sock == SEND_TO_ALL_PUBLIC) {
        var sep := Find(line, COLON, 0, |line|);
        assert line[0..|line|] == line;
        MirrorIs(target, body);
        PushedAlike(mqtt.Content(), line[sep + 1..], Payload(target, body), mqtt.onFull);
        var _ := mqtt.Push(line[sep + 1..]);
      }
    }
  }

  /** The text after the first ':' is pushed as the payload the sockets get. */
  lemma {:induction false} MirrorIs(target: Int32, body: seq<Byte>)
    ensures var line := Cut(Addressed(target, body));
            FirstOf(line, COLON) < |line| && Terminated(line[FirstOf(line, COLON) + 1..]) == Payload(target, body)
  {
    hide Printed, Payload, FirstOf, Terminated;
    var line, t := Cut(Addressed(target, body)), Printed(target);
    assert line[|t|] == COLON && forall i :: 0 <= i < |t| ==> line[i] == t[i];
    FirstIs(line, COLON, |t|);
    LineIs(target, body);
    TailTerminated(line, |t| + 1);
    AfterHead(t + [COLON], Payload(target, body));
  }

  lemma {:induction false} AfterHead(head: seq<Byte>, p: seq<Byte>)
    ensures (head + p)[|head|..] == p
  {
  }

  lemma {:induction false} TailTerminated(line: seq<Byte>, n: nat)
    requires 0 < n <= |line| && line[n - 1] != NL
    ensures Terminated(line[n..]) == Terminated(line)[n..]
  {
  }

  lemma {:induction false} PushedAlike(content: seq<Byte>, a: seq<Byte>, b: seq<Byte>, onFull: OnFull)
    requires |content| <= RESPONSE_FIFO_SIZE && Terminated(a) == b
    ensures Pushed(content, a, onFull) == Pushed(content, b, onFull)
  {
  }
}

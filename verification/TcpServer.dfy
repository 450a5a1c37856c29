/** The server object: its tables and methods. A round of the loop is shown to be a run
    of the step system, so that everything proved about runs holds of it. */
module TcpServer {
  import opened Bytes
  import opened Framing
  import FrameCodec
  import opened Network
  import opened EventLoop
  import opened LoopInvariants
  import opened LoopRuns

  datatype AcceptResult = AcceptResult(fd: int, nonBlocking: bool)

  /** What one call of recv returns; no bytes means that the peer has closed. */
  datatype RecvResult = Got(bytes: Bytes) | RecvBlocks | RecvInterrupted | RecvFails

  datatype Drained = Drained(received: Bytes, dead: bool)

  function Drain(results: seq<RecvResult>): Drained
  {
    if results == [] then Drained([], false)
    else
      match results[0]
      case RecvBlocks => Drained([], false)
      case RecvFails => Drained([], true)
      case RecvInterrupted => Drain(results[1..])
      case Got(bytes) =>
        if bytes == [] then Drained([], true)
        else
          var later := Drain(results[1..]);
          Drained(bytes + later.received, later.dead)
  }

  /** A result that ends the reading: nothing there yet, an error, or the end of the
      stream. */
  predicate EndsReading(r: RecvResult)
  {
    r.RecvBlocks? || r.RecvFails? || r == Got([])
  }

  /** How many results come before the first one that ends the reading. */
  function ReadCount(results: seq<RecvResult>): (k: nat)
    ensures k <= |results| && (k < |results| ==> EndsReading(results[k]))
    ensures forall i :: 0 <= i < k ==> !EndsReading(results[i])
  {
    if results == [] || EndsReading(results[0]) then 0 else 1 + ReadCount(results[1..])
  }

  /** The bytes of each result; an interrupted call has none. */
  function PiecesOf(results: seq<RecvResult>): (pieces: seq<Bytes>)
    ensures |pieces| == |results|
    ensures forall i :: 0 <= i < |results| ==> pieces[i] == if results[i].Got? then results[i].bytes else []
  {
    seq(|results|, i requires 0 <= i < |results| => if results[i].Got? then results[i].bytes else [])
  }

  /** All that the calls up to the first end returned. */
  function ReceivedFrom(results: seq<RecvResult>): Bytes
  {
    Concat(PiecesOf(results[..ReadCount(results)]))
  }

  /** The reading ended with an error or with the end of the stream. */
  predicate EndsDead(results: seq<RecvResult>)
  {
    var k := ReadCount(results);
    k < |results| && (results[k].RecvFails? || results[k] == Got([]))
  }

  /** The recv loop gives the bytes of all calls before the first end, in the order of the
      calls, and the connection is dead exactly when that end is not a would-block. */
  lemma {:induction false} DrainIs(results: seq<RecvResult>)
    ensures Drain(results) == Drained(ReceivedFrom(results), EndsDead(results))
    decreases |results|
  {
    var k := ReadCount(results);
    if results == [] || EndsReading(results[0]) {
      assert PiecesOf(results[..0]) == [];
    } else {
      DrainIs(results[1..]);
      assert results[..k][1..] == results[1..][..k - 1];
      var pieces := PiecesOf(results[..k]);
      assert pieces[1..] == PiecesOf(results[1..][..k - 1]);
      assert results[0].RecvInterrupted? ==> pieces[0] == [] && [] + Concat(pieces[1..]) == Concat(pieces[1..]);
    }
  }

  /** What select reports, and what the calls of that round return. */
  datatype Round = Round(
    listening: bool,
    readable: set<int>,
    writable: set<int>,
    accepts: seq<AcceptResult>,
    recv: nat -> seq<RecvResult>,
    send: nat -> seq<SendResult>)

  datatype Select = Ready(round: Round) | TimedOut | SelectInterrupted | SelectFails

  /** What the application sends back from inside the message callback. */
  type Replies = Bytes -> seq<Bytes>

  // ---------- what the methods compute ----------

  function AcceptAll(n: Net, results: seq<AcceptResult>): Net
    decreases |results|
  {
    if results == [] then n
    else AcceptAll(if results[0].nonBlocking then Accept(n, results[0].fd) else n, results[1..])
  }

  /** The system hands out descriptors that are not open. */
  predicate HandsOutClosed(n: Net, results: seq<AcceptResult>)
    decreases |results|
  {
    results == [] ||
    (results[0].fd !in n.open
     && HandsOutClosed(if results[0].nonBlocking then Accept(n, results[0].fd) else n, results[1..]))
  }

  function EnqueueAll(n: Net, id: nat, payloads: seq<Bytes>): Net
    decreases |payloads|
  {
    if payloads == [] then n else EnqueueAll(Enqueue(n, id, payloads[0]), id, payloads[1..])
  }

  function DeliverAll(n: Net, id: nat, frames: seq<Bytes>, replies: Replies): Net
    decreases |frames|
  {
    if frames == [] then n
    else DeliverAll(EnqueueAll(Deliver(n, id, frames[0]), id, replies(frames[0])), id, frames[1..], replies)
  }

  datatype Handled = Handled(net: Net, alive: bool)

  function ReadHandled(n: Net, entry: Entry, d: Drained, replies: Replies): Handled
  {
    if d.received == [] then Handled(n, !d.dead)
    else
      var m := Feed(n, entry.id, entry.fd, d.received);
      if entry.id !in n.connections then Handled(m, false)
      else
        var out := FrameCodec.Fed(n.connections[entry.id].codec, d.received);
        if out.state.error then Handled(m, false)
        else Handled(DeliverAll(m, entry.id, out.frames, replies), !d.dead)
  }

  /** Removal followed by the callback, if there was anything to remove. */
  function Dropped(n: Net, id: nat): Net
  {
    if id in n.connections then Notify(Remove(n, id), id) else n
  }

  // ---------- each of them as a run ----------

  lemma {:induction false} RunsAppend(l: Loop, a: seq<Event>, b: seq<Event>)
    ensures Runs(l, a + b) == Runs(Runs(l, a), b)
    decreases |a|
  {
    hide Next;
    if a == [] {
      assert a + b == b;
    } else {
      assert (a + b)[1..] == a[1..] + b;
      RunsAppend(Next(l, a[0]), a[1..], b);
    }
  }

  lemma RunsOne(l: Loop, e: Event)
    ensures Runs(l, [e]) == Next(l, e)
  {
    hide Next;
    assert [e][1..] == [];
  }

  lemma RunsSnoc(l: Loop, events: seq<Event>, e: Event)
    ensures Runs(l, events + [e]) == Next(Runs(l, events), e)
  {
    hide Next, Runs;
    RunsAppend(l, events, [e]);
    RunsOne(Runs(l, events), e);
  }

  function AcceptEvents(results: seq<AcceptResult>): seq<Event>
  {
    if results == [] then []
    else (if results[0].nonBlocking then [AcceptOne(results[0].fd)] else []) + AcceptEvents(results[1..])
  }

  lemma {:induction false} AcceptRun(l: Loop, results: seq<AcceptResult>)
    requires l.phase == Accepting && HandsOutClosed(l.net, results)
    ensures Runs(l, AcceptEvents(results)) == l.(net := AcceptAll(l.net, results))
    decreases |results|
  {
    hide Accept;
    if results != [] {
      var m := l.(net := if results[0].nonBlocking then Accept(l.net, results[0].fd) else l.net);
      AcceptRun(m, results[1..]);
      var later := AcceptEvents(results[1..]);
      if results[0].nonBlocking {
        assert m == Next(l, AcceptOne(results[0].fd));
        assert ([AcceptOne(results[0].fd)] + later)[1..] == later;
      } else {
        assert [] + later == later;
      }
    }
  }

  function EnqueueEvents(id: nat, payloads: seq<Bytes>): seq<Event>
  {
    if payloads == [] then [] else [EnqueueBy(id, payloads[0])] + EnqueueEvents(id, payloads[1..])
  }

  lemma {:induction false} EnqueueRun(l: Loop, id: nat, payloads: seq<Bytes>)
    ensures Runs(l, EnqueueEvents(id, payloads)) == l.(net := EnqueueAll(l.net, id, payloads))
    decreases |payloads|
  {
    hide Enqueue;
    if payloads != [] {
      var later := EnqueueEvents(id, payloads[1..]);
      assert ([EnqueueBy(id, payloads[0])] + later)[1..] == later;
      EnqueueRun(Next(l, EnqueueBy(id, payloads[0])), id, payloads[1..]);
    }
  }

  function DeliverEvents(id: nat, frames: seq<Bytes>, replies: Replies): seq<Event>
  {
    if frames == [] then []
    else [DeliverOne] + (EnqueueEvents(id, replies(frames[0])) + DeliverEvents(id, frames[1..], replies))
  }

  lemma {:induction false} DeliverRun(l: Loop, frames: seq<Bytes>, replies: Replies)
    requires l.phase.Delivering? && l.phase.frames == frames && l.phase.k < |l.snapshot|
    ensures var id := l.snapshot[l.phase.k].id;
            Runs(l, DeliverEvents(id, frames, replies))
            == l.(net := DeliverAll(l.net, id, frames, replies), phase := l.phase.(frames := []))
    decreases |frames|
  {
    hide Deliver;
    if frames != [] {
      var id := l.snapshot[l.phase.k].id;
      var now, later := EnqueueEvents(id, replies(frames[0])), DeliverEvents(id, frames[1..], replies);
      var m := Next(l, DeliverOne);
      assert ([DeliverOne] + (now + later))[1..] == now + later;
      RunsAppend(m, now, later);
      EnqueueRun(m, id, replies(frames[0]));
      DeliverRun(Runs(m, now), frames[1..], replies);
    }
  }

  /** The events for the frames that a read has completed. */
  function Deliveries(n: Net, entry: Entry, d: Drained, replies: Replies): seq<Event>
  {
    if d.received == [] || entry.id !in n.connections then []
    else DeliverEvents(entry.id, FrameCodec.Fed(n.connections[entry.id].codec, d.received).frames, replies)
  }

  function ReadEvents(n: Net, entry: Entry, d: Drained, replies: Replies): seq<Event>
  {
    [Receive(d.received, d.dead)]
    + Deliveries(n, entry, d, replies)
    + [Settle, NotifyGone]
  }

  /** The last two events end the turn of an entry. */
  lemma EndOfRead(l: Loop, k: nat)
    requires k < |l.snapshot|
    requires l.phase == Reading(k + 1) || (l.phase.Delivering? && l.phase.k == k && l.phase.frames == [])
    ensures Runs(l, [Settle, NotifyGone])
         == l.(net := if l.phase.Delivering? && l.phase.dead then Dropped(l.net, l.snapshot[k].id) else l.net,
               phase := Reading(k + 1))
  {
    RunsTwo(l, Settle, NotifyGone);
    hide Runs, Notify;
    if l.phase.Delivering? && l.phase.dead && l.snapshot[k].id in l.net.connections {
      hide Remove;
      assert Next(l, Settle) == l.(net := Remove(l.net, l.snapshot[k].id), phase := Notifying(k, false));
    } else {
      assert Next(l, Settle) == l.(phase := Reading(k + 1));
    }
  }

  lemma RunsTwo(l: Loop, e: Event, f: Event)
    ensures Runs(l, [e, f]) == Next(Next(l, e), f)
  {
    hide Next;
    assert [e, f][1..] == [f];
    RunsOne(Next(l, e), f);
  }

  lemma {:induction false} DeliverAllKeeps(n: Net, id: nat, frames: seq<Bytes>, replies: Replies, other: nat)
    ensures other in DeliverAll(n, id, frames, replies).connections <==> other in n.connections
    decreases |frames|
  {
    if frames != [] {
      EnqueueAllKeeps(Deliver(n, id, frames[0]), id, replies(frames[0]), other);
      DeliverAllKeeps(EnqueueAll(Deliver(n, id, frames[0]), id, replies(frames[0])), id, frames[1..], replies, other);
    }
  }

  lemma {:induction false} EnqueueAllKeeps(n: Net, id: nat, payloads: seq<Bytes>, other: nat)
    ensures other in EnqueueAll(n, id, payloads).connections <==> other in n.connections
    decreases |payloads|
  {
    if payloads != [] {
      EnqueueAllKeeps(Enqueue(n, id, payloads[0]), id, payloads[1..], other);
    }
  }

  lemma ReadTurn(l: Loop, k: nat, d: Drained, replies: Replies)
    requires l.phase == Reading(k) && At(l, k, l.readable)
    ensures var entry := l.snapshot[k];
            var h := ReadHandled(l.net, entry, d, replies);
            Runs(l, ReadEvents(l.net, entry, d, replies))
            == l.(net := if h.alive then h.net else Dropped(h.net, entry.id), phase := Reading(k + 1))
  {
    var entry := l.snapshot[k];
    var m := Next(l, Receive(d.received, d.dead));
    var deliveries := Deliveries(l.net, entry, d, replies);
    RunsOne(l, Receive(d.received, d.dead));
    RunsAppend(l, [Receive(d.received, d.dead)], deliveries);
    RunsAppend(l, [Receive(d.received, d.dead)] + deliveries, [Settle, NotifyGone]);
    AfterDeliveries(l, k, d, replies);
    hide Runs, Next, ReadHandled, Deliveries;
    EndOfRead(Runs(m, deliveries), k);
  }

  lemma AfterDeliveries(l: Loop, k: nat, d: Drained, replies: Replies)
    requires l.phase == Reading(k) && At(l, k, l.readable)
    ensures var entry := l.snapshot[k];
            var h := ReadHandled(l.net, entry, d, replies);
            var m := Runs(Next(l, Receive(d.received, d.dead)), Deliveries(l.net, entry, d, replies));
            && m.net == h.net && m.snapshot == l.snapshot && m.readable == l.readable && m.writable == l.writable
            && (h.alive || (d.received != [] && entry.id !in l.net.connections) ==>
                  m.phase == Reading(k + 1) || (m.phase == Delivering(k, [], false)))
            && (!h.alive && !(d.received != [] && entry.id !in l.net.connections) ==>
                  m.phase == Delivering(k, [], true))
            && (entry.id in l.net.connections <==> entry.id in m.net.connections)
  {
    var entry := l.snapshot[k];
    var m := Next(l, Receive(d.received, d.dead));
    if d.received != [] && entry.id in l.net.connections {
      var out := FrameCodec.Fed(l.net.connections[entry.id].codec, d.received);
      DeliverRun(m, out.frames, replies);
      DeliverAllKeeps(m.net, entry.id, out.frames, replies, entry.id);
      if out.state.error {
        assert out.frames == [];
      }
      hide FrameCodec.Fed, Deliver, EnqueueAll, Feed;
    } else {
      hide FrameCodec.Fed, Feed;
      assert Runs(m, []) == m;
    }
  }

  lemma WriteKeepsIds(n: Net, entry: Entry, results: seq<SendResult>)
    ensures entry.id in Write(n, entry.id, entry.fd, results).connections <==> entry.id in n.connections
  {
    hide Flush;
  }

  lemma WriteTurn(l: Loop, k: nat, results: seq<SendResult>)
    requires l.phase == Writing(k) && At(l, k, l.writable)
    ensures var entry := l.snapshot[k];
            var m := Write(l.net, entry.id, entry.fd, results);
            Runs(l, [WriteOut(results), NotifyGone])
            == l.(net := if Survives(l.net, entry.id, results) then m else Dropped(m, entry.id),
                  phase := Writing(k + 1))
  {
    hide Remove, Notify, Write;
    var entry := l.snapshot[k];
    WriteKeepsIds(l.net, entry, results);
    RunsTwo(l, WriteOut(results), NotifyGone);
    hide Runs;
  }

  // ---------- a whole round ----------

  /** The read loop over the snapshot, from entry k on. */
  function ReadTurns(n: Net, snapshot: seq<Entry>, k: nat, round: Round, replies: Replies): Net
    decreases |snapshot| - k
  {
    if k >= |snapshot| then n
    else
      var entry := snapshot[k];
      if entry.fd !in round.readable then ReadTurns(n, snapshot, k + 1, round, replies)
      else
        var h := ReadHandled(n, entry, Drain(round.recv(entry.id)), replies);
        ReadTurns(if h.alive then h.net else Dropped(h.net, entry.id), snapshot, k + 1, round, replies)
  }

  /** The write loop over the snapshot, from entry k on. */
  function WriteTurns(n: Net, snapshot: seq<Entry>, k: nat, writable: set<int>, round: Round): Net
    decreases |snapshot| - k
  {
    if k >= |snapshot| then n
    else
      var entry := snapshot[k];
      if entry.fd !in writable then WriteTurns(n, snapshot, k + 1, writable, round)
      else
        var m := Write(n, entry.id, entry.fd, round.send(entry.id));
        WriteTurns(if Survives(n, entry.id, round.send(entry.id)) then m else Dropped(m, entry.id),
                   snapshot, k + 1, writable, round)
  }

  function AcceptsOf(round: Round): seq<AcceptResult>
  {
    if round.listening then round.accepts else []
  }

  /** What a round makes of the tables: accepts, then reads, then writes, the last two
      for the connections that were there at its start. */
  function RoundNet(n: Net, round: Round, replies: Replies): Net
  {
    var snapshot := Snapshot(n.connections, n.nextConnId);
    var accepted := AcceptAll(n, AcceptsOf(round));
    var read := ReadTurns(accepted, snapshot, 0, round, replies);
    WriteTurns(read, snapshot, 0, round.writable * PendingFds(n), round)
  }

  lemma {:induction false} ReadTurnsRun(l: Loop, k: nat, round: Round, replies: Replies) returns (events: seq<Event>)
    requires l.phase == Reading(k) && k <= |l.snapshot| && l.readable == round.readable
    ensures Runs(l, events) == l.(net := ReadTurns(l.net, l.snapshot, k, round, replies), phase := Writing(0))
    decreases |l.snapshot| - k
  {
    hide Runs, ReadHandled, Drain, ReadEvents, Dropped;
    var here := [Pass];
    if k < |l.snapshot| && At(l, k, l.readable) {
      var entry := l.snapshot[k];
      here := ReadEvents(l.net, entry, Drain(round.recv(entry.id)), replies);
      ReadTurn(l, k, Drain(round.recv(entry.id)), replies);
    } else {
      RunsOne(l, Pass);
    }
    var m := Runs(l, here);
    if k < |l.snapshot| {
      var later := ReadTurnsRun(m, k + 1, round, replies);
      RunsAppend(l, here, later);
      events := here + later;
    } else {
      events := here;
    }
  }

  lemma {:induction false} WriteTurnsRun(l: Loop, k: nat, round: Round) returns (events: seq<Event>)
    requires l.phase == Writing(k) && k <= |l.snapshot|
    ensures Runs(l, events) == l.(net := WriteTurns(l.net, l.snapshot, k, l.writable, round), phase := Idle)
    decreases |l.snapshot| - k
  {
    hide Runs, Write, Dropped, Survives;
    var here := [Pass];
    if k < |l.snapshot| && At(l, k, l.writable) {
      here := [WriteOut(round.send(l.snapshot[k].id)), NotifyGone];
      WriteTurn(l, k, round.send(l.snapshot[k].id));
    } else {
      RunsOne(l, Pass);
    }
    var m := Runs(l, here);
    if k < |l.snapshot| {
      var later := WriteTurnsRun(m, k + 1, round);
      RunsAppend(l, here, later);
      events := here + later;
    } else {
      events := here;
    }
  }

  /** Every round is a run of the step system, from one idle state to the next. */
  lemma RoundIsRun(n: Net, round: Round, replies: Replies) returns (events: seq<Event>)
    requires HandsOutClosed(n, AcceptsOf(round))
    ensures var r := Runs(Loop(n, Idle, [], {}, {}), events);
            r.net == RoundNet(n, round, replies) && r.phase == Idle
  {
    hide Runs, Snapshot, PendingFds, AcceptAll, HandsOutClosed, ReadTurns, WriteTurns, AcceptEvents;
    var start := Loop(n, Idle, [], {}, {});
    var begin := Begin(round.readable, round.writable);
    RunsOne(start, begin);
    var l1 := Next(start, begin);
    var accepts := AcceptEvents(AcceptsOf(round));
    AcceptRun(l1, AcceptsOf(round));
    RunsAppend(start, [begin], accepts);
    var l2 := Runs(l1, accepts);
    var l3 := Next(l2, AcceptDone);
    RunsSnoc(start, [begin] + accepts, AcceptDone);
    var readEvents := ReadTurnsRun(l3, 0, round, replies);
    RunsAppend(start, [begin] + accepts + [AcceptDone], readEvents);
    var l4 := Runs(l3, readEvents);
    var writeEvents := WriteTurnsRun(l4, 0, round);
    RunsAppend(start, [begin] + accepts + [AcceptDone] + readEvents, writeEvents);
    events := [begin] + accepts + [AcceptDone] + readEvents + writeEvents;
  }

  lemma RoundKeeps(n: Net, round: Round, replies: Replies)
    requires HandsOutClosed(n, AcceptsOf(round)) && Inv(Loop(n, Idle, [], {}, {}))
    ensures Inv(Loop(RoundNet(n, round, replies), Idle, [], {}, {}))
  {
    var start := Loop(n, Idle, [], {}, {});
    var events := RoundIsRun(n, round, replies);
    RunsKeep(start, events);
    hide RoundNet, Runs, Inv;
    IdleForgets(Runs(start, events));
  }

  /** Between rounds the last snapshot does not matter. */
  lemma IdleForgets(l: Loop)
    requires Inv(l) && l.phase == Idle
    ensures Inv(Loop(l.net, Idle, [], {}, {}))
  {
    var r := Loop(l.net, Idle, [], {}, {});
    hide TableOk, FlowsOk;
    AllKept(l, r);
  }

  /** The whole loop: rounds until select fails or the server is told to stop, which is
      where the list of reports ends; then everything is closed. */
  function LoopNet(n: Net, selects: seq<Select>, replies: Replies): Net
    decreases |selects|
  {
    if selects == [] || selects[0].SelectFails? then CloseAll(n)
    else LoopNet(if selects[0].Ready? then RoundNet(n, selects[0].round, replies) else n, selects[1..], replies)
  }

  /** In every round the system hands out descriptors that are not open. */
  predicate SystemIsSane(n: Net, selects: seq<Select>, replies: Replies)
    decreases |selects|
  {
    selects == [] || selects[0].SelectFails? ||
    ((selects[0].Ready? ==> HandsOutClosed(n, AcceptsOf(selects[0].round)))
     && SystemIsSane(if selects[0].Ready? then RoundNet(n, selects[0].round, replies) else n, selects[1..], replies))
  }

  /** However the loop ends, everything is closed and what happened was lawful. */
  lemma LoopEnds(n: Net)
    requires Inv(Loop(n, Idle, [], {}, {}))
    ensures Lawful(CloseAll(n).trace) && Live(CloseAll(n).trace) == map[]
  {
    var l := Loop(n, Idle, [], {}, {});
    FinishKeeps(l);
    hide Lawful, Live, FlowsOk;
    assert Fds(map[]) == map[];
  }

  // ---------- the object ----------

  lemma {:induction false} DeliverAllSnoc(n: Net, id: nat, done: seq<Bytes>, frame: Bytes, replies: Replies)
    ensures DeliverAll(n, id, done + [frame], replies)
         == EnqueueAll(Deliver(DeliverAll(n, id, done, replies), id, frame), id, replies(frame))
    decreases |done|
  {
    hide Deliver, EnqueueAll;
    if done == [] {
      assert done + [frame] == [frame] && [frame][1..] == [];
    } else {
      assert (done + [frame])[1..] == done[1..] + [frame];
      DeliverAllSnoc(EnqueueAll(Deliver(n, id, done[0]), id, replies(done[0])), id, done[1..], frame, replies);
    }
  }

  /** The recv loop: what was read before the socket blocked or ended. */
  method DrainSocket(results: seq<RecvResult>) returns (received: Bytes, dead: bool)
    ensures Drained(received, dead) == Drain(results)
    ensures received == Concat(PiecesOf(results[..ReadCount(results)]))
    ensures dead <==> ReadCount(results) < |results|
                      && (results[ReadCount(results)].RecvFails? || results[ReadCount(results)] == Got([]))
  {
    DrainIs(results);
    received, dead := [], false;
    var i := 0;
    while i < |results|
      invariant i <= |results|
      invariant Drain(results) == Drained(received + Drain(results[i..]).received, Drain(results[i..]).dead)
    {
      var one := results[i];
      assert results[i..][0] == one && results[i..][1..] == results[i + 1..];
      i := i + 1;
      if one.Got? && one.bytes != [] {
        ghost var later := Drain(results[i..]).received;
        assert received + (one.bytes + later) == (received + one.bytes) + later;
        received := received + one.bytes;
        continue;
      }
      if one.RecvInterrupted? {
        continue;
      }
      dead := !one.RecvBlocks?;
      assert received + [] == received;
      break;
    }
    assert Drain(results) == Drained(received, dead) by {
      assert received + [] == received;
    }
  }

  class TcpServer {
    var connections: map<nat, Connection>
    var nextConnId: nat
    var open: set<int>
    var latestConnId: nat
    var trace: Trace
    const replies: Replies

    function Now(): Net
      reads this
    {
      Net(connections, nextConnId, open, latestConnId, trace)
    }

    /** Between rounds the server is in a state that the loop keeps. */
    ghost predicate Valid()
      reads this
    {
      Inv(Loop(Now(), Idle, [], {}, {}))
    }

    constructor (replies: Replies)
      ensures Now() == START && Valid() && this.replies == replies
    {
      connections, nextConnId, open, latestConnId := map[], 1, {}, 0;
      trace := [];
      this.replies := replies;
      new;
      StartKeeps();
    }

    /** Queues a frame; false if the connection is not there. */
    method SendToConnection(id: nat, payload: Bytes) returns (ok: bool)
      modifies this
      ensures ok == (id in old(connections))
      ensures Now() == Enqueue(old(Now()), id, payload)
      ensures old(Valid()) ==> Valid()
    {
      ghost var before := Loop(Now(), Idle, [], {}, {});
      if id !in connections {
        return false;
      }
      var c := connections[id];
      connections := connections[id := c.(sendBuf := c.sendBuf + Encode(payload))];
      trace := trace + [Enqueued(id, payload)];
      if Inv(before) {
        NextKeeps(before, EnqueueBy(id, payload));
      }
      return true;
    }

    method AcceptClients(results: seq<AcceptResult>)
      requires HandsOutClosed(Now(), results)
      modifies this
      ensures Now() == AcceptAll(old(Now()), results)
    {
      for i := 0 to |results|
        invariant HandsOutClosed(Now(), results[i..])
        invariant AcceptAll(Now(), results[i..]) == AcceptAll(old(Now()), results)
      {
        assert results[i..][0] == results[i] && results[i..][1..] == results[i + 1..];
        var fd := results[i].fd;
        if fd >= FD_SETSIZE {
          continue;
        }
        if !results[i].nonBlocking {
          continue;
        }
        var id := nextConnId;
        nextConnId := nextConnId + 1;
        connections := connections[id := Connection(fd, FrameCodec.Fresh, [], 0)];
        open := open + {fd};
        trace := trace + [Connected(id, fd)];
      }
      assert results[|results|..] == [];
    }

    /** The message callback: the manager notes the connection, and may send. */
    method OnMessage(id: nat, payload: Bytes)
      modifies this
      ensures Now() == EnqueueAll(Deliver(old(Now()), id, payload), id, replies(payload))
    {
      latestConnId := id;
      trace := trace + [Delivered(id, payload)];
      var answers := replies(payload);
      for i := 0 to |answers|
        invariant EnqueueAll(Now(), id, answers[i..]) == EnqueueAll(Deliver(old(Now()), id, payload), id, answers)
      {
        assert answers[i..][0] == answers[i] && answers[i..][1..] == answers[i + 1..];
        var _ := SendToConnection(id, answers[i]);
      }
      assert answers[|answers|..] == [];
    }

    method OnDisconnected(id: nat)
      modifies this
      ensures Now() == Notify(old(Now()), id)
    {
      trace := trace + [Disconnected(id)];
      if latestConnId == id {
        latestConnId := 0;
      }
    }

    /** Reads until the socket blocks or ends, cuts frames, calls back; false if the
        connection is dead. */
    method HandleReadable(entry: Entry, results: seq<RecvResult>) returns (alive: bool)
      modifies this
      ensures Handled(Now(), alive) == ReadHandled(old(Now()), entry, Drain(results), replies)
    {
      hide Drain, PiecesOf, ReadCount, FrameCodec.Fed, Deliver, EnqueueAll;
      var received, dead := DrainSocket(results);
      if received == [] && !dead {
        return true;
      }
      var frames := [];
      if received != [] {
        trace := trace + [Received(entry.id, entry.fd, received)];
        if entry.id !in connections {
          return false;
        }
        var c := connections[entry.id];
        var out := FrameCodec.Fed(c.codec, received);
        connections := connections[entry.id := c.(codec := out.state)];
        if out.state.error {
          return false;
        }
        frames := out.frames;
      }
      ghost var fed := Now();
      for k := 0 to |frames|
        invariant Now() == DeliverAll(fed, entry.id, frames[..k], replies)
      {
        assert frames[..k + 1] == frames[..k] + [frames[k]];
        DeliverAllSnoc(fed, entry.id, frames[..k], frames[k], replies);
        OnMessage(entry.id, frames[k]);
      }
      assert frames[..|frames|] == frames;
      return !dead;
    }

    /** Writes until nothing is left or the socket blocks; false if sending failed. */
    method HandleWritable(entry: Entry, results: seq<SendResult>) returns (alive: bool)
      modifies this
      ensures Now() == Write(old(Now()), entry.id, entry.fd, results)
      ensures alive == Survives(old(Now()), entry.id, results)
      ensures entry.id !in old(connections) ==> alive && Now() == old(Now())
      ensures entry.id in old(connections) ==>
                var c := old(connections)[entry.id];
                var pending := Unsent(c);
                var room := TotalCount(results[..SendCount(results)]);
                var moved := if room < |pending| then room else |pending|;
                var k := SendCount(results);
                var failed := k < |results| && (results[k].SendFails? || results[k] == Wrote(0));
                && alive == !(moved < |pending| && failed)
                && trace == old(trace) + (if moved == 0 then [] else [Sent(entry.id, entry.fd, pending[..moved])])
                && entry.id in connections && Unsent(connections[entry.id]) == pending[moved..]
                && connections[entry.id].codec == c.codec && connections[entry.id].fd == c.fd
    {
      WrittenBy(Now(), entry, results);
      if entry.id !in connections {
        return true;
      }
      var c := connections[entry.id];
      var written: Bytes := [];
      var i := 0;
      alive := true;
      while i < |results| && HasPendingData(c)
        invariant i <= |results|
        invariant alive
        invariant Flush(connections[entry.id], results)
               == Flushed(Flush(c, results[i..]).c, written + Flush(c, results[i..]).bytes, Flush(c, results[i..]).ok)
      {
        var one := results[i];
        assert results[i..][0] == one && results[i..][1..] == results[i + 1..];
        i := i + 1;
        if one.SendInterrupted? {
          continue;
        }
        if one.Wrote? {
          var left := |c.sendBuf| - c.sentOffset;
          var n := if one.count > left then left else one.count;
          if n > 0 {
            var some := c.sendBuf[c.sentOffset..c.sentOffset + n];
            c := c.(sentOffset := c.sentOffset + n);
            ghost var later := Flush(c, results[i..]).bytes;
            assert written + (some + later) == (written + some) + later;
            written := written + some;
            continue;
          }
        }
        alive := one.SendBlocks?;
        assert written + [] == written;
        break;
      }
      if !HasPendingData(c) {
        c := c.(sendBuf := [], sentOffset := 0);
      }
      assert Flush(connections[entry.id], results) == Flushed(c, written, alive) by {
        assert written + [] == written;
      }
      connections := connections[entry.id := c];
      if written != [] {
        trace := trace + [Sent(entry.id, entry.fd, written)];
      }
    }

    method RemoveConnection(id: nat) returns (removed: bool)
      modifies this
      ensures removed == (id in old(connections))
      ensures Now() == Remove(old(Now()), id)
    {
      if id !in connections {
        return false;
      }
      var fd := connections[id].fd;
      connections := connections - {id};
      open := open - {fd};
      trace := trace + [Closed(id)];
      return true;
    }

    /** Removal and, if there was something to remove, the callback. */
    method Drop(id: nat)
      modifies this
      ensures Now() == Dropped(old(Now()), id)
    {
      var removed := RemoveConnection(id);
      if removed {
        OnDisconnected(id);
      }
    }

    method CloseAllSockets()
      modifies this
      ensures Now() == CloseAll(old(Now()))
    {
      open := {};
      connections := map[];
      trace := trace + [ClosedAll];
    }

    /** The snapshot of a round, and the descriptors watched for writing. */
    method TakeSnapshot() returns (snapshot: seq<Entry>, writeSet: set<int>)
      requires Valid()
      ensures snapshot == Snapshot(connections, nextConnId)
      ensures writeSet == PendingFds(Now())
    {
      snapshot, writeSet := [], {};
      InTableIsSmall(Now());
      for id := 0 to nextConnId
        invariant snapshot == Snapshot(connections, id)
        invariant forall fd :: fd in writeSet ==> fd in PendingFds(Now())
        invariant forall i :: 0 <= i < id && i in connections && HasPendingData(connections[i]) ==>
                    connections[i].fd in writeSet
      {
        if id in connections && connections[id].fd < FD_SETSIZE {
          if HasPendingData(connections[id]) {
            writeSet := writeSet + {connections[id].fd};
          }
          snapshot := snapshot + [Entry(id, connections[id].fd)];
        }
      }
      InTableIsSmall(Now());
      forall fd | fd in PendingFds(Now())
        ensures fd in writeSet
      {
        var id :| id in connections && HasPendingData(connections[id]) && connections[id].fd == fd;
      }
      assert forall fd :: fd in writeSet <==> fd in PendingFds(Now());
      assert writeSet == PendingFds(Now());
    }

    /** One turn of the loop after select has reported something. */
    method RunRound(round: Round)
      requires Valid() && HandsOutClosed(Now(), AcceptsOf(round))
      modifies this
      ensures Now() == RoundNet(old(Now()), round, replies)
      ensures Valid()
    {
      hide Inv, Snapshot, PendingFds, AcceptAll, HandsOutClosed, ReadHandled, Dropped, Write, Survives, Drain;
      RoundKeeps(Now(), round, replies);
      var snapshot, writeSet := TakeSnapshot();
      var writable := round.writable * writeSet;
      if round.listening {
        AcceptClients(round.accepts);
      } else {
        NoAccepts(Now());
      }
      ghost var accepted := Now();
      for k := 0 to |snapshot|
        invariant ReadTurns(Now(), snapshot, k, round, replies) == ReadTurns(accepted, snapshot, 0, round, replies)
      {
        var entry := snapshot[k];
        if entry.fd in round.readable {
          var alive := HandleReadable(entry, round.recv(entry.id));
          if !alive {
            Drop(entry.id);
          }
        }
      }
      ghost var read := Now();
      for k := 0 to |snapshot|
        invariant WriteTurns(Now(), snapshot, k, writable, round) == WriteTurns(read, snapshot, 0, writable, round)
      {
        var entry := snapshot[k];
        if entry.fd in writable {
          var alive := HandleWritable(entry, round.send(entry.id));
          if !alive {
            Drop(entry.id);
          }
        }
      }
    }

    /** The loop thread, from its first round to the exit path. */
    method RunLoop(selects: seq<Select>)
      requires Valid() && SystemIsSane(Now(), selects, replies)
      modifies this
      ensures Now() == LoopNet(old(Now()), selects, replies)
      ensures connections == map[] && open == {} && Lawful(trace)
    {
      hide Inv, RoundNet, HandsOutClosed, Lawful;
      var i := 0;
      while i < |selects|
        invariant i <= |selects|
        invariant Valid() && SystemIsSane(Now(), selects[i..], replies)
        invariant LoopNet(Now(), selects[i..], replies) == LoopNet(old(Now()), selects, replies)
      {
        assert selects[i..][0] == selects[i] && selects[i..][1..] == selects[i + 1..];
        if selects[i].SelectFails? {
          break;
        }
        if selects[i].Ready? {
          RunRound(selects[i].round);
        }
        i := i + 1;
      }
      LoopEnds(Now());
      CloseAllSockets();
    }
  }

  /** What the send loop does to the tables, counted in what the calls of send return. */
  lemma WrittenBy(n: Net, entry: Entry, results: seq<SendResult>)
    ensures entry.id !in n.connections ==> Write(n, entry.id, entry.fd, results) == n
    ensures entry.id in n.connections ==>
              var c := n.connections[entry.id];
              var pending := Unsent(c);
              var moved := Moved(|pending|, results);
              var m := Write(n, entry.id, entry.fd, results);
              && Survives(n, entry.id, results) == !FailsSending(|pending|, results)
              && m.trace == n.trace + (if moved == 0 then [] else [Sent(entry.id, entry.fd, pending[..moved])])
              && m.connections == n.connections[entry.id := AfterSend(c, results)]
              && Unsent(AfterSend(c, results)) == pending[moved..]
  {
    if entry.id in n.connections {
      FlushIs(n.connections[entry.id], results);
      hide Flush, Moved, FailsSending, AfterSend, Unsent;
      assert n.trace + [] == n.trace;
    }
  }

  lemma NoAccepts(n: Net)
    ensures AcceptAll(n, []) == n
  {
  }

  lemma InTableIsSmall(n: Net)
    requires Inv(Loop(n, Idle, [], {}, {}))
    ensures forall id :: id in n.connections ==> 0 < id < n.nextConnId && n.connections[id].fd < FD_SETSIZE
  {
    hide FlowsOk, SnapshotOk, LatestOk;
    forall id | id in n.connections
      ensures EverConnected(n.trace, id)
    {
      assert id in Fds(n.connections);
      LawfulTrace(n.trace, id, id);
    }
  }
}

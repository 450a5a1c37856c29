/** A round of the loop, seen from one connection: what is read, handed on, queued and
    written in it, and whether the connection is there afterwards. */
module Rounds {
  import opened Bytes
  import opened Framing
  import FrameCodec
  import opened Network
  import opened EventLoop
  import opened LoopInvariants
  import opened LoopRuns
  import opened TcpServer

  /** Everything about one connection: its entry in the table, how often its owner was
      told that it is gone, and what passed over it. */
  datatype Slice = Slice(
    entry: Option<Connection>, goodbyes: nat,
    accepted: seq<Bytes>, written: seq<Bytes>, read: seq<Bytes>, handed: seq<Bytes>)

  function SliceOf(n: Net, id: nat): Slice
  {
    Slice(InTable(n, id), Goodbyes(n.trace, id),
          Seen(n.trace, Accepted, id), Seen(n.trace, Written, id), Seen(n.trace, Read, id), Seen(n.trace, HandedOn, id))
  }

  // ---------- single steps ----------

  lemma SliceAfter(n: Net, m: Net, h: Happening, id: nat)
    requires m.trace == n.trace + [h]
    ensures SliceOf(m, id) == Slice(
              InTable(m, id),
              Goodbyes(n.trace, id) + (if h == Disconnected(id) then 1 else 0),
              Seen(n.trace, Accepted, id) + Part(h, Accepted, id),
              Seen(n.trace, Written, id) + Part(h, Written, id),
              Seen(n.trace, Read, id) + Part(h, Read, id),
              Seen(n.trace, HandedOn, id) + Part(h, HandedOn, id))
  {
    hide Seen, Goodbyes, Part, InTable;
    SeenSnoc(n.trace, h, id);
    OneMore(n.trace, h);
  }

  /** What happens to another connection. */
  lemma Elsewhere(n: Net, m: Net, h: Happening, id: nat)
    requires m.trace == n.trace + [h] && !h.ClosedAll? && h.id != id
    requires InTable(m, id) == InTable(n, id)
    ensures SliceOf(m, id) == SliceOf(n, id)
  {
    SliceAfter(n, m, h, id);
    hide Seen, Goodbyes;
    assert forall flow :: Part(h, flow, id) == [];
  }

  lemma AcceptElsewhere(n: Net, fd: int, id: nat)
    requires id != n.nextConnId
    ensures SliceOf(Accept(n, fd), id) == SliceOf(n, id)
  {
    if fd < FD_SETSIZE {
      hide SliceOf;
      Elsewhere(n, Accept(n, fd), Connected(n.nextConnId, fd), id);
    }
  }

  lemma EnqueueElsewhere(n: Net, other: nat, payload: Bytes, id: nat)
    requires other != id
    ensures SliceOf(Enqueue(n, other, payload), id) == SliceOf(n, id)
  {
    hide SliceOf, Encode;
    if other in n.connections {
      Elsewhere(n, Enqueue(n, other, payload), Enqueued(other, payload), id);
    }
  }

  lemma {:induction false} EnqueueAllElsewhere(n: Net, other: nat, payloads: seq<Bytes>, id: nat)
    requires other != id
    ensures SliceOf(EnqueueAll(n, other, payloads), id) == SliceOf(n, id)
    decreases |payloads|
  {
    hide SliceOf, Enqueue;
    if payloads != [] {
      EnqueueElsewhere(n, other, payloads[0], id);
      EnqueueAllElsewhere(Enqueue(n, other, payloads[0]), other, payloads[1..], id);
    }
  }

  lemma {:induction false} DeliverAllElsewhere(n: Net, other: nat, frames: seq<Bytes>, replies: Replies, id: nat)
    requires other != id
    ensures SliceOf(DeliverAll(n, other, frames, replies), id) == SliceOf(n, id)
    decreases |frames|
  {
    hide SliceOf, EnqueueAll;
    if frames != [] {
      var m := Deliver(n, other, frames[0]);
      Elsewhere(n, m, Delivered(other, frames[0]), id);
      EnqueueAllElsewhere(m, other, replies(frames[0]), id);
      DeliverAllElsewhere(EnqueueAll(m, other, replies(frames[0])), other, frames[1..], replies, id);
    }
  }

  lemma DropElsewhere(n: Net, other: nat, id: nat)
    requires other != id
    ensures SliceOf(Dropped(n, other), id) == SliceOf(n, id)
  {
    hide SliceOf;
    if other in n.connections {
      var m := Remove(n, other);
      Elsewhere(n, m, Closed(other), id);
      Elsewhere(m, Notify(m, other), Disconnected(other), id);
    }
  }

  lemma ReadElsewhere(n: Net, entry: Entry, d: Drained, replies: Replies, id: nat)
    requires entry.id != id
    ensures var h := ReadHandled(n, entry, d, replies);
            SliceOf(if h.alive then h.net else Dropped(h.net, entry.id), id) == SliceOf(n, id)
  {
    hide SliceOf, DeliverAll, Dropped, FrameCodec.Fed;
    var h := ReadHandled(n, entry, d, replies);
    DropElsewhere(h.net, entry.id, id);
    if d.received != [] {
      var m := Feed(n, entry.id, entry.fd, d.received);
      Elsewhere(n, m, Received(entry.id, entry.fd, d.received), id);
      if entry.id in n.connections {
        var out := FrameCodec.Fed(n.connections[entry.id].codec, d.received);
        DeliverAllElsewhere(m, entry.id, out.frames, replies, id);
      }
    }
  }

  lemma WriteElsewhere(n: Net, entry: Entry, results: seq<SendResult>, id: nat)
    requires entry.id != id
    ensures var m := Write(n, entry.id, entry.fd, results);
            SliceOf(if Survives(n, entry.id, results) then m else Dropped(m, entry.id), id) == SliceOf(n, id)
  {
    hide Dropped, Flush, Survives;
    var m := Write(n, entry.id, entry.fd, results);
    DropElsewhere(m, entry.id, id);
    if entry.id in n.connections {
      var bytes := Flush(n.connections[entry.id], results).bytes;
      if bytes != [] {
        hide SliceOf;
        Elsewhere(n, m, Sent(entry.id, entry.fd, bytes), id);
      }
    }
  }

  // ---------- the turn of the connection itself ----------

  /** What the application sends back to these payloads. */
  function Answers(frames: seq<Bytes>, replies: Replies): seq<Bytes>
  {
    if frames == [] then [] else replies(frames[0]) + Answers(frames[1..], replies)
  }

  function Queued(c: Connection, payloads: seq<Bytes>): Connection
  {
    c.(sendBuf := c.sendBuf + EncodeAll(payloads))
  }

  lemma QueuedNothing(c: Connection, s: seq<Bytes>)
    ensures Queued(c, []) == c && s + [] == s
  {
    assert c.sendBuf + [] == c.sendBuf;
  }

  lemma QueuedTwice(c: Connection, a: seq<Bytes>, b: seq<Bytes>)
    ensures Queued(Queued(c, a), b) == Queued(c, a + b)
  {
    EncodeAllAppend(a, b);
    Associate(c.sendBuf, EncodeAll(a), EncodeAll(b));
  }

  lemma EnqueueHere(n: Net, id: nat, payload: Bytes)
    requires id in n.connections
    ensures SliceOf(Enqueue(n, id, payload), id)
         == SliceOf(n, id).(entry := Some(Queued(n.connections[id], [payload])),
                            accepted := SliceOf(n, id).accepted + [payload])
  {
    hide Seen, Goodbyes, Encode;
    var m := Enqueue(n, id, payload);
    SliceAfter(n, m, Enqueued(id, payload), id);
    assert EncodeAll([payload]) == Encode(payload) by {
      EncodeAllSnoc([], payload);
      assert [] + [payload] == [payload];
    }
  }

  lemma {:induction false} EnqueueAllHere(n: Net, id: nat, payloads: seq<Bytes>)
    requires id in n.connections
    ensures SliceOf(EnqueueAll(n, id, payloads), id)
         == SliceOf(n, id).(entry := Some(Queued(n.connections[id], payloads)),
                            accepted := SliceOf(n, id).accepted + payloads)
    decreases |payloads|
  {
    hide Enqueue, Queued, Seen, Goodbyes;
    var c, s := n.connections[id], SliceOf(n, id);
    if payloads == [] {
      QueuedNothing(c, s.accepted);
    } else {
      EnqueueHere(n, id, payloads[0]);
      EnqueueAllHere(Enqueue(n, id, payloads[0]), id, payloads[1..]);
      QueuedTwice(c, [payloads[0]], payloads[1..]);
      assert payloads == [payloads[0]] + payloads[1..];
    }
  }

  lemma DeliverHere(n: Net, id: nat, payload: Bytes)
    ensures SliceOf(Deliver(n, id, payload), id)
         == SliceOf(n, id).(handed := SliceOf(n, id).handed + [payload])
  {
    hide Seen, Goodbyes;
    SliceAfter(n, Deliver(n, id, payload), Delivered(id, payload), id);
  }

  lemma {:induction false} DeliverAllHere(n: Net, id: nat, frames: seq<Bytes>, replies: Replies)
    requires id in n.connections
    ensures SliceOf(DeliverAll(n, id, frames, replies), id)
         == SliceOf(n, id).(entry := Some(Queued(n.connections[id], Answers(frames, replies))),
                            accepted := SliceOf(n, id).accepted + Answers(frames, replies),
                            handed := SliceOf(n, id).handed + frames)
    decreases |frames|
  {
    hide Deliver, EnqueueAll, Queued, Seen, Goodbyes;
    var c, s := n.connections[id], SliceOf(n, id);
    if frames == [] {
      QueuedNothing(c, s.accepted);
    } else {
      var m := Deliver(n, id, frames[0]);
      DeliverHere(n, id, frames[0]);
      EnqueueAllHere(m, id, replies(frames[0]));
      DeliverAllHere(EnqueueAll(m, id, replies(frames[0])), id, frames[1..], replies);
      QueuedTwice(c, replies(frames[0]), Answers(frames[1..], replies));
      assert frames == [frames[0]] + frames[1..];
    }
  }

  lemma DropHere(n: Net, id: nat)
    ensures SliceOf(Dropped(n, id), id)
         == if id in n.connections then SliceOf(n, id).(entry := None, goodbyes := SliceOf(n, id).goodbyes + 1)
            else SliceOf(n, id)
  {
    hide Seen, Goodbyes;
    if id in n.connections {
      var m := Remove(n, id);
      SliceAfter(n, m, Closed(id), id);
      SliceAfter(m, Notify(m, id), Disconnected(id), id);
    }
  }

  lemma FeedHere(n: Net, entry: Entry, received: Bytes)
    requires entry.id in n.connections
    ensures var c, s := n.connections[entry.id], SliceOf(n, entry.id);
            SliceOf(Feed(n, entry.id, entry.fd, received), entry.id)
            == s.(entry := Some(c.(codec := FrameCodec.Fed(c.codec, received).state)), read := s.read + [received])
  {
    hide Seen, Goodbyes, FrameCodec.Fed;
    SliceAfter(n, Feed(n, entry.id, entry.fd, received), Received(entry.id, entry.fd, received), entry.id);
  }

  function Turned(alive: bool, n: Net, id: nat): Net
  {
    if alive then n else Dropped(n, id)
  }

  function Extended(read: seq<Bytes>, received: Bytes): seq<Bytes>
  {
    if received == [] then read else read + [received]
  }

  /** The frames that the last read has completed. */
  function NewFrames(before: seq<Bytes>, after: seq<Bytes>): seq<Bytes>
  {
    var a, b := FrameCodec.Run(before).frames, FrameCodec.Run(after).frames;
    if a <= b then b[|a|..] else []
  }

  /** The turn of a connection in the read loop. */
  function SliceRead(s: Slice, received: Bytes, dead: bool, replies: Replies): Slice
    requires s.entry.Some?
  {
    var read := Extended(s.read, received);
    var frames := NewFrames(s.read, read);
    var answers := Answers(frames, replies);
    var lost := dead || (received != [] && FrameCodec.Run(read).state.error);
    Slice(if lost then None else Some(Queued(s.entry.value.(codec := FrameCodec.Run(read).state), answers)),
          s.goodbyes + (if lost then 1 else 0),
          s.accepted + answers, s.written, read, s.handed + frames)
  }

  lemma RunExtended(read: seq<Bytes>, received: Bytes)
    ensures var out := FrameCodec.Fed(FrameCodec.Run(read).state, received);
            && FrameCodec.Run(read + [received]).state == out.state
            && NewFrames(read, read + [received]) == out.frames
            && FrameCodec.Run(read + [received]).frames == FrameCodec.Run(read).frames + out.frames
  {
    hide FrameCodec.Fed;
    assert (read + [received])[..|read|] == read;
  }

  /** Where the handler stands before the result is looked at. */
  lemma HandledHere(n: Net, entry: Entry, d: Drained, replies: Replies)
    requires entry.id in n.connections
    requires n.connections[entry.id].codec == FrameCodec.Run(Seen(n.trace, Read, entry.id)).state
    ensures var h := ReadHandled(n, entry, d, replies);
            var s := SliceOf(n, entry.id);
            var read := Extended(s.read, d.received);
            var frames := NewFrames(s.read, read);
            var answers := Answers(frames, replies);
            && h.alive == !(d.dead || (d.received != [] && FrameCodec.Run(read).state.error))
            && SliceOf(h.net, entry.id) == Slice(
                 Some(Queued(s.entry.value.(codec := FrameCodec.Run(read).state), answers)),
                 s.goodbyes, s.accepted + answers, s.written, read, s.handed + frames)
  {
    var id := entry.id;
    var c, s := n.connections[id], SliceOf(n, id);
    NoAnswers(replies);
    QueuedNothing(c, s.accepted);
    QueuedNothing(c, s.handed);
    if d.received != [] {
      var m := Feed(n, id, entry.fd, d.received);
      FeedHere(n, entry, d.received);
      RunExtended(s.read, d.received);
      var out := FrameCodec.Fed(c.codec, d.received);
      ErrorHasNoFrames(c.codec, d.received);
      DeliverAllHere(m, id, out.frames, replies);
      hide DeliverAll, FrameCodec.Fed, FrameCodec.Run, NewFrames, Seen, Goodbyes, Queued, Answers, Feed;
      QueuedNothing(c.(codec := out.state), s.accepted);
    } else {
      hide DeliverAll, FrameCodec.Run, Seen, Goodbyes, Queued, Answers;
      assert NewFrames(s.read, s.read) == [];
    }
  }

  lemma ReadHere(n: Net, entry: Entry, d: Drained, replies: Replies)
    requires entry.id in n.connections
    requires n.connections[entry.id].codec == FrameCodec.Run(Seen(n.trace, Read, entry.id)).state
    ensures var h := ReadHandled(n, entry, d, replies);
            SliceOf(Turned(h.alive, h.net, entry.id), entry.id)
            == SliceRead(SliceOf(n, entry.id), d.received, d.dead, replies)
  {
    var h := ReadHandled(n, entry, d, replies);
    HandledHere(n, entry, d, replies);
    DropHere(h.net, entry.id);
    hide ReadHandled, Dropped, FrameCodec.Run, NewFrames, Seen, Goodbyes, Queued, Answers, Extended;
  }

  lemma NoAnswers(replies: Replies)
    ensures Answers([], replies) == []
  {
  }

  lemma ErrorHasNoFrames(state: FrameCodec.State, data: Bytes)
    ensures FrameCodec.Fed(state, data).state.error ==> FrameCodec.Fed(state, data).frames == []
  {
  }

  /** The turn of a connection in the write loop. */
  function SliceWrite(s: Slice, results: seq<SendResult>): Slice
  {
    if s.entry.None? then s
    else
      var pending := Unsent(s.entry.value);
      var moved, failed := Moved(|pending|, results), FailsSending(|pending|, results);
      s.(entry := if failed then None else Some(AfterSend(s.entry.value, results)),
         goodbyes := s.goodbyes + (if failed then 1 else 0),
         written := if moved == 0 then s.written else s.written + [pending[..moved]])
  }

  lemma WriteHere(n: Net, entry: Entry, results: seq<SendResult>)
    ensures var m := Write(n, entry.id, entry.fd, results);
            SliceOf(Turned(Survives(n, entry.id, results), m, entry.id), entry.id)
            == SliceWrite(SliceOf(n, entry.id), results)
  {
    var id := entry.id;
    var m := Write(n, id, entry.fd, results);
    WrittenBy(n, entry, results);
    DropHere(m, id);
    hide Dropped, Write, Survives, Seen, Goodbyes, Moved, FailsSending, AfterSend, Unsent;
    if id in n.connections {
      var pending := Unsent(n.connections[id]);
      var moved := Moved(|pending|, results);
      if moved == 0 {
        assert m.trace == n.trace;
      } else {
        SliceAfter(n, m, Sent(id, entry.fd, pending[..moved]), id);
      }
    }
  }

  // ---------- the loops over the snapshot ----------

  lemma {:induction false} ReadTurnsElsewhere(
      n: Net, snapshot: seq<Entry>, k: nat, round: Round, replies: Replies, id: nat)
    requires forall j :: k <= j < |snapshot| ==> snapshot[j].id != id
    ensures SliceOf(ReadTurns(n, snapshot, k, round, replies), id) == SliceOf(n, id)
    decreases |snapshot| - k
  {
    hide SliceOf, ReadHandled, Dropped, Drain;
    if k < |snapshot| {
      var entry := snapshot[k];
      var d := Drain(round.recv(entry.id));
      var h := ReadHandled(n, entry, d, replies);
      ReadElsewhere(n, entry, d, replies, id);
      var m := if entry.fd in round.readable then Turned(h.alive, h.net, entry.id) else n;
      ReadTurnsElsewhere(m, snapshot, k + 1, round, replies, id);
    }
  }

  predicate Distinct(snapshot: seq<Entry>)
  {
    forall i, j :: 0 <= i < j < |snapshot| ==> snapshot[i].id != snapshot[j].id
  }

  lemma {:induction false} ReadTurnsHere(
      n: Net, snapshot: seq<Entry>, k: nat, i: nat, round: Round, replies: Replies)
    requires k <= i < |snapshot| && Distinct(snapshot)
    requires var s := SliceOf(n, snapshot[i].id);
             s.entry.Some? && s.entry.value.codec == FrameCodec.Run(s.read).state
    ensures var id, s := snapshot[i].id, SliceOf(n, snapshot[i].id);
            var d := Drain(round.recv(id));
            SliceOf(ReadTurns(n, snapshot, k, round, replies), id)
            == if snapshot[i].fd in round.readable then SliceRead(s, d.received, d.dead, replies) else s
    decreases i - k
  {
    var entry := snapshot[k];
    var d := Drain(round.recv(entry.id));
    var h := ReadHandled(n, entry, d, replies);
    var m := if entry.fd in round.readable then Turned(h.alive, h.net, entry.id) else n;
    assert ReadTurns(n, snapshot, k, round, replies) == ReadTurns(m, snapshot, k + 1, round, replies);
    if k < i {
      ReadElsewhere(n, entry, d, replies, snapshot[i].id);
      hide SliceOf, SliceRead, ReadHandled, Dropped, Drain, FrameCodec.Run, ReadTurns;
      ReadTurnsHere(m, snapshot, k + 1, i, round, replies);
    } else {
      if entry.fd in round.readable {
        ReadHere(n, entry, d, replies);
      }
      hide SliceOf, SliceRead, ReadHandled, Dropped, Drain, FrameCodec.Run, ReadTurns;
      ReadTurnsElsewhere(m, snapshot, k + 1, round, replies, entry.id);
    }
  }

  lemma {:induction false} WriteTurnsElsewhere(
      n: Net, snapshot: seq<Entry>, k: nat, writable: set<int>, round: Round, id: nat)
    requires forall j :: k <= j < |snapshot| ==> snapshot[j].id != id
    ensures SliceOf(WriteTurns(n, snapshot, k, writable, round), id) == SliceOf(n, id)
    decreases |snapshot| - k
  {
    hide SliceOf, Write, Survives, Dropped;
    if k < |snapshot| {
      var entry := snapshot[k];
      var results := round.send(entry.id);
      var w := Write(n, entry.id, entry.fd, results);
      WriteElsewhere(n, entry, results, id);
      var m := if entry.fd in writable then Turned(Survives(n, entry.id, results), w, entry.id) else n;
      WriteTurnsElsewhere(m, snapshot, k + 1, writable, round, id);
    }
  }

  lemma {:induction false} WriteTurnsHere(
      n: Net, snapshot: seq<Entry>, k: nat, i: nat, writable: set<int>, round: Round)
    requires k <= i < |snapshot| && Distinct(snapshot)
    ensures var id, s := snapshot[i].id, SliceOf(n, snapshot[i].id);
            SliceOf(WriteTurns(n, snapshot, k, writable, round), id)
            == if snapshot[i].fd in writable then SliceWrite(s, round.send(id)) else s
    decreases i - k
  {
    var entry := snapshot[k];
    var results := round.send(entry.id);
    var w := Write(n, entry.id, entry.fd, results);
    var m := if entry.fd in writable then Turned(Survives(n, entry.id, results), w, entry.id) else n;
    assert WriteTurns(n, snapshot, k, writable, round) == WriteTurns(m, snapshot, k + 1, writable, round);
    if k < i {
      WriteElsewhere(n, entry, results, snapshot[i].id);
      hide SliceOf, SliceWrite, Write, Survives, Dropped, WriteTurns;
      WriteTurnsHere(m, snapshot, k + 1, i, writable, round);
    } else {
      WriteHere(n, entry, results);
      hide SliceOf, SliceWrite, Write, Survives, Dropped, WriteTurns;
      WriteTurnsElsewhere(m, snapshot, k + 1, writable, round, entry.id);
    }
  }

  lemma {:induction false} AcceptAllElsewhere(n: Net, results: seq<AcceptResult>, id: nat)
    requires id < n.nextConnId
    ensures SliceOf(AcceptAll(n, results), id) == SliceOf(n, id)
    decreases |results|
  {
    hide SliceOf;
    if results != [] {
      AcceptElsewhere(n, results[0].fd, id);
      AcceptAllElsewhere(if results[0].nonBlocking then Accept(n, results[0].fd) else n, results[1..], id);
    }
  }

  // ---------- a whole round ----------

  lemma InSnapshot(n: Net, id: nat) returns (i: nat)
    requires Inv(Loop(n, Idle, [], {}, {})) && id in n.connections
    ensures var snapshot := Snapshot(n.connections, n.nextConnId);
            i < |snapshot| && snapshot[i] == Entry(id, n.connections[id].fd) && Distinct(snapshot)
    ensures id < n.nextConnId
    ensures n.connections[id].fd in PendingFds(n) <==> HasPendingData(n.connections[id])
  {
    InTableIsSmall(n);
    SnapshotIs(n.connections, n.nextConnId);
    DistinctFds(n, id);
    hide Inv, Snapshot;
    var snapshot := Snapshot(n.connections, n.nextConnId);
    assert Entry(id, n.connections[id].fd) in snapshot;
    i :| 0 <= i < |snapshot| && snapshot[i] == Entry(id, n.connections[id].fd);
  }

  /** What the invariant says of one live connection between rounds. */
  lemma BetweenRounds(n: Net, id: nat)
    requires Inv(Loop(n, Idle, [], {}, {}))
    ensures Seen(n.trace, HandedOn, id) == FrameCodec.Run(Seen(n.trace, Read, id)).frames
    ensures id in n.connections ==>
              var c := n.connections[id];
              && c.sentOffset <= |c.sendBuf| && c.codec == FrameCodec.Run(Seen(n.trace, Read, id)).state
              && Goodbyes(n.trace, id) == 0
  {
    var l := Loop(n, Idle, [], {}, {});
    assert ViewOk(ViewOf(l, id));
    assert id in n.connections ==> id in Fds(n.connections);
    LawfulTrace(n.trace, id, id);
    hide FrameCodec.Run, Seen, Goodbyes, EncodeAll, Concat, Lawful, Live, EverConnected;
    var handed := Seen(n.trace, HandedOn, id);
    assert handed + [] == handed;
  }

  /** The round of one connection is its turn in the read loop, if it was reported
      readable, and its turn in the write loop, if it was reported writable and had
      something to send when the round began. */
  function SliceRound(s: Slice, id: nat, round: Round, replies: Replies): Slice
    requires s.entry.Some?
  {
    var c, read := s.entry.value, AfterReading(s, id, round, replies);
    if c.fd in round.writable && HasPendingData(c) then SliceWrite(read, round.send(id)) else read
  }

  function AfterReading(s: Slice, id: nat, round: Round, replies: Replies): Slice
    requires s.entry.Some?
  {
    var results := round.recv(id);
    if s.entry.value.fd in round.readable then SliceRead(s, ReceivedFrom(results), EndsDead(results), replies) else s
  }

  lemma RoundSlice(n: Net, round: Round, replies: Replies, id: nat)
    requires Inv(Loop(n, Idle, [], {}, {})) && HandsOutClosed(n, AcceptsOf(round)) && id in n.connections
    ensures SliceOf(RoundNet(n, round, replies), id) == SliceRound(SliceOf(n, id), id, round, replies)
  {
    var i := InSnapshot(n, id);
    BetweenRounds(n, id);
    DrainIs(round.recv(id));
    hide Inv, Snapshot, PendingFds, AcceptAll, HandsOutClosed, ReadTurns, WriteTurns, SliceRead, SliceWrite;
    hide Drain, ReceivedFrom, EndsDead, FrameCodec.Run, Seen, Goodbyes;
    var snapshot := Snapshot(n.connections, n.nextConnId);
    var accepted := AcceptAll(n, AcceptsOf(round));
    AcceptAllElsewhere(n, AcceptsOf(round), id);
    ReadTurnsHere(accepted, snapshot, 0, i, round, replies);
    var read := ReadTurns(accepted, snapshot, 0, round, replies);
    WriteTurnsHere(read, snapshot, 0, i, round.writable * PendingFds(n), round);
  }

  /** The bytes that a round reads from a connection. */
  function ReadInRound(c: Connection, id: nat, round: Round): Bytes
  {
    if c.fd in round.readable then ReceivedFrom(round.recv(id)) else []
  }

  /** The connection is found dead, or the bytes read reach a header over the limit. */
  predicate LostReading(c: Connection, id: nat, round: Round, read: seq<Bytes>)
  {
    && c.fd in round.readable
    && (EndsDead(round.recv(id))
        || (ReadInRound(c, id, round) != [] && Decode(Concat(read + [ReadInRound(c, id, round)])).overLimit))
  }

  lemma SameFrames(read: seq<Bytes>, replies: Replies)
    ensures NewFrames(read, read) == [] && Answers(NewFrames(read, read), replies) == []
  {
    hide FrameCodec.Run;
    var frames := FrameCodec.Run(read).frames;
    assert frames[|frames|..] == [];
  }

  /** What the turn in the read loop adds. */
  lemma SliceReadAdds(s: Slice, received: Bytes, dead: bool, replies: Replies)
    requires s.entry.Some? && s.handed == FrameCodec.Run(s.read).frames
    ensures var r := SliceRead(s, received, dead, replies);
            && r.read == s.read + (if received == [] then [] else [received])
            && r.handed == FrameCodec.Run(r.read).frames
            && s.handed <= r.handed && s.accepted <= r.accepted
            && r.accepted == s.accepted + Answers(r.handed[|s.handed|..], replies)
  {
    var r := SliceRead(s, received, dead, replies);
    var frames := NewFrames(s.read, r.read);
    RunExtended(s.read, received);
    SameFrames(s.read, replies);
    hide FrameCodec.Run, FrameCodec.Fed, NewFrames, Queued, Answers;
    assert s.read + [] == s.read && s.handed + [] == s.handed;
    assert r.handed[|s.handed|..] == frames;
  }

  lemma UnsentQueued(c: Connection, codec: FrameCodec.State, answers: seq<Bytes>)
    requires c.sentOffset <= |c.sendBuf|
    ensures Unsent(Queued(c.(codec := codec), answers)) == Unsent(c) + EncodeAll(answers)
  {
    hide EncodeAll;
  }

  /** And what it leaves of the entry. */
  lemma SliceReadLeaves(s: Slice, received: Bytes, dead: bool, replies: Replies)
    requires s.entry.Some? && s.entry.value.sentOffset <= |s.entry.value.sendBuf|
    ensures var r := SliceRead(s, received, dead, replies);
            var lost := dead || (received != [] && FrameCodec.Run(s.read + [received]).state.error);
            && (r.entry.None? <==> lost)
            && r.goodbyes == s.goodbyes + (if lost then 1 else 0) && r.written == s.written
            && |s.accepted| <= |r.accepted|
            && (r.entry.Some? ==>
                  && r.entry.value.fd == s.entry.value.fd
                  && Unsent(r.entry.value) == Unsent(s.entry.value) + EncodeAll(r.accepted[|s.accepted|..]))
  {
    var r := SliceRead(s, received, dead, replies);
    var answers := Answers(NewFrames(s.read, r.read), replies);
    assert r.accepted[|s.accepted|..] == answers;
    UnsentQueued(s.entry.value, FrameCodec.Run(r.read).state, answers);
    assert r.entry.Some? ==> r.entry.value.fd == s.entry.value.fd;
    hide FrameCodec.Run, NewFrames, Answers, EncodeAll, Unsent, Queued;
  }

  lemma SliceWriteLeaves(s: Slice, results: seq<SendResult>)
    ensures var r := SliceWrite(s, results);
            && r.read == s.read && r.handed == s.handed && r.accepted == s.accepted
            && (s.entry.None? ==> r == s)
            && (s.entry.Some? ==>
                  var pending := Unsent(s.entry.value);
                  var moved, failed := Moved(|pending|, results), FailsSending(|pending|, results);
                  && r.written == s.written + (if moved == 0 then [] else [pending[..moved]])
                  && r.goodbyes == s.goodbyes + (if failed then 1 else 0)
                  && (r.entry.None? <==> failed)
                  && (r.entry.Some? ==> Unsent(r.entry.value) == pending[moved..]
                                        && r.entry.value.fd == s.entry.value.fd))
  {
    if s.entry.Some? {
      FlushIs(s.entry.value, results);
    }
    hide Flush, Moved, FailsSending, Unsent;
    assert s.written + [] == s.written;
  }

  /** In a round the bytes of all successful calls are read in order, the frames that
      they complete are handed on, and the answers are queued in order. */
  ghost predicate ReadDone(before: Slice, after: Slice, id: nat, round: Round, replies: Replies)
    requires before.entry.Some?
  {
    var received := ReadInRound(before.entry.value, id, round);
    && after.read == before.read + (if received == [] then [] else [received])
    && after.handed == FrameCodec.Run(after.read).frames
    && before.handed <= after.handed
    && after.accepted == before.accepted + Answers(after.handed[|before.handed|..], replies)
  }

  /** Then as much of what is pending is written as the socket takes. The connection is
      there afterwards unless its reading or its writing has failed, and if not then its
      owner has been told once. */
  ghost predicate WriteDone(before: Slice, after: Slice, id: nat, round: Round)
    requires before.entry.Some? && |before.accepted| <= |after.accepted|
  {
    var c, results := before.entry.value, round.send(id);
    var pending := Unsent(c) + EncodeAll(after.accepted[|before.accepted|..]);
    var lost := LostReading(c, id, round, before.read);
    var writing := !lost && c.fd in round.writable && HasPendingData(c);
    var moved := if writing then Moved(|pending|, results) else 0;
    var failed := writing && FailsSending(|pending|, results);
    && after.written == before.written + (if moved == 0 then [] else [pending[..moved]])
    && after.goodbyes == (if lost || failed then 1 else 0)
    && (after.entry.None? <==> lost || failed)
    && (after.entry.Some? ==> Unsent(after.entry.value) == pending[moved..] && after.entry.value.fd == c.fd)
  }

  lemma SliceReadDone(s: Slice, id: nat, round: Round, replies: Replies)
    requires s.entry.Some? && s.handed == FrameCodec.Run(s.read).frames
    ensures ReadDone(s, AfterReading(s, id, round, replies), id, round, replies)
  {
    var c, results := s.entry.value, round.recv(id);
    if c.fd in round.readable {
      hide ReceivedFrom, EndsDead, FrameCodec.Run, Answers, SliceRead;
      SliceReadAdds(s, ReceivedFrom(results), EndsDead(results), replies);
    } else {
      NoAnswers(replies);
      hide ReceivedFrom, EndsDead, FrameCodec.Run, Answers, SliceRead;
      assert s.read + [] == s.read && s.accepted + [] == s.accepted && s.handed[|s.handed|..] == [];
    }
  }

  /** How the connection stands between the two loops. */
  ghost predicate ReadLeaves(s: Slice, r: Slice, id: nat, round: Round)
    requires s.entry.Some? && |s.accepted| <= |r.accepted|
  {
    var lost := LostReading(s.entry.value, id, round, s.read);
    && (r.entry.None? <==> lost) && r.goodbyes == (if lost then 1 else 0) && r.written == s.written
    && (r.entry.Some? ==>
          && r.entry.value.fd == s.entry.value.fd
          && Unsent(r.entry.value) == Unsent(s.entry.value) + EncodeAll(r.accepted[|s.accepted|..]))
  }

  /** The decoder's flag says whether the bytes read reach a header over the limit. */
  lemma LostIs(c: Connection, id: nat, round: Round, read: seq<Bytes>)
    ensures var received := ReceivedFrom(round.recv(id));
            LostReading(c, id, round, read)
            <==> (c.fd in round.readable
                  && (EndsDead(round.recv(id))
                      || (received != [] && FrameCodec.Run(read + [received]).state.error)))
  {
    var received := ReceivedFrom(round.recv(id));
    FrameCodec.RunIsDecode(read + [received]);
    hide ReceivedFrom, EndsDead, FrameCodec.Run, Decode, Concat;
  }

  lemma SliceReadLost(s: Slice, id: nat, round: Round, replies: Replies)
    requires s.entry.Some? && s.entry.value.sentOffset <= |s.entry.value.sendBuf| && s.goodbyes == 0
    ensures |s.accepted| <= |AfterReading(s, id, round, replies).accepted|
    ensures ReadLeaves(s, AfterReading(s, id, round, replies), id, round)
  {
    var c, results := s.entry.value, round.recv(id);
    LostIs(c, id, round, s.read);
    if c.fd in round.readable {
      hide LostReading, ReceivedFrom, EndsDead, FrameCodec.Run, EncodeAll, SliceRead, Unsent;
      SliceReadLeaves(s, ReceivedFrom(results), EndsDead(results), replies);
    } else {
      hide LostReading, ReceivedFrom, EndsDead, FrameCodec.Run, SliceRead;
      assert s.accepted[|s.accepted|..] == [] && EncodeAll([]) == [] && Unsent(c) + [] == Unsent(c);
    }
  }

  lemma SliceWriteDone(s: Slice, r: Slice, id: nat, round: Round)
    requires s.entry.Some? && |s.accepted| <= |r.accepted| && ReadLeaves(s, r, id, round)
    ensures var c := s.entry.value;
            var after := if c.fd in round.writable && HasPendingData(c) then SliceWrite(r, round.send(id)) else r;
            && after.read == r.read && after.handed == r.handed && after.accepted == r.accepted
            && WriteDone(s, after, id, round)
  {
    hide LostReading, EncodeAll, SliceWrite, Moved, FailsSending, Unsent;
    SliceWriteLeaves(r, round.send(id));
    assert s.written + [] == s.written;
    assert r.entry.Some? ==> Unsent(r.entry.value)[0..] == Unsent(r.entry.value);
  }

  /** A round does for each connection what the system's answers to its calls demand, and
      nothing else. */
  lemma RoundIs(n: Net, round: Round, replies: Replies, id: nat)
    requires Inv(Loop(n, Idle, [], {}, {})) && HandsOutClosed(n, AcceptsOf(round)) && id in n.connections
    ensures var before, after := SliceOf(n, id), SliceOf(RoundNet(n, round, replies), id);
            && ReadDone(before, after, id, round, replies)
            && |before.accepted| <= |after.accepted|
            && WriteDone(before, after, id, round)
  {
    RoundSlice(n, round, replies, id);
    BetweenRounds(n, id);
    hide Inv, HandsOutClosed, RoundNet, FrameCodec.Run, Seen, Goodbyes;
    var s := SliceOf(n, id);
    SliceReadDone(s, id, round, replies);
    SliceReadLost(s, id, round, replies);
    hide AfterReading, SliceWrite, ReadLeaves, WriteDone, Answers, ReceivedFrom;
    SliceWriteDone(s, AfterReading(s, id, round, replies), id, round);
  }

  /** A connection that ends, fails, or sends a header over the limit is not in the table
      after the round, and its owner has been told once. */
  lemma LostIsGone(n: Net, round: Round, replies: Replies, id: nat)
    requires Inv(Loop(n, Idle, [], {}, {})) && HandsOutClosed(n, AcceptsOf(round)) && id in n.connections
    requires LostReading(n.connections[id], id, round, Seen(n.trace, Read, id))
    ensures id !in RoundNet(n, round, replies).connections
    ensures Goodbyes(RoundNet(n, round, replies).trace, id) == 1
  {
    RoundIs(n, round, replies, id);
    hide Inv, HandsOutClosed, RoundNet, LostReading, ReadDone, Seen, Goodbyes, EncodeAll, Unsent;
  }

  /** A connection with bytes to send, reported writable, whose socket takes all of them
      and of the answers queued meanwhile, has nothing left to send after the round. */
  lemma NothingLeft(n: Net, round: Round, replies: Replies, id: nat)
    requires Inv(Loop(n, Idle, [], {}, {})) && HandsOutClosed(n, AcceptsOf(round)) && id in n.connections
    requires var c, results := n.connections[id], round.send(id);
             && !LostReading(c, id, round, Seen(n.trace, Read, id))
             && c.fd in round.writable && HasPendingData(c)
             && var queued := EncodeAll(Seen(RoundNet(n, round, replies).trace, Accepted, id));
                TotalCount(results[..SendCount(results)])
                >= |Unsent(c)| + |queued| - |EncodeAll(Seen(n.trace, Accepted, id))|
    ensures var m := RoundNet(n, round, replies);
            id in m.connections && !HasPendingData(m.connections[id])
  {
    RoundIs(n, round, replies, id);
    var before, after := SliceOf(n, id), SliceOf(RoundNet(n, round, replies), id);
    assert before.accepted <= after.accepted;
    hide Inv, HandsOutClosed, RoundNet, LostReading, ReadDone, Seen, Goodbyes, EncodeAll, TotalCount, SendCount;
    assert after.accepted == before.accepted + after.accepted[|before.accepted|..];
    EncodeAllAppend(before.accepted, after.accepted[|before.accepted|..]);
  }

  // ---------- new connections ----------

  /** Accepted without trouble, and select can watch it. */
  predicate Usable(r: AcceptResult)
  {
    r.nonBlocking && r.fd < FD_SETSIZE
  }

  function UsableCount(results: seq<AcceptResult>): nat
  {
    if results == [] then 0 else (if Usable(results[0]) then 1 else 0) + UsableCount(results[1..])
  }

  lemma {:induction false} AcceptedHere(n: Net, results: seq<AcceptResult>, i: nat)
    requires i < |results| && Usable(results[i])
    ensures var id := n.nextConnId + UsableCount(results[..i]);
            && id < AcceptAll(n, results).nextConnId
            && InTable(AcceptAll(n, results), id) == Some(Connection(results[i].fd, FrameCodec.Fresh, [], 0))
    decreases |results|
  {
    var m := if results[0].nonBlocking then Accept(n, results[0].fd) else n;
    if i == 0 {
      AcceptAllElsewhere(m, results[1..], n.nextConnId);
      NextIdGrows(m, results[1..]);
    } else {
      assert results[..i][1..] == results[1..][..i - 1];
      AcceptedHere(m, results[1..], i - 1);
    }
  }

  lemma {:induction false} NextIdGrows(n: Net, results: seq<AcceptResult>)
    ensures AcceptAll(n, results).nextConnId == n.nextConnId + UsableCount(results)
    decreases |results|
  {
    if results != [] {
      NextIdGrows(if results[0].nonBlocking then Accept(n, results[0].fd) else n, results[1..]);
    }
  }

  /** What has been accepted in this round is not in its snapshot. */
  lemma NewcomersRest(n: Net, round: Round, replies: Replies, id: nat)
    requires id >= n.nextConnId
    ensures SliceOf(RoundNet(n, round, replies), id) == SliceOf(AcceptAll(n, AcceptsOf(round)), id)
  {
    var snapshot := Snapshot(n.connections, n.nextConnId);
    SnapshotIs(n.connections, n.nextConnId);
    assert forall j :: 0 <= j < |snapshot| ==> snapshot[j] in snapshot;
    hide AcceptAll, Snapshot, PendingFds, ReadTurns, WriteTurns, SliceOf;
    var accepted := AcceptAll(n, AcceptsOf(round));
    ReadTurnsElsewhere(accepted, snapshot, 0, round, replies, id);
    var read := ReadTurns(accepted, snapshot, 0, round, replies);
    WriteTurnsElsewhere(read, snapshot, 0, round.writable * PendingFds(n), round, id);
  }

  /** Every usable descriptor that was accepted is a connection after the round, fresh and
      under the next free id. */
  lemma AcceptedIsThere(n: Net, round: Round, replies: Replies, i: nat)
    requires i < |AcceptsOf(round)| && Usable(AcceptsOf(round)[i])
    ensures var id, m := n.nextConnId + UsableCount(AcceptsOf(round)[..i]), RoundNet(n, round, replies);
            id in m.connections && m.connections[id] == Connection(AcceptsOf(round)[i].fd, FrameCodec.Fresh, [], 0)
  {
    AcceptedHere(n, AcceptsOf(round), i);
    hide AcceptAll, RoundNet, UsableCount, Seen, Goodbyes;
    NewcomersRest(n, round, replies, n.nextConnId + UsableCount(AcceptsOf(round)[..i]));
  }

  // ---------- the whole loop ----------

  /** How many reports of select come before the first that fails. */
  function SelectCount(selects: seq<Select>): (k: nat)
    ensures k <= |selects| && (k < |selects| ==> selects[k].SelectFails?)
    ensures forall i :: 0 <= i < k ==> !selects[i].SelectFails?
  {
    if selects == [] || selects[0].SelectFails? then 0 else 1 + SelectCount(selects[1..])
  }

  /** The rounds for which select has reported something. */
  function RoundsOf(selects: seq<Select>): seq<Round>
  {
    if selects == [] then []
    else (if selects[0].Ready? then [selects[0].round] else []) + RoundsOf(selects[1..])
  }

  function AllRounds(n: Net, rounds: seq<Round>, replies: Replies): Net
    decreases |rounds|
  {
    if rounds == [] then n else AllRounds(RoundNet(n, rounds[0], replies), rounds[1..], replies)
  }

  /** A timeout or an interruption ends nothing and does nothing; the loop makes the
      rounds up to the first failure of select, then it closes everything. */
  lemma {:induction false} LoopIs(n: Net, selects: seq<Select>, replies: Replies)
    ensures LoopNet(n, selects, replies)
         == CloseAll(AllRounds(n, RoundsOf(selects[..SelectCount(selects)]), replies))
    decreases |selects|
  {
    hide RoundNet, CloseAll;
    var k := SelectCount(selects);
    if k > 0 {
      var m := if selects[0].Ready? then RoundNet(n, selects[0].round, replies) else n;
      LoopIs(m, selects[1..], replies);
      assert selects[..k][1..] == selects[1..][..k - 1];
      var later := RoundsOf(selects[1..][..k - 1]);
      if selects[0].Ready? {
        assert ([selects[0].round] + later)[1..] == later;
      } else {
        assert [] + later == later;
      }
    }
  }
}

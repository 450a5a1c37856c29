/** All runs of the event loop, and what follows for every connection. */
module LoopRuns {
  import opened Bytes
  import opened Framing
  import FrameCodec
  import opened Network
  import opened EventLoop
  import opened LoopInvariants

  ghost predicate Inv(l: Loop)
  {
    && TableOk(l.net) && SnapshotOk(l) && LatestOk(l) && FlowsOk(l) && ToldOk(l)
    && (l.phase == Over ==> l.net.connections == map[])
  }

  /** Everyone whose connection is gone has been told once, the one being told excepted.
      The exit path closes without telling. */
  ghost predicate ToldOk(l: Loop)
  {
    l.phase != Over ==>
      forall id: nat :: Departed(l, id) ==> Goodbyes(l.net.trace, id) == 1
  }

  /** Once connected, not any more, and not the one whose owner is about to be told. */
  predicate Departed(l: Loop, id: nat)
  {
    && EverConnected(l.net.trace, id) && id !in l.net.connections
    && !(l.phase.Notifying? && l.phase.k < |l.snapshot| && l.snapshot[l.phase.k].id == id)
  }

  /** Steps that connect, remove and tell nobody. */
  lemma ToldSame(l: Loop, r: Loop)
    requires ToldOk(l) && (l.phase == Over ==> r.phase == Over)
    requires forall id: nat :: EverConnected(r.net.trace, id) ==> EverConnected(l.net.trace, id)
    requires forall id: nat :: Goodbyes(r.net.trace, id) == Goodbyes(l.net.trace, id)
    requires forall id: nat :: id in l.net.connections ==> id in r.net.connections
    requires l.phase.Notifying? ==> r.phase == l.phase && r.snapshot == l.snapshot
    ensures ToldOk(r)
  {
    hide EverConnected, Goodbyes;
  }

  lemma StartKeeps()
    ensures Inv(AtStart())
  {
    var l := AtStart();
    assert Live([]) == map[] == Fds(map[]);
    forall id: nat
      ensures ViewOk(ViewOf(l, id))
    {
      assert EncodeAll([]) == [] && Concat<Byte>([]) == [];
      assert FrameCodec.Run([]).frames == [];
    }
  }

  /** Steps that neither deliver a payload nor change who is in the table. */
  lemma LatestSame(l: Loop, r: Loop)
    requires LatestOk(l) && (l.phase == Over ==> r.phase == Over)
    requires LastDelivered(r.net.trace) == LastDelivered(l.net.trace) && r.net.latest == l.net.latest
    requires forall id: nat :: id in r.net.connections <==> id in l.net.connections
    requires r.snapshot == l.snapshot || !l.phase.Notifying?
    requires l.phase.Notifying? <==> r.phase.Notifying?
    requires l.phase.Notifying? ==> r.phase == l.phase
    ensures LatestOk(r)
  {
  }

  lemma EnqueueKeeps(l: Loop, id: nat, payload: Bytes)
    requires Inv(l)
    ensures Inv(Next(l, EnqueueBy(id, payload)))
  {
    var r := Next(l, EnqueueBy(id, payload));
    TableEnqueue(l.net, id, payload);
    FlowsEnqueue(l, id, payload);
    OneMore(l.net.trace, Enqueued(id, payload));
    hide TableOk, FlowsOk, LatestOk, SnapshotOk, Fds, Encode;
    SnapshotFrame(l, r);
    LatestSame(l, r);
    ToldSame(l, r);
  }

  lemma BeginKeeps(l: Loop, readable: set<int>, writable: set<int>)
    requires Inv(l) && l.phase == Idle
    ensures Inv(Next(l, Begin(readable, writable)))
  {
    var r := Next(l, Begin(readable, writable));
    SnapshotBegin(l, readable, writable);
    hide TableOk, FlowsOk, SnapshotOk;
    AllKept(l, r);
    LatestSame(l, r);
    ToldSame(l, r);
  }

  lemma AcceptKeeps(l: Loop, fd: int)
    requires Inv(l) && l.phase == Accepting && fd !in l.net.open
    ensures Inv(Next(l, AcceptOne(fd)))
  {
    TableAccept(l.net, fd);
    FlowsAccept(l, fd);
    SnapshotAccept(l, fd);
    LastWasConnected(l.net.trace);
    OneMore(l.net.trace, Connected(l.net.nextConnId, fd));
    assert !EverConnected(l.net.trace, l.net.nextConnId);
    assert l.net.nextConnId > 0;
    hide TableOk, FlowsOk, SnapshotOk, EverConnected, LastDelivered;
  }

  lemma PassKeeps(l: Loop)
    requires Inv(l)
    ensures Inv(Next(l, Pass))
  {
    var r := Next(l, Pass);
    if r != l {
      hide TableOk, FlowsOk, LatestOk;
      if r.phase != Idle {
        SnapshotFrame(l, r);
      }
      AllKept(l, r);
      LatestSame(l, r);
      ToldSame(l, r);
    }
  }

  lemma AcceptDoneKeeps(l: Loop)
    requires Inv(l) && l.phase == Accepting
    ensures Inv(Next(l, AcceptDone))
  {
    var r := Next(l, AcceptDone);
    hide TableOk, FlowsOk, LatestOk, SnapshotOk;
    SnapshotFrame(l, r);
    AllKept(l, r);
    LatestSame(l, r);
    ToldSame(l, r);
  }

  lemma ReceiveKeeps(l: Loop, received: Bytes, dead: bool)
    requires Inv(l) && l.phase.Reading? && At(l, l.phase.k, l.readable)
    ensures Inv(Next(l, Receive(received, dead)))
  {
    var entry := l.snapshot[l.phase.k];
    var r := Next(l, Receive(received, dead));
    assert Owns(l.net, entry);
    OneMore(l.net.trace, Received(entry.id, entry.fd, received));
    if received == [] {
      hide TableOk, FlowsOk, LatestOk, SnapshotOk;
      SnapshotFrame(l, r);
      AllKept(l, r);
      LatestSame(l, r);
      ToldSame(l, r);
    } else {
      TableFeed(l.net, entry, received);
      FlowsReceive(l, received, dead);
      hide TableOk, FlowsOk, LatestOk, SnapshotOk, Fds, FrameCodec.Fed;
      SnapshotFrame(l, r);
      LatestSame(l, r);
      ToldSame(l, r);
    }
  }

  lemma DeliverKeeps(l: Loop)
    requires Inv(l) && l.phase.Delivering? && l.phase.frames != []
    ensures Inv(Next(l, DeliverOne))
  {
    var id := l.snapshot[l.phase.k].id;
    var r := Next(l, DeliverOne);
    var h := Delivered(id, l.phase.frames[0]);
    assert Owns(l.net, l.snapshot[l.phase.k]);
    assert id in Fds(l.net.connections);
    OneMore(l.net.trace, h);
    TableSame(l.net, r.net, h);
    FlowsDeliver(l);
    hide TableOk, FlowsOk, SnapshotOk, Fds, EverConnected, LastDelivered;
    SnapshotFrame(l, r);
  }

  /** A connection leaves the table and its owner is told next. */
  lemma RemoveKeeps(l: Loop, r: Loop, k: nat)
    requires Inv(l) && k < |l.snapshot|
    requires (l.phase.Delivering? && l.phase.k == k && l.phase.frames == []) || l.phase.Writing?
    requires l.snapshot[k].id in l.net.connections
    requires r == l.(net := Remove(l.net, l.snapshot[k].id), phase := Notifying(k, l.phase.Writing?))
    ensures Inv(r)
  {
    var id := l.snapshot[k].id;
    TableRemove(l.net, id);
    SnapshotRemove(l, r, k);
    OneMore(l.net.trace, Closed(id));
    hide TableOk, FlowsOk, SnapshotOk, EverConnected, LastDelivered, Goodbyes;
    AllKept(l, r);
  }

  lemma SettleKeeps(l: Loop)
    requires Inv(l) && l.phase.Delivering? && l.phase.frames == []
    ensures Inv(Next(l, Settle))
  {
    var r := Next(l, Settle);
    var id := l.snapshot[l.phase.k].id;
    if !l.phase.dead || id !in l.net.connections {
      hide TableOk, FlowsOk, LatestOk;
      SnapshotFrame(l, r);
      AllKept(l, r);
      LatestSame(l, r);
      ToldSame(l, r);
    } else {
      RemoveKeeps(l, r, l.phase.k);
    }
  }

  /** The send loop itself, before its caller looks at the result. */
  lemma FlushedKeeps(l: Loop, results: seq<SendResult>)
    requires Inv(l) && l.phase.Writing? && At(l, l.phase.k, l.writable) && Owns(l.net, l.snapshot[l.phase.k])
    ensures var entry := l.snapshot[l.phase.k];
            Inv(l.(net := Write(l.net, entry.id, entry.fd, results)))
  {
    var entry := l.snapshot[l.phase.k];
    var m := l.(net := Write(l.net, entry.id, entry.fd, results));
    var bytes := Flush(l.net.connections[entry.id], results).bytes;
    OneMore(l.net.trace, Sent(entry.id, entry.fd, bytes));
    TableWrite(l.net, entry, results);
    WriteIs(l.net, entry.id, entry.fd, results);
    FlowsWrite(l, m, entry.id, entry.fd, results);
    hide TableOk, FlowsOk, LatestOk, SnapshotOk, ToldOk, Fds, Flush, Write, EverConnected, LastDelivered, Goodbyes;
    SnapshotFrame(l, m);
    LatestSame(l, m);
    ToldSame(l, m);
  }

  lemma WriteKeeps(l: Loop, results: seq<SendResult>)
    requires Inv(l) && l.phase.Writing? && At(l, l.phase.k, l.writable)
    ensures Inv(Next(l, WriteOut(results)))
  {
    var k := l.phase.k;
    var entry := l.snapshot[k];
    var r := Next(l, WriteOut(results));
    if entry.id !in l.net.connections {
      hide TableOk, FlowsOk, LatestOk;
      SnapshotFrame(l, r);
      AllKept(l, r);
      LatestSame(l, r);
      ToldSame(l, r);
    } else {
      FlushedKeeps(l, results);
      WriteIs(l.net, entry.id, entry.fd, results);
      var m := l.(net := Write(l.net, entry.id, entry.fd, results));
      hide TableOk, FlowsOk, LatestOk, Flush, Write;
      if Survives(l.net, entry.id, results) {
        hide SnapshotOk;
        SnapshotFrame(m, r);
        AllKept(m, r);
        LatestSame(m, r);
        ToldSame(m, r);
      } else {
        hide SnapshotOk;
        RemoveKeeps(m, r, k);
      }
    }
  }

  lemma NotifyKeeps(l: Loop)
    requires Inv(l) && l.phase.Notifying?
    ensures Inv(Next(l, NotifyGone))
  {
    var r := Next(l, NotifyGone);
    var id := l.snapshot[l.phase.k].id;
    assert Gone(l.net, id);
    assert id !in Fds(l.net.connections);
    OneMore(l.net.trace, Disconnected(id));
    TableSame(l.net, r.net, Disconnected(id));
    SnapshotNotify(l);
    hide TableOk, FlowsOk, SnapshotOk, Fds, EverConnected, LastDelivered, Goodbyes;
    AllKept(l, r);
  }

  lemma FinishKeeps(l: Loop)
    requires Inv(l) && l.phase == Idle
    ensures Inv(Next(l, Finish))
  {
    var r := Next(l, Finish);
    TableCloseAll(l.net);
    hide TableOk, FlowsOk;
    AllKept(l, r);
  }

  lemma NextKeeps(l: Loop, e: Event)
    requires Inv(l)
    ensures Inv(Next(l, e))
  {
    var r := Next(l, e);
    if r != l {
      assert l.phase.Delivering? || l.phase.Notifying? ==> l.phase.k < |l.snapshot|;
      hide Inv;
      match e
      case EnqueueBy(id, payload) => EnqueueKeeps(l, id, payload);
      case Begin(readable, writable) => BeginKeeps(l, readable, writable);
      case AcceptOne(fd) => AcceptKeeps(l, fd);
      case AcceptDone => AcceptDoneKeeps(l);
      case Pass => PassKeeps(l);
      case Receive(received, dead) => ReceiveKeeps(l, received, dead);
      case DeliverOne => DeliverKeeps(l);
      case Settle => SettleKeeps(l);
      case WriteOut(results) => WriteKeeps(l, results);
      case NotifyGone => NotifyKeeps(l);
      case Finish => FinishKeeps(l);
    }
  }

  lemma {:induction false} RunsKeep(l: Loop, events: seq<Event>)
    requires Inv(l)
    ensures Inv(Runs(l, events))
    decreases |events|
  {
    hide Inv, Next;
    if events != [] {
      NextKeeps(l, events[0]);
      RunsKeep(Next(l, events[0]), events[1..]);
    }
  }

  // ---------- main results ----------

  /** Over all runs: what happens is lawful (ids are new and never 0, recv and send act
      only on a descriptor while the id that they act for owns it), nobody is told twice
      that a connection is gone, and the open descriptors are those in the table. */
  lemma RunsAreLawful(events: seq<Event>, id: nat)
    ensures var n := Runs(AtStart(), events).net;
            && Lawful(n.trace)
            && Live(n.trace) == Fds(n.connections)
            && n.open == Fds(n.connections).Values
            && Goodbyes(n.trace, id) <= 1
            && (id in n.connections ==> id != 0 && Goodbyes(n.trace, id) == 0)
  {
    StartKeeps();
    RunsKeep(AtStart(), events);
    var n := Runs(AtStart(), events).net;
    LawfulTrace(n.trace, id, id);
    assert id in n.connections <==> id in Fds(n.connections);
  }

  /** Between rounds the disconnect callback has run exactly once for every connection
      that is gone, and not at all for one that is there. */
  lemma ToldOnce(events: seq<Event>, id: nat)
    requires var l := Runs(AtStart(), events);
             l.phase == Idle && EverConnected(l.net.trace, id)
    ensures var n := Runs(AtStart(), events).net;
            Goodbyes(n.trace, id) == if id in n.connections then 0 else 1
  {
    RunsAreLawful(events, id);
    StartKeeps();
    RunsKeep(AtStart(), events);
    hide TableOk, FlowsOk, SnapshotOk, LatestOk;
  }

  /** Between rounds the manager's latest connection is the one that delivered the last
      payload, if that is still there, and 0 otherwise. */
  lemma LatestAtRoundEnd(events: seq<Event>)
    requires Runs(AtStart(), events).phase == Idle
    ensures var n := Runs(AtStart(), events).net;
            n.latest == if LastDelivered(n.trace) in n.connections then LastDelivered(n.trace) else 0
  {
    StartKeeps();
    RunsKeep(AtStart(), events);
    hide TableOk, FlowsOk, SnapshotOk;
  }

  /** What has been written to a connection is a prefix of the encoding of what was
      accepted for it, and all of it once a live connection has nothing left to send. */
  lemma WrittenIsEncoded(l: Loop, id: nat)
    requires Inv(l)
    ensures var n := l.net;
            var encoded := EncodeAll(Seen(n.trace, Accepted, id));
            && Concat(Seen(n.trace, Written, id)) <= encoded
            && (id in n.connections && !HasPendingData(n.connections[id]) ==>
                  Concat(Seen(n.trace, Written, id)) == encoded)
  {
    assert ViewOk(ViewOf(l, id));
    hide TableOk, SnapshotOk, LatestOk, FlowsOk, ToldOk, EncodeAll, Concat, Seen, FrameCodec.Run;
  }

  /** Stream delivery: whatever part of the bytes written so far has arrived, and however
      it was cut, the peer's decoder has produced a prefix of the payloads accepted for
      the connection, all of them once everything is flushed and has arrived. */
  lemma DeliveredInOrder(events: seq<Event>, id: nat, chunks: seq<Bytes>)
    requires var n := Runs(AtStart(), events).net;
             && WithinLimit(Seen(n.trace, Accepted, id))
             && Concat(chunks) <= Concat(Seen(n.trace, Written, id))
    ensures var n := Runs(AtStart(), events).net;
            var out := FrameCodec.Run(chunks);
            && !out.state.error
            && out.frames <= Seen(n.trace, Accepted, id)
            && (id in n.connections && !HasPendingData(n.connections[id])
                && Concat(chunks) == Concat(Seen(n.trace, Written, id)) ==>
                  out.frames == Seen(n.trace, Accepted, id) && out.state.buf == [])
  {
    StartKeeps();
    RunsKeep(AtStart(), events);
    hide Inv, Runs, EncodeAll, Concat, FrameCodec.Run, Decode, Seen;
    WrittenIsEncoded(Runs(AtStart(), events), id);
    PeerDecodes(Seen(Runs(AtStart(), events).net.trace, Accepted, id), chunks);
  }

  lemma PeerDecodes(payloads: seq<Bytes>, chunks: seq<Bytes>)
    requires WithinLimit(payloads) && Concat(chunks) <= EncodeAll(payloads)
    ensures var out := FrameCodec.Run(chunks);
            && !out.state.error && out.frames <= payloads
            && (Concat(chunks) == EncodeAll(payloads) ==> out.frames == payloads && out.state.buf == [])
  {
    hide EncodeAll, Concat, FrameCodec.Run, Decode;
    var received, encoded := Concat(chunks), EncodeAll(payloads);
    DecodePrefixOfEncoded(payloads, received, encoded[|received|..]);
    FrameCodec.RunIsDecode(chunks);
  }

  /** A payload over the limit may be accepted too. The peer then gets the payloads
      before it and nothing else, and its decoder fails exactly when the header of the
      first such payload has arrived. */
  lemma OversizedIsFatal(events: seq<Event>, id: nat, chunks: seq<Bytes>, k: nat)
    requires var n := Runs(AtStart(), events).net;
             var queued := Seen(n.trace, Accepted, id);
             && k < |queued| && WithinLimit(queued[..k]) && MAX_PAYLOAD < |queued[k]| < 0x1_0000_0000
             && Concat(chunks) <= Concat(Seen(n.trace, Written, id))
    ensures var queued := Seen(Runs(AtStart(), events).net.trace, Accepted, id);
            var out := FrameCodec.Run(chunks);
            && out.frames <= queued[..k]
            && (out.state.error <==> |Concat(chunks)| >= |EncodeAll(queued[..k])| + HEADER_LENGTH)
            && (|Concat(chunks)| >= |EncodeAll(queued[..k])| ==> Decode(Concat(chunks)).frames == queued[..k])
  {
    StartKeeps();
    RunsKeep(AtStart(), events);
    hide Inv, Runs, EncodeAll, Concat, FrameCodec.Run, Decode, Seen;
    WrittenIsEncoded(Runs(AtStart(), events), id);
    var queued := Seen(Runs(AtStart(), events).net.trace, Accepted, id);
    DecodeUpToOversized(queued, k, Concat(chunks));
    FrameCodec.RunIsDecode(chunks);
    FrameCodec.RunIsPrefix(chunks);
  }

  /** The other direction: when a peer sends encoded payloads within the limit, what the
      message callback has got is, at any time, a prefix of them; between rounds it is
      exactly the frames complete in the bytes read. */
  lemma ReceivedInOrder(events: seq<Event>, id: nat, payloads: seq<Bytes>)
    requires WithinLimit(payloads)
    requires Concat(Seen(Runs(AtStart(), events).net.trace, Read, id)) <= EncodeAll(payloads)
    ensures var l := Runs(AtStart(), events);
            var got := Seen(l.net.trace, HandedOn, id);
            && got <= payloads
            && (!l.phase.Delivering? ==> got == Decode(Concat(Seen(l.net.trace, Read, id))).frames)
            && (!l.phase.Delivering? && Concat(Seen(l.net.trace, Read, id)) == EncodeAll(payloads) ==> got == payloads)
  {
    StartKeeps();
    RunsKeep(AtStart(), events);
    hide Inv, Runs, EncodeAll, Concat, Decode, Seen;
    HandedOnInOrder(Runs(AtStart(), events), id, payloads);
  }

  /** The same, in any state that the loop keeps. */
  lemma HandedOnInOrder(l: Loop, id: nat, payloads: seq<Bytes>)
    requires Inv(l) && WithinLimit(payloads)
    requires Concat(Seen(l.net.trace, Read, id)) <= EncodeAll(payloads)
    ensures var got := Seen(l.net.trace, HandedOn, id);
            && got <= payloads
            && (!l.phase.Delivering? ==> got == Decode(Concat(Seen(l.net.trace, Read, id))).frames)
            && (!l.phase.Delivering? && Concat(Seen(l.net.trace, Read, id)) == EncodeAll(payloads) ==> got == payloads)
  {
    var chunks, got := Seen(l.net.trace, Read, id), Seen(l.net.trace, HandedOn, id);
    assert ViewOk(ViewOf(l, id));
    assert l.phase.Delivering? || Waiting(l, id) == [];
    hide Inv, Runs, EncodeAll, Concat, FrameCodec.Run, Decode, Seen, Waiting, Unsent, EverConnected;
    CutInOrder(chunks, got, Waiting(l, id), payloads);
  }

  /** As soon as the last byte of a payload has been read, and the frames cut from that
      read have been handed on, the callback has got this payload and those before it. */
  lemma ReceivedOnceRead(l: Loop, id: nat, payloads: seq<Bytes>, i: nat)
    requires Inv(l) && WithinLimit(payloads) && i < |payloads| && !l.phase.Delivering?
    requires EncodeAll(payloads[..i + 1]) <= Concat(Seen(l.net.trace, Read, id)) <= EncodeAll(payloads)
    ensures var got := Seen(l.net.trace, HandedOn, id);
            payloads[..i + 1] <= got <= payloads
  {
    hide Inv, EncodeAll, Concat, Decode, Seen;
    HandedOnInOrder(l, id, payloads);
    var read, head := Concat(Seen(l.net.trace, Read, id)), EncodeAll(payloads[..i + 1]);
    var tail := read[|head|..];
    assert head + tail == read;
    DecodeEncodeAll(payloads[..i + 1], tail);
  }

  lemma CutInOrder(chunks: seq<Bytes>, got: seq<Bytes>, waiting: seq<Bytes>, payloads: seq<Bytes>)
    requires WithinLimit(payloads) && Concat(chunks) <= EncodeAll(payloads)
    requires got + waiting == FrameCodec.Run(chunks).frames
    ensures got <= payloads
    ensures waiting == [] ==> got == Decode(Concat(chunks)).frames
    ensures waiting == [] && Concat(chunks) == EncodeAll(payloads) ==> got == payloads
  {
    var read, encoded := Concat(chunks), EncodeAll(payloads);
    hide EncodeAll, Concat, FrameCodec.Run, Decode;
    DecodePrefixOfEncoded(payloads, read, encoded[|read|..]);
    FrameCodec.RunIsDecode(chunks);
    assert waiting == [] ==> got + waiting == got;
  }

  /** On any stream at all, what the message callback has got is a prefix of the
      reference decoding of the bytes read from the connection. */
  lemma NothingInvented(events: seq<Event>, id: nat)
    ensures var l := Runs(AtStart(), events);
            Seen(l.net.trace, HandedOn, id) <= Decode(Concat(Seen(l.net.trace, Read, id))).frames
  {
    StartKeeps();
    RunsKeep(AtStart(), events);
    var l := Runs(AtStart(), events);
    assert ViewOk(ViewOf(l, id));
    hide FrameCodec.Run, Decode, Concat, Seen, Runs, EncodeAll;
    FrameCodec.RunIsPrefix(Seen(l.net.trace, Read, id));
  }
}

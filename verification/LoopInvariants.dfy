/** What every run of the event loop keeps, whatever the system and other threads do. */
module LoopInvariants {
  import opened Bytes
  import opened Framing
  import FrameCodec
  import opened Network
  import opened EventLoop

  // ---------- the snapshot ----------

  /** Steps that leave the round's bookkeeping alone. */
  lemma SnapshotFrame(l: Loop, r: Loop)
    requires SnapshotOk(l) && r.snapshot == l.snapshot
    requires r.phase == l.phase
          || (!r.phase.Delivering? && !r.phase.Notifying? && !l.phase.Idle? && !l.phase.Over?
              && (ReadFrom(r.phase, |l.snapshot|) >= ReadFrom(l.phase, |l.snapshot|)
                  || ReadFrom(r.phase, |l.snapshot|) >= |l.snapshot|))
          || (r.phase.Delivering? && !l.phase.Idle? && !l.phase.Over? && r.phase.k < |l.snapshot|
              && r.phase.k >= ReadFrom(l.phase, |l.snapshot|))
    requires Fds(r.net.connections) == Fds(l.net.connections)
    requires forall id: nat :: EverConnected(l.net.trace, id) ==> EverConnected(r.net.trace, id)
    requires r.phase.Notifying? ==> forall id: nat :: Goodbyes(r.net.trace, id) == Goodbyes(l.net.trace, id)
    ensures SnapshotOk(r)
  {
    hide EverConnected, Goodbyes;
    assert forall id :: id in Fds(l.net.connections) ==> Fds(l.net.connections)[id] == l.net.connections[id].fd;
    assert forall id :: id in Fds(r.net.connections) ==> Fds(r.net.connections)[id] == r.net.connections[id].fd;
    assert forall id :: id in l.net.connections <==> id in Fds(l.net.connections);
    assert forall id :: id in r.net.connections <==> id in Fds(r.net.connections);
  }

  lemma SnapshotBegin(l: Loop, readable: set<int>, writable: set<int>)
    requires TableOk(l.net) && l.phase == Idle
    ensures SnapshotOk(Next(l, Begin(readable, writable)))
  {
    var n := l.net;
    var s := Snapshot(n.connections, n.nextConnId);
    SnapshotIs(n.connections, n.nextConnId);
    forall i | 0 <= i < |s|
      ensures Owns(n, s[i]) && EverConnected(n.trace, s[i].id)
    {
      assert s[i] in s;
      assert s[i].id in Fds(n.connections);
      LawfulTrace(n.trace, s[i].id, s[i].id);
    }
    hide EverConnected, Goodbyes, Snapshot;
  }

  lemma SnapshotAccept(l: Loop, fd: int)
    requires TableOk(l.net) && SnapshotOk(l) && l.phase == Accepting && fd !in l.net.open
    ensures SnapshotOk(Next(l, AcceptOne(fd)))
  {
    TableAccept(l.net, fd);
    hide EverConnected, Goodbyes;
    forall i | 0 <= i < |l.snapshot|
      ensures l.snapshot[i].id != l.net.nextConnId
    {
      assert EverConnected(l.net.trace, l.snapshot[i].id);
    }
  }

  lemma SnapshotRemove(l: Loop, r: Loop, k: nat)
    requires TableOk(l.net) && SnapshotOk(l) && k < |l.snapshot|
    requires (l.phase.Delivering? && l.phase.k == k) || l.phase.Writing?
    requires l.snapshot[k].id in l.net.connections
    requires r == l.(net := Remove(l.net, l.snapshot[k].id), phase := Notifying(k, l.phase.Writing?))
    ensures SnapshotOk(r)
  {
    TableRemove(l.net, l.snapshot[k].id);
    hide EverConnected, Goodbyes;
  }

  lemma SnapshotNotify(l: Loop)
    requires SnapshotOk(l) && l.phase.Notifying?
    ensures SnapshotOk(Next(l, NotifyGone))
  {
    var id := l.snapshot[l.phase.k].id;
    OneMore(l.net.trace, Disconnected(id));
    hide EverConnected, Goodbyes;
  }

  // ---------- the latest connection ----------

  /** The manager's latest connection is the one that delivered last, until the callback
      has said that it is gone. */
  ghost predicate LatestOk(l: Loop)
  {
    var last := LastDelivered(l.net.trace);
    l.phase != Over ==>
      l.net.latest ==
        if last in l.net.connections
           || (l.phase.Notifying? && l.phase.k < |l.snapshot| && l.snapshot[l.phase.k].id == last) then last else 0
  }

  lemma {:induction false} LastWasConnected(trace: Trace)
    requires Lawful(trace)
    ensures LastDelivered(trace) == 0 || EverConnected(trace, LastDelivered(trace))
  {
    if trace != [] {
      LastWasConnected(Before(trace));
      if Last(trace).Delivered? {
        LawfulTrace(Before(trace), Last(trace).id, Last(trace).id);
      }
    }
  }

  // ---------- the flows ----------

  /** Frames cut from a connection's bytes and not yet handed on. */
  function Waiting(l: Loop, id: nat): seq<Bytes>
  {
    if l.phase.Delivering? && l.phase.k < |l.snapshot| && l.snapshot[l.phase.k].id == id then l.phase.frames else []
  }

  /** Everything about one connection: what passed over it, whether it was ever there,
      its entry in the table, and the frames still to be handed on. */
  datatype View = View(
    accepted: seq<Bytes>, written: Bytes, read: seq<Bytes>, handed: seq<Bytes>,
    known: bool, entry: Option<Connection>, waiting: seq<Bytes>)

  function InTable(n: Net, id: nat): Option<Connection>
  {
    if id in n.connections then Some(n.connections[id]) else None
  }

  function ViewOf(l: Loop, id: nat): View
  {
    var t := l.net.trace;
    View(Seen(t, Accepted, id), Concat(Seen(t, Written, id)), Seen(t, Read, id), Seen(t, HandedOn, id),
         EverConnected(t, id), InTable(l.net, id), Waiting(l, id))
  }

  /** What has been written is the encoding of what was accepted, up to some byte, and
      for a live connection the rest is in its buffer; what has been handed on is what
      the decoder made of the bytes read. */
  ghost predicate ViewOk(v: View)
  {
    && v.written <= EncodeAll(v.accepted)
    && (v.entry.Some? ==>
          var c := v.entry.value;
          && c.sentOffset <= |c.sendBuf|
          && EncodeAll(v.accepted) == v.written + Unsent(c)
          && c.codec == FrameCodec.Run(v.read).state)
    && (!v.known ==> v.accepted == v.read == v.handed == v.waiting == [] && v.written == [])
    && v.handed + v.waiting == FrameCodec.Run(v.read).frames
  }

  ghost predicate FlowsOk(l: Loop)
  {
    forall id: nat :: ViewOk(ViewOf(l, id))
  }

  // ---------- one connection at a time ----------

  lemma ViewAfter(l: Loop, r: Loop, h: Happening, id: nat)
    requires r.net.trace == l.net.trace + [h]
    ensures ViewOf(r, id) == ViewOf(l, id).(
              accepted := ViewOf(l, id).accepted + Part(h, Accepted, id),
              written := ViewOf(l, id).written + Concat(Part(h, Written, id)),
              read := ViewOf(l, id).read + Part(h, Read, id),
              handed := ViewOf(l, id).handed + Part(h, HandedOn, id),
              known := EverConnected(l.net.trace, id) || (h.Connected? && h.id == id),
              entry := InTable(r.net, id),
              waiting := Waiting(r, id))
  {
    hide Seen, Concat, EverConnected, Waiting, Part;
    SeenSnoc(l.net.trace, h, id);
    OneMore(l.net.trace, h);
    ConcatAppend(Seen(l.net.trace, Written, id), Part(h, Written, id));
  }

  lemma NothingAdded(v: View)
    ensures v.accepted + [] == v.accepted && v.written + Concat([]) == v.written
    ensures v.read + [] == v.read && v.handed + [] == v.handed
  {
    assert Concat<Byte>([]) == [];
  }

  /** A connection that is not touched, or leaves the table, stays in order. */
  lemma ViewGone(v: View)
    requires ViewOk(v)
    ensures ViewOk(v.(entry := None))
  {
  }

  lemma ViewPassed(l: Loop, r: Loop, h: Happening, id: nat)
    requires r.net.trace == l.net.trace + [h] && Passes(h, id)
    ensures ViewOf(r, id) == ViewOf(l, id).(entry := InTable(r.net, id), waiting := Waiting(r, id))
  {
    ViewAfter(l, r, h, id);
    NothingAdded(ViewOf(l, id));
    KnownIs(l, id);
    hide ViewOf, Waiting, EverConnected, Concat;
    assert forall flow :: Part(h, flow, id) == [];
  }

  lemma ViewKept(l: Loop, r: Loop, id: nat)
    requires ViewOk(ViewOf(l, id))
    requires r.net.trace == l.net.trace
          || (l.net.trace <= r.net.trace && |r.net.trace| == |l.net.trace| + 1 && Passes(Last(r.net.trace), id))
    requires InTable(r.net, id) == None || InTable(r.net, id) == InTable(l.net, id)
    requires Waiting(r, id) == Waiting(l, id)
    ensures ViewOk(ViewOf(r, id))
  {
    hide ViewOk, Waiting, EverConnected, Seen, Concat, InTable;
    if r.net.trace != l.net.trace {
      assert r.net.trace == l.net.trace + [Last(r.net.trace)];
      ViewPassed(l, r, Last(r.net.trace), id);
    }
    KnownIs(l, id);
    assert ViewOf(r, id) == ViewOf(l, id).(entry := InTable(r.net, id));
    hide ViewOf;
    ViewGone(ViewOf(l, id));
    assert ViewOf(r, id) == ViewOf(l, id) || ViewOf(r, id) == ViewOf(l, id).(entry := None);
  }

  lemma KnownIs(l: Loop, id: nat)
    ensures ViewOf(l, id).known == EverConnected(l.net.trace, id)
    ensures ViewOf(l, id).entry == InTable(l.net, id) && ViewOf(l, id).waiting == Waiting(l, id)
  {
  }

  /** Something that moves no bytes of this connection and does not connect it. */
  predicate Passes(h: Happening, id: nat)
  {
    h.ClosedAll? || h.id != id || h.Closed? || h.Disconnected?
  }

  /** A step that concerns one connection leaves all others in order. */
  lemma OthersKept(l: Loop, r: Loop, id: nat)
    requires FlowsOk(l) && ViewOk(ViewOf(r, id))
    requires r.net.trace == l.net.trace
          || (l.net.trace <= r.net.trace && |r.net.trace| == |l.net.trace| + 1
              && !Last(r.net.trace).ClosedAll? && Last(r.net.trace).id == id)
    requires forall other: nat :: other != id ==> InTable(r.net, other) == InTable(l.net, other)
    requires forall other: nat :: other != id ==> Waiting(r, other) == Waiting(l, other)
    ensures FlowsOk(r)
  {
    forall other: nat | other != id
      ensures ViewOk(ViewOf(r, other))
    {
      assert ViewOk(ViewOf(l, other));
      hide ViewOk, ViewOf, Waiting, InTable;
      ViewKept(l, r, other);
    }
  }

  /** A step that at most removes connections. */
  lemma AllKept(l: Loop, r: Loop)
    requires FlowsOk(l)
    requires r.net.trace == l.net.trace
          || (l.net.trace <= r.net.trace && |r.net.trace| == |l.net.trace| + 1
              && (Last(r.net.trace).ClosedAll? || Last(r.net.trace).Closed? || Last(r.net.trace).Disconnected?))
    requires forall id: nat :: InTable(r.net, id) == None || InTable(r.net, id) == InTable(l.net, id)
    requires forall id: nat :: Waiting(r, id) == Waiting(l, id)
    ensures FlowsOk(r)
  {
    forall id: nat
      ensures ViewOk(ViewOf(r, id))
    {
      assert ViewOk(ViewOf(l, id));
      hide ViewOk, ViewOf, Waiting, InTable;
      ViewKept(l, r, id);
    }
  }

  lemma ViewEnqueued(v: View, payload: Bytes)
    requires ViewOk(v) && v.entry.Some? && v.known
    ensures var c := v.entry.value;
            ViewOk(v.(accepted := v.accepted + [payload], entry := Some(c.(sendBuf := c.sendBuf + Encode(payload)))))
  {
    hide EncodeAll, Encode, Unsent, FrameCodec.Run;
    var c := v.entry.value;
    EncodeAllSnoc(v.accepted, payload);
    UnsentAppend(c, Encode(payload));
    assert v.written + (Unsent(c) + Encode(payload)) == v.written + Unsent(c) + Encode(payload);
  }

  lemma UnsentAppend(c: Connection, bytes: Bytes)
    requires c.sentOffset <= |c.sendBuf|
    ensures Unsent(c.(sendBuf := c.sendBuf + bytes)) == Unsent(c) + bytes
  {
  }

  lemma FlowsEnqueue(l: Loop, id: nat, payload: Bytes)
    requires FlowsOk(l) && TableOk(l.net)
    ensures FlowsOk(Next(l, EnqueueBy(id, payload)))
  {
    var r := Next(l, EnqueueBy(id, payload));
    if id in l.net.connections {
      assert ViewOk(ViewOf(l, id));
      IsKnown(l, id);
      ViewAfter(l, r, Enqueued(id, payload), id);
      KnownIs(l, id);
      NothingAdded(ViewOf(l, id));
      ViewEnqueued(ViewOf(l, id), payload);
      hide ViewOk, ViewOf, FlowsOk, TableOk, EverConnected, Encode, Concat, Seen;
      OthersKept(l, r, id);
    } else {
      assert r == l;
    }
  }

  lemma IsKnown(l: Loop, id: nat)
    requires TableOk(l.net) && id in l.net.connections
    ensures EverConnected(l.net.trace, id)
  {
    assert id in Fds(l.net.connections);
    LawfulTrace(l.net.trace, id, id);
  }

  lemma FlowsAccept(l: Loop, fd: int)
    requires FlowsOk(l) && TableOk(l.net) && l.phase == Accepting
    ensures FlowsOk(Next(l, AcceptOne(fd)))
  {
    var id := l.net.nextConnId;
    var r := Next(l, AcceptOne(fd));
    if fd !in l.net.open && fd < FD_SETSIZE {
      assert ViewOk(ViewOf(l, id)) && !EverConnected(l.net.trace, id);
      ViewAfter(l, r, Connected(id, fd), id);
      KnownIs(l, id);
      NothingAdded(ViewOf(l, id));
      ViewConnected(ViewOf(l, id), fd);
      hide ViewOk, ViewOf, FlowsOk, TableOk, EverConnected, Concat, Seen;
      OthersKept(l, r, id);
    } else {
      assert r == l;
    }
  }

  lemma ViewConnected(v: View, fd: int)
    requires ViewOk(v) && !v.known
    ensures ViewOk(v.(known := true, entry := Some(Connection(fd, FrameCodec.Fresh, [], 0))))
  {
  }

  lemma RunSnoc(chunks: seq<Bytes>, chunk: Bytes)
    ensures var before, after := FrameCodec.Run(chunks), FrameCodec.Run(chunks + [chunk]);
            var last := FrameCodec.Fed(before.state, chunk);
            after.frames == before.frames + last.frames && after.state == last.state
  {
    assert (chunks + [chunk])[..|chunks + [chunk]| - 1] == chunks;
  }

  lemma ViewReceived(v: View, received: Bytes)
    requires ViewOk(v) && v.entry.Some? && v.known && v.waiting == []
    ensures var c := v.entry.value;
            var out := FrameCodec.Fed(c.codec, received);
            ViewOk(v.(read := v.read + [received], entry := Some(c.(codec := out.state)), waiting := out.frames))
  {
    RunSnoc(v.read, received);
    hide EncodeAll, FrameCodec.Run, FrameCodec.Fed;
    assert v.handed + [] == v.handed;
  }

  lemma FlowsReceive(l: Loop, received: Bytes, dead: bool)
    requires FlowsOk(l) && TableOk(l.net) && SnapshotOk(l)
    requires l.phase.Reading? && At(l, l.phase.k, l.readable) && received != []
    ensures FlowsOk(Next(l, Receive(received, dead)))
  {
    var entry := l.snapshot[l.phase.k];
    var id := entry.id;
    var r := Next(l, Receive(received, dead));
    assert Owns(l.net, entry);
    assert ViewOk(ViewOf(l, id));
    IsKnown(l, id);
    ReceiveFrame(l, received, dead);
    ViewAfter(l, r, Received(id, entry.fd, received), id);
    KnownIs(l, id);
    NothingAdded(ViewOf(l, id));
    ViewReceived(ViewOf(l, id), received);
    hide ViewOk, ViewOf, FlowsOk, TableOk, SnapshotOk, EverConnected, Concat, Seen, Next, FrameCodec.Fed;
    OthersKept(l, r, id);
  }

  lemma ReceiveFrame(l: Loop, received: Bytes, dead: bool)
    requires l.phase.Reading? && At(l, l.phase.k, l.readable) && received != []
    requires l.snapshot[l.phase.k].id in l.net.connections
    ensures var entry := l.snapshot[l.phase.k];
            var r := Next(l, Receive(received, dead));
            var c := l.net.connections[entry.id];
            var out := FrameCodec.Fed(c.codec, received);
            && r.net.trace == l.net.trace + [Received(entry.id, entry.fd, received)]
            && InTable(r.net, entry.id) == Some(c.(codec := out.state))
            && Waiting(r, entry.id) == out.frames
            && (forall other: nat :: other != entry.id ==> InTable(r.net, other) == InTable(l.net, other))
            && (forall other: nat :: Waiting(l, other) == [])
            && (forall other: nat :: other != entry.id ==> Waiting(r, other) == [])
  {
    var entry := l.snapshot[l.phase.k];
    var c := l.net.connections[entry.id];
    ErrorHasNoFrames(c.codec, received);
    hide FrameCodec.Fed;
  }

  lemma ErrorHasNoFrames(state: FrameCodec.State, received: Bytes)
    ensures FrameCodec.Fed(state, received).state.error ==> FrameCodec.Fed(state, received).frames == []
  {
  }

  lemma ViewDelivered(v: View)
    requires ViewOk(v) && v.known && v.waiting != []
    ensures ViewOk(v.(handed := v.handed + [v.waiting[0]], waiting := v.waiting[1..]))
  {
    hide EncodeAll, FrameCodec.Run;
    assert v.handed + v.waiting == v.handed + [v.waiting[0]] + v.waiting[1..];
  }

  lemma FlowsDeliver(l: Loop)
    requires FlowsOk(l) && TableOk(l.net) && SnapshotOk(l) && l.phase.Delivering? && l.phase.frames != []
    ensures FlowsOk(Next(l, DeliverOne))
  {
    var id := l.snapshot[l.phase.k].id;
    var r := Next(l, DeliverOne);
    assert EverConnected(l.net.trace, id);
    assert ViewOk(ViewOf(l, id));
    ViewAfter(l, r, Delivered(id, l.phase.frames[0]), id);
    KnownIs(l, id);
    NothingAdded(ViewOf(l, id));
    ViewDelivered(ViewOf(l, id));
    hide ViewOk, ViewOf, FlowsOk, TableOk, SnapshotOk, EverConnected, Concat, Seen;
    OthersKept(l, r, id);
  }

  lemma WriteIs(n: Net, id: nat, fd: int, results: seq<SendResult>)
    requires id in n.connections
    ensures var m := Write(n, id, fd, results);
            var f := Flush(n.connections[id], results);
            && m.connections == n.connections[id := f.c]
            && m.trace == (if f.bytes == [] then n.trace else n.trace + [Sent(id, fd, f.bytes)])
            && m.latest == n.latest && m.open == n.open && m.nextConnId == n.nextConnId
  {
    hide Flush;
  }

  lemma ViewWritten(v: View, results: seq<SendResult>)
    requires ViewOk(v) && v.entry.Some? && v.known
    ensures var f := Flush(v.entry.value, results);
            ViewOk(v.(written := v.written + f.bytes, entry := Some(f.c)))
  {
    var f := Flush(v.entry.value, results);
    FlushKeeps(v.entry.value, results);
    hide EncodeAll, FrameCodec.Run, Flush, Unsent;
    assert v.written + (f.bytes + Unsent(f.c)) == v.written + f.bytes + Unsent(f.c);
  }

  /** What a flush makes of the view of its connection. */
  lemma ViewFlushed(l: Loop, r: Loop, id: nat, fd: int, results: seq<SendResult>)
    requires id in l.net.connections && r.net == Write(l.net, id, fd, results)
    requires Waiting(r, id) == Waiting(l, id)
    ensures var f := Flush(l.net.connections[id], results);
            ViewOf(r, id) == ViewOf(l, id).(written := ViewOf(l, id).written + f.bytes, entry := Some(f.c))
  {
    var f := Flush(l.net.connections[id], results);
    WriteIs(l.net, id, fd, results);
    KnownIs(l, id);
    KnownIs(r, id);
    NothingAdded(ViewOf(l, id));
    hide Write, Flush, Waiting, Seen, EverConnected;
    if f.bytes == [] {
      assert ViewOf(l, id).written + [] == ViewOf(l, id).written;
    } else {
      ViewAfter(l, r, Sent(id, fd, f.bytes), id);
      assert Concat([f.bytes]) == f.bytes + Concat<Byte>([]) == f.bytes;
    }
  }

  lemma FlowsWrite(l: Loop, r: Loop, id: nat, fd: int, results: seq<SendResult>)
    requires FlowsOk(l) && TableOk(l.net) && id in l.net.connections
    requires r.net == Write(l.net, id, fd, results)
    requires forall other: nat :: Waiting(r, other) == Waiting(l, other)
    ensures FlowsOk(r)
  {
    assert ViewOk(ViewOf(l, id));
    IsKnown(l, id);
    KnownIs(l, id);
    hide ViewOk, ViewOf, FlowsOk, TableOk, Waiting, Write, Flush, EverConnected;
    WriteIs(l.net, id, fd, results);
    ViewFlushed(l, r, id, fd, results);
    ViewWritten(ViewOf(l, id), results);
    OthersKept(l, r, id);
  }
}

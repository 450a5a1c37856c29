/** The select loop as a step system: one loop thread, any number of threads that
    enqueue, and an operating system that may do as it likes. */
module EventLoop {
  import opened Bytes
  import opened Framing
  import FrameCodec
  import opened Network

  const FD_SETSIZE: int := 1024

  datatype Connection = Connection(fd: int, codec: FrameCodec.State, sendBuf: Bytes, sentOffset: nat)

  predicate HasPendingData(c: Connection)
  {
    c.sentOffset < |c.sendBuf|
  }

  function Unsent(c: Connection): Bytes
  {
    if HasPendingData(c) then c.sendBuf[c.sentOffset..] else []
  }

  /** The server's tables, the descriptors open for connections, the manager's latest
      connection, and all that has happened. */
  datatype Net = Net(
    connections: map<nat, Connection>,
    nextConnId: nat,
    open: set<int>,
    latest: nat,
    trace: Trace)

  const START := Net(map[], 1, {}, 0, [])

  datatype SendResult = Wrote(count: nat) | SendBlocks | SendInterrupted | SendFails

  // ---------- the locked sections ----------

  function Note(n: Net, h: Happening): Net
  {
    n.(trace := n.trace + [h])
  }

  function Enqueue(n: Net, id: nat, payload: Bytes): Net
  {
    if id !in n.connections then n
    else
      var c := n.connections[id];
      Note(n.(connections := n.connections[id := c.(sendBuf := c.sendBuf + Encode(payload))]), Enqueued(id, payload))
  }

  /** A descriptor select cannot watch is closed again at once. */
  function Accept(n: Net, fd: int): Net
  {
    if fd >= FD_SETSIZE then n
    else
      var id := n.nextConnId;
      Note(n.(connections := n.connections[id := Connection(fd, FrameCodec.Fresh, [], 0)],
              nextConnId := id + 1, open := n.open + {fd}), Connected(id, fd))
  }

  function Feed(n: Net, id: nat, fd: int, received: Bytes): Net
  {
    var m := Note(n, Received(id, fd, received));
    if id !in n.connections then m
    else
      var c := n.connections[id];
      m.(connections := n.connections[id := c.(codec := FrameCodec.Fed(c.codec, received).state)])
  }

  function Deliver(n: Net, id: nat, payload: Bytes): Net
  {
    Note(n, Delivered(id, payload)).(latest := id)
  }

  function Remove(n: Net, id: nat): Net
  {
    if id !in n.connections then n
    else
      Note(n.(connections := n.connections - {id}, open := n.open - {n.connections[id].fd}), Closed(id))
  }

  function Notify(n: Net, id: nat): Net
  {
    Note(n, Disconnected(id)).(latest := if n.latest == id then 0 else n.latest)
  }

  function CloseAll(n: Net): Net
  {
    Note(n.(connections := map[], open := {}), ClosedAll)
  }

  /** What a flush leaves, what it wrote, and whether the connection survives it. */
  datatype Flushed = Flushed(c: Connection, bytes: Bytes, ok: bool)

  /** The send loop, given what the calls of send return; when the list is used up the
      socket blocks. */
  function Flush(c: Connection, results: seq<SendResult>): Flushed
    decreases |results|
  {
    if !HasPendingData(c) then Flushed(c.(sendBuf := [], sentOffset := 0), [], true)
    else if results == [] then Flushed(c, [], true)
    else
      match results[0]
      case SendBlocks => Flushed(c, [], true)
      case SendInterrupted => Flush(c, results[1..])
      case SendFails => Flushed(c, [], false)
      case Wrote(count) =>
        var k := if count > |c.sendBuf| - c.sentOffset then |c.sendBuf| - c.sentOffset else count;
        if k == 0 then Flushed(c, [], false)
        else
          var later := Flush(c.(sentOffset := c.sentOffset + k), results[1..]);
          Flushed(later.c, c.sendBuf[c.sentOffset..c.sentOffset + k] + later.bytes, later.ok)
  }

  function Write(n: Net, id: nat, fd: int, results: seq<SendResult>): Net
  {
    if id !in n.connections then n
    else
      var f := Flush(n.connections[id], results);
      var m := n.(connections := n.connections[id := f.c]);
      if f.bytes == [] then m else Note(m, Sent(id, fd, f.bytes))
  }

  predicate Survives(n: Net, id: nat, results: seq<SendResult>)
  {
    id !in n.connections || Flush(n.connections[id], results).ok
  }

  // ---------- the loop ----------

  datatype Entry = Entry(id: nat, fd: int)

  /** The connections below an id that select can watch, in key order. */
  function Snapshot(connections: map<nat, Connection>, below: nat): seq<Entry>
  {
    if below == 0 then []
    else
      var id := below - 1;
      Snapshot(connections, id)
      + if id in connections && connections[id].fd < FD_SETSIZE then [Entry(id, connections[id].fd)] else []
  }

  /** Where the loop thread is; `Over` is after the exit path. */
  datatype Phase =
    | Idle
    | Accepting
    | Reading(k: nat)
    | Delivering(k: nat, frames: seq<Bytes>, dead: bool)
    | Writing(k: nat)
    | Notifying(k: nat, writing: bool)
    | Over

  datatype Loop = Loop(net: Net, phase: Phase, snapshot: seq<Entry>, readable: set<int>, writable: set<int>)

  datatype Event =
    | EnqueueBy(id: nat, payload: Bytes)               // any thread, any time
    | Begin(readable: set<int>, writable: set<int>)    // snapshot, then select reports
    | AcceptOne(fd: int)
    | AcceptDone
    | Pass                                             // nothing to do for this entry
    | Receive(received: Bytes, dead: bool)             // recv until it blocks or ends
    | DeliverOne
    | Settle                                           // the read handler returns
    | WriteOut(results: seq<SendResult>)
    | NotifyGone
    | Finish                                           // the loop ends

  predicate At(l: Loop, k: nat, among: set<int>)
  {
    k < |l.snapshot| && l.snapshot[k].fd in among
  }

  function PendingFds(n: Net): set<int>
  {
    set id | id in n.connections && HasPendingData(n.connections[id]) :: n.connections[id].fd
  }

  /** What the read handler goes on with after recv. */
  function AfterReceive(l: Loop, k: nat, received: Bytes, dead: bool): Phase
    requires k < |l.snapshot|
  {
    var id := l.snapshot[k].id;
    if received == [] then (if dead then Delivering(k, [], true) else Reading(k + 1))
    else if id !in l.net.connections then Reading(k + 1)
    else
      var out := FrameCodec.Fed(l.net.connections[id].codec, received);
      if out.state.error then Delivering(k, [], true) else Delivering(k, out.frames, dead)
  }

  /** One step; an event that does not fit the phase changes nothing. */
  function Next(l: Loop, e: Event): Loop
  {
    var n := l.net;
    match e
    case EnqueueBy(id, payload) => l.(net := Enqueue(n, id, payload))
    case Begin(readable, writable) =>
      if l.phase != Idle then l
      else Loop(n, Accepting, Snapshot(n.connections, n.nextConnId), readable, writable * PendingFds(n))
    case AcceptOne(fd) => if l.phase != Accepting || fd in n.open then l else l.(net := Accept(n, fd))
    case AcceptDone => if l.phase != Accepting then l else l.(phase := Reading(0))
    case Pass =>
      if l.phase.Reading? && !At(l, l.phase.k, l.readable) then
        l.(phase := if l.phase.k < |l.snapshot| then Reading(l.phase.k + 1) else Writing(0))
      else if l.phase.Writing? && !At(l, l.phase.k, l.writable) then
        l.(phase := if l.phase.k < |l.snapshot| then Writing(l.phase.k + 1) else Idle)
      else l
    case Receive(received, dead) =>
      if !(l.phase.Reading? && At(l, l.phase.k, l.readable)) then l
      else
        var entry := l.snapshot[l.phase.k];
        l.(net := if received == [] then n else Feed(n, entry.id, entry.fd, received),
           phase := AfterReceive(l, l.phase.k, received, dead))
    case DeliverOne =>
      if !(l.phase.Delivering? && l.phase.k < |l.snapshot| && l.phase.frames != []) then l
      else
        l.(net := Deliver(n, l.snapshot[l.phase.k].id, l.phase.frames[0]),
           phase := l.phase.(frames := l.phase.frames[1..]))
    case Settle =>
      if !(l.phase.Delivering? && l.phase.k < |l.snapshot| && l.phase.frames == []) then l
      else
        var id := l.snapshot[l.phase.k].id;
        if !l.phase.dead || id !in n.connections then l.(phase := Reading(l.phase.k + 1))
        else l.(net := Remove(n, id), phase := Notifying(l.phase.k, false))
    case WriteOut(results) =>
      if !(l.phase.Writing? && At(l, l.phase.k, l.writable)) then l
      else
        var entry := l.snapshot[l.phase.k];
        var m := Write(n, entry.id, entry.fd, results);
        if Survives(n, entry.id, results) || entry.id !in n.connections then
          l.(net := m, phase := Writing(l.phase.k + 1))
        else l.(net := Remove(m, entry.id), phase := Notifying(l.phase.k, true))
    case NotifyGone =>
      if !(l.phase.Notifying? && l.phase.k < |l.snapshot|) then l
      else
        l.(net := Notify(n, l.snapshot[l.phase.k].id),
           phase := if l.phase.writing then Writing(l.phase.k + 1) else Reading(l.phase.k + 1))
    case Finish => if l.phase != Idle then l else l.(net := CloseAll(n), phase := Over)
  }

  function Runs(l: Loop, events: seq<Event>): Loop
    decreases |events|
  {
    if events == [] then l else Runs(Next(l, events[0]), events[1..])
  }

  function AtStart(): Loop
  {
    Loop(START, Idle, [], {}, {})
  }

  // ---------- the connection table ----------

  function Fds(connections: map<nat, Connection>): map<nat, int>
  {
    map id | id in connections :: connections[id].fd
  }

  /** The table agrees with what happened, and what happened was lawful. */
  ghost predicate TableOk(n: Net)
  {
    && Lawful(n.trace)
    && Live(n.trace) == Fds(n.connections)
    && n.open == Fds(n.connections).Values
    && n.nextConnId > 0
    && (forall id: nat :: EverConnected(n.trace, id) ==> 0 < id < n.nextConnId)
    && (forall id :: id in n.connections ==> n.connections[id].fd < FD_SETSIZE)
  }

  predicate Owns(n: Net, entry: Entry)
  {
    entry.id in n.connections && n.connections[entry.id].fd == entry.fd
  }

  /** Entry k has been removed and its owner is about to be told. */
  ghost predicate Gone(n: Net, id: nat)
  {
    id !in n.connections && EverConnected(n.trace, id) && Goodbyes(n.trace, id) == 0
  }

  /** The first entry the read loop has not yet done with. */
  function ReadFrom(phase: Phase, size: nat): nat
  {
    match phase
    case Accepting => 0
    case Reading(k) => k
    case Delivering(k, _, _) => k
    case Notifying(k, writing) => if writing then size else k + 1
    case _ => size
  }

  /** During a round an id of the snapshot is either gone or still has its descriptor,
      and until the read loop comes to it, it is not gone. */
  ghost predicate SnapshotOk(l: Loop)
  {
    var size := |l.snapshot|;
    && (l.phase != Idle && l.phase != Over ==>
          && (forall i :: 0 <= i < size ==> EverConnected(l.net.trace, l.snapshot[i].id))
          && (forall i :: 0 <= i < size && l.snapshot[i].id in l.net.connections ==> Owns(l.net, l.snapshot[i]))
          && (forall i :: ReadFrom(l.phase, size) <= i < size ==> Owns(l.net, l.snapshot[i]))
          && (forall i, j :: 0 <= i < j < size ==> l.snapshot[i].id != l.snapshot[j].id))
    && (l.phase.Delivering? || l.phase.Notifying? ==> l.phase.k < size)
    && (l.phase.Notifying? ==> Gone(l.net, l.snapshot[l.phase.k].id))
  }

  predicate Increasing(s: seq<Entry>)
  {
    forall i, j :: 0 <= i < j < |s| ==> s[i].id < s[j].id
  }

  lemma {:induction false} SnapshotIs(connections: map<nat, Connection>, below: nat)
    ensures forall entry :: entry in Snapshot(connections, below) <==>
              && 0 <= entry.id < below && entry.id in connections && connections[entry.id].fd == entry.fd
              && entry.fd < FD_SETSIZE
    ensures Increasing(Snapshot(connections, below))
  {
    if below > 0 {
      SnapshotIs(connections, below - 1);
      var before := Snapshot(connections, below - 1);
      var s := Snapshot(connections, below);
      forall i, j | 0 <= i < j < |s|
        ensures s[i].id < s[j].id
      {
        assert s[i] == before[i] && before[i] in before;
        assert j < |before| ==> s[j] == before[j];
      }
    }
  }

  // ---------- how the steps keep the table ----------

  /** Steps that neither add nor remove a connection. */
  lemma TableSame(n: Net, m: Net, h: Happening)
    requires TableOk(n) && m.trace == n.trace + [h] && MayFollow(n.trace, h)
    requires !h.Connected? && !h.Closed? && !h.ClosedAll?
    requires Fds(m.connections) == Fds(n.connections)
    requires m.open == n.open && m.nextConnId == n.nextConnId
    ensures TableOk(m)
  {
    OneMore(n.trace, h);
    hide Lawful, Live, MayFollow, EverConnected;
    forall id | id in m.connections
      ensures m.connections[id].fd < FD_SETSIZE
    {
      assert Fds(m.connections)[id] == Fds(n.connections)[id];
    }
  }

  lemma TableAccept(n: Net, fd: int)
    requires TableOk(n) && fd !in n.open
    ensures TableOk(Accept(n, fd))
    ensures forall id: nat :: EverConnected(n.trace, id) ==> EverConnected(Accept(n, fd).trace, id)
  {
    if fd < FD_SETSIZE {
      OneMore(n.trace, Connected(n.nextConnId, fd));
      hide Lawful, Live, EverConnected;
      assert !EverConnected(n.trace, n.nextConnId);
      assert Fds(Accept(n, fd).connections) == Fds(n.connections)[n.nextConnId := fd];
      LiveWasConnected(n.trace, n.nextConnId);
      assert n.nextConnId !in Fds(n.connections);
      OneValueMore(Fds(n.connections), n.nextConnId, fd);
    }
  }

  lemma OneValueMore(m: map<nat, int>, id: nat, fd: int)
    requires id !in m
    ensures m[id := fd].Values == m.Values + {fd}
  {
    forall v | v in m.Values + {fd}
      ensures v in m[id := fd].Values
    {
      if v == fd {
        assert m[id := fd][id] == v;
      } else {
        var i :| i in m && m[i] == v;
        assert m[id := fd][i] == v;
      }
    }
  }

  lemma LiveWasConnected(trace: Trace, id: nat)
    requires Lawful(trace)
    ensures !EverConnected(trace, id) ==> id !in Live(trace)
  {
    LawfulTrace(trace, id, id);
  }

  lemma TableRemove(n: Net, id: nat)
    requires TableOk(n) && id in n.connections
    ensures TableOk(Remove(n, id))
    ensures Gone(Remove(n, id), id)
    ensures forall i: nat :: EverConnected(n.trace, i) ==> EverConnected(Remove(n, id).trace, i)
  {
    var m := Remove(n, id);
    OneMore(n.trace, Closed(id));
    LawfulTrace(n.trace, id, id);
    DistinctFds(n, id);
    hide Lawful, Live, EverConnected, Goodbyes;
    assert Fds(m.connections) == Fds(n.connections) - {id};
    assert id in Fds(n.connections) && Fds(n.connections)[id] == n.connections[id].fd;
    OneValueLess(Fds(n.connections), id);
  }

  lemma DistinctFds(n: Net, id: nat)
    requires TableOk(n) && id in n.connections
    ensures forall i :: i in n.connections && i != id ==> n.connections[i].fd != n.connections[id].fd
  {
    forall i | i in n.connections && i != id
      ensures n.connections[i].fd != n.connections[id].fd
    {
      LawfulTrace(n.trace, i, id);
      assert Fds(n.connections)[i] == n.connections[i].fd && Fds(n.connections)[id] == n.connections[id].fd;
    }
  }

  lemma OneValueLess(m: map<nat, int>, id: nat)
    requires id in m && forall i :: i in m && i != id ==> m[i] != m[id]
    ensures (m - {id}).Values == m.Values - {m[id]}
  {
    forall v | v in m.Values - {m[id]}
      ensures v in (m - {id}).Values
    {
      var i :| i in m && m[i] == v;
      assert (m - {id})[i] == v;
    }
  }

  lemma TableCloseAll(n: Net)
    requires TableOk(n)
    ensures TableOk(CloseAll(n))
  {
    OneMore(n.trace, ClosedAll);
    assert Fds(map[]) == map[];
    hide Lawful, Live, EverConnected;
  }

  lemma TableEnqueue(n: Net, id: nat, payload: Bytes)
    requires TableOk(n)
    ensures TableOk(Enqueue(n, id, payload))
    ensures Fds(Enqueue(n, id, payload).connections) == Fds(n.connections)
  {
    if id in n.connections {
      assert id in Fds(n.connections);
      assert Fds(Enqueue(n, id, payload).connections) == Fds(n.connections);
      TableSame(n, Enqueue(n, id, payload), Enqueued(id, payload));
    }
  }

  lemma TableFeed(n: Net, entry: Entry, received: Bytes)
    requires TableOk(n) && Owns(n, entry)
    ensures TableOk(Feed(n, entry.id, entry.fd, received))
    ensures Fds(Feed(n, entry.id, entry.fd, received).connections) == Fds(n.connections)
  {
    hide FrameCodec.Fed;
    assert entry.id in Fds(n.connections);
    assert Fds(Feed(n, entry.id, entry.fd, received).connections) == Fds(n.connections);
    TableSame(n, Feed(n, entry.id, entry.fd, received), Received(entry.id, entry.fd, received));
  }

  /** One call of send that moves k bytes. */
  lemma SendSome(c: Connection, k: nat, bytes: Bytes, left: Bytes)
    requires c.sentOffset + k <= |c.sendBuf| && k > 0
    requires Unsent(c.(sentOffset := c.sentOffset + k)) == bytes + left
    ensures Unsent(c) == c.sendBuf[c.sentOffset..c.sentOffset + k] + bytes + left
  {
    var after := c.(sentOffset := c.sentOffset + k);
    assert Unsent(c) == c.sendBuf[c.sentOffset..c.sentOffset + k] + Unsent(after);
  }

  /** What was unsent before a flush has been written or is still unsent, in order. */
  lemma {:induction false} FlushKeeps(c: Connection, results: seq<SendResult>)
    ensures var f := Flush(c, results);
            && f.c.fd == c.fd && f.c.codec == c.codec
            && (c.sentOffset <= |c.sendBuf| ==> f.c.sentOffset <= |f.c.sendBuf|)
            && Unsent(c) == f.bytes + Unsent(f.c)
    decreases |results|
  {
    if HasPendingData(c) && results != [] {
      match results[0]
      case SendInterrupted => FlushKeeps(c, results[1..]);
      case Wrote(count) =>
        var k := if count > |c.sendBuf| - c.sentOffset then |c.sendBuf| - c.sentOffset else count;
        if k > 0 {
          var later := Flush(c.(sentOffset := c.sentOffset + k), results[1..]);
          FlushKeeps(c.(sentOffset := c.sentOffset + k), results[1..]);
          hide Unsent;
          SendSome(c, k, later.bytes, Unsent(later.c));
        }
      case _ =>
    }
  }

  /** A result that ends the sending: no room, an error, or nothing taken. */
  predicate EndsSending(r: SendResult)
  {
    r.SendBlocks? || r.SendFails? || r == Wrote(0)
  }

  /** How many results come before the first one that ends the sending. */
  function SendCount(results: seq<SendResult>): (k: nat)
    ensures k <= |results| && (k < |results| ==> EndsSending(results[k]))
    ensures forall i :: 0 <= i < k ==> !EndsSending(results[i])
  {
    if results == [] || EndsSending(results[0]) then 0 else 1 + SendCount(results[1..])
  }

  function TotalCount(results: seq<SendResult>): nat
  {
    if results == [] then 0
    else (if results[0].Wrote? then results[0].count else 0) + TotalCount(results[1..])
  }

  /** How many of so many pending bytes the socket takes before the first end. */
  function Moved(pending: nat, results: seq<SendResult>): (moved: nat)
    ensures moved <= pending
  {
    var room := TotalCount(results[..SendCount(results)]);
    if room < pending then room else pending
  }

  /** Bytes are left and the call made for them fails, or takes none. */
  predicate FailsSending(pending: nat, results: seq<SendResult>)
  {
    var k := SendCount(results);
    Moved(pending, results) < pending && k < |results| && (results[k].SendFails? || results[k] == Wrote(0))
  }

  lemma SendCountStep(results: seq<SendResult>, pending: nat)
    requires results != [] && !EndsSending(results[0])
    ensures var n := if results[0].Wrote? then results[0].count else 0;
            && FailsSending(pending, results) == (n < pending && FailsSending(pending - n, results[1..]))
            && Moved(pending, results) == if n < pending then n + Moved(pending - n, results[1..]) else pending
  {
    var k := SendCount(results);
    assert results[..k][1..] == results[1..][..k - 1];
  }

  /** What a flush leaves of the connection. */
  function AfterSend(c: Connection, results: seq<SendResult>): Connection
  {
    var moved := Moved(|Unsent(c)|, results);
    if moved == |Unsent(c)| then c.(sendBuf := [], sentOffset := 0) else c.(sentOffset := c.sentOffset + moved)
  }

  lemma {:induction false} FlushLeaves(c: Connection, results: seq<SendResult>)
    ensures Flush(c, results).c == AfterSend(c, results)
    ensures Flush(c, results).ok == !FailsSending(|Unsent(c)|, results)
    decreases |results|
  {
    var pending := |Unsent(c)|;
    if pending == 0 {
      MovedNothing(results);
    } else if results == [] || EndsSending(results[0]) {
      assert TotalCount(results[..0]) == 0;
    } else {
      var n := if results[0].Wrote? then results[0].count else 0;
      var k := if n > pending then pending else n;
      var after := c.(sentOffset := c.sentOffset + k);
      assert |Unsent(after)| == pending - k;
      SendCountStep(results, pending);
      FlushLeaves(after, results[1..]);
      MovedNothing(results[1..]);
      hide SendCount, TotalCount, Moved, FailsSending, Unsent;
      assert Flush(c, results).c == Flush(after, results[1..]).c;
      assert Flush(c, results).ok == Flush(after, results[1..]).ok;
    }
  }

  /** The send loop writes as much of what is pending as the socket takes before the first
      end, from the front, leaves the rest, and gives the connection up exactly when bytes
      are left and that end is not a would-block. */
  lemma FlushIs(c: Connection, results: seq<SendResult>)
    ensures var f, pending := Flush(c, results), Unsent(c);
            var moved := Moved(|pending|, results);
            && f.bytes == pending[..moved] && Unsent(f.c) == pending[moved..] && f.c == AfterSend(c, results)
            && f.ok == !FailsSending(|pending|, results)
  {
    FlushKeeps(c, results);
    FlushLeaves(c, results);
    hide Flush, Moved, FailsSending;
    var pending, moved := Unsent(c), Moved(|Unsent(c)|, results);
    assert Unsent(AfterSend(c, results)) == pending[moved..];
    assert pending == pending[..moved] + pending[moved..];
  }

  lemma MovedNothing(results: seq<SendResult>)
    ensures Moved(0, results) == 0 && !FailsSending(0, results)
  {
  }

  lemma TableWrite(n: Net, entry: Entry, results: seq<SendResult>)
    requires TableOk(n) && Owns(n, entry)
    ensures var m := Write(n, entry.id, entry.fd, results);
            TableOk(m) && Fds(m.connections) == Fds(n.connections)
  {
    var m := Write(n, entry.id, entry.fd, results);
    var f := Flush(n.connections[entry.id], results);
    FlushKeeps(n.connections[entry.id], results);
    hide Flush;
    assert entry.id in Fds(n.connections);
    assert Fds(m.connections) == Fds(n.connections);
    if f.bytes != [] {
      TableSame(n, m, Sent(entry.id, entry.fd, f.bytes));
    } else {
      SameFds(n, m);
    }
  }

  lemma SameFds(n: Net, m: Net)
    requires Fds(m.connections) == Fds(n.connections)
    requires TableOk(n) && m.trace == n.trace && m.open == n.open && m.nextConnId == n.nextConnId
    ensures TableOk(m)
  {
    hide Lawful, Live, EverConnected;
    forall id | id in m.connections
      ensures m.connections[id].fd < FD_SETSIZE
    {
      assert Fds(m.connections)[id] == Fds(n.connections)[id];
    }
  }
}

/** What can be observed of the server, and which observations make sense. */
module Network {
  import opened Bytes

  /** Observations, in the order they happen. `Received` and `Sent` are calls of recv and
      send that moved bytes, with the descriptor they used. `Closed` is the removal of a
      connection, `Disconnected` the callback that follows it. */
  datatype Happening =
    | Connected(id: nat, fd: int)
    | Enqueued(id: nat, payload: Bytes)
    | Received(id: nat, fd: int, bytes: Bytes)
    | Delivered(id: nat, payload: Bytes)
    | Sent(id: nat, fd: int, bytes: Bytes)
    | Closed(id: nat)
    | Disconnected(id: nat)
    | ClosedAll

  type Trace = seq<Happening>

  function Last(trace: Trace): Happening
    requires trace != []
  {
    trace[|trace| - 1]
  }

  function Before(trace: Trace): Trace
    requires trace != []
  {
    trace[..|trace| - 1]
  }

  function LiveAfter(live: map<nat, int>, h: Happening): map<nat, int>
  {
    match h
    case Connected(id, fd) => live[id := fd]
    case Closed(id) => live - {id}
    case ClosedAll => map[]
    case _ => live
  }

  /** The live connections after a trace, with their descriptors. */
  function Live(trace: Trace): map<nat, int>
  {
    if trace == [] then map[] else LiveAfter(Live(Before(trace)), Last(trace))
  }

  /** The id of the last delivered payload, 0 before the first. */
  function LastDelivered(trace: Trace): nat
  {
    if trace == [] then 0
    else if Last(trace).Delivered? then Last(trace).id
    else LastDelivered(Before(trace))
  }

  predicate EverConnected(trace: Trace, id: nat)
  {
    trace != [] && ((Last(trace).Connected? && Last(trace).id == id) || EverConnected(Before(trace), id))
  }

  /** How often the disconnect callback ran for a connection. */
  function Goodbyes(trace: Trace, id: nat): nat
  {
    if trace == [] then 0
    else Goodbyes(Before(trace), id) + if Last(trace) == Disconnected(id) then 1 else 0
  }

  /** What may happen next. An id is new and not 0, its descriptor is not that of a live
      connection; bytes only move on the descriptor the connection owns at that moment;
      only live connections get payloads; and the callback runs once, after removal. */
  ghost predicate MayFollow(trace: Trace, h: Happening)
  {
    match h
    case Connected(id, fd) => id != 0 && !EverConnected(trace, id) && fd !in Live(trace).Values
    case Enqueued(id, _) => id in Live(trace)
    case Received(id, fd, _) => id in Live(trace) && Live(trace)[id] == fd
    case Delivered(id, _) => id in Live(trace)
    case Sent(id, fd, _) => id in Live(trace) && Live(trace)[id] == fd
    case Closed(id) => id in Live(trace)
    case Disconnected(id) => EverConnected(trace, id) && id !in Live(trace) && Goodbyes(trace, id) == 0
    case ClosedAll => true
  }

  ghost predicate Lawful(trace: Trace)
  {
    trace == [] || (Lawful(Before(trace)) && MayFollow(Before(trace), Last(trace)))
  }

  /** In a lawful trace no two live connections share a descriptor, nobody is told twice
      that a connection is gone, and 0 is never the id of one. */
  lemma {:induction false} LawfulTrace(trace: Trace, id: nat, other: nat)
    requires Lawful(trace)
    ensures id in Live(trace) ==> id != 0 && EverConnected(trace, id) && Goodbyes(trace, id) == 0
    ensures Goodbyes(trace, id) <= 1
    ensures !EverConnected(trace, id) ==> Goodbyes(trace, id) == 0
    ensures id in Live(trace) && other in Live(trace) && id != other ==> Live(trace)[id] != Live(trace)[other]
  {
    if trace != [] {
      LawfulTrace(Before(trace), id, other);
    }
  }

  lemma OneMore(trace: Trace, h: Happening)
    ensures Lawful(trace + [h]) <==> Lawful(trace) && MayFollow(trace, h)
    ensures Live(trace + [h]) == LiveAfter(Live(trace), h)
    ensures LastDelivered(trace + [h]) == if h.Delivered? then h.id else LastDelivered(trace)
    ensures forall id :: EverConnected(trace + [h], id) <==> EverConnected(trace, id) || (h.Connected? && h.id == id)
    ensures forall id :: Goodbyes(trace + [h], id) == Goodbyes(trace, id) + if h == Disconnected(id) then 1 else 0
  {
    assert Before(trace + [h]) == trace && Last(trace + [h]) == h;
    hide MayFollow;
  }

  // ---------- what one connection sees ----------

  /** The four flows of a connection: payloads accepted for sending and byte runs
      written, byte runs read and payloads handed to the message callback. */
  datatype Flow = Accepted | Written | Read | HandedOn

  function Part(h: Happening, flow: Flow, id: nat): seq<Bytes>
  {
    match h
    case Enqueued(i, payload) => if flow == Accepted && i == id then [payload] else []
    case Sent(i, _, bytes) => if flow == Written && i == id then [bytes] else []
    case Received(i, _, bytes) => if flow == Read && i == id then [bytes] else []
    case Delivered(i, payload) => if flow == HandedOn && i == id then [payload] else []
    case _ => []
  }

  function Seen(trace: Trace, flow: Flow, id: nat): seq<Bytes>
  {
    if trace == [] then [] else Seen(Before(trace), flow, id) + Part(Last(trace), flow, id)
  }

  lemma SeenSnoc(trace: Trace, h: Happening, id: nat)
    ensures forall flow :: Seen(trace + [h], flow, id) == Seen(trace, flow, id) + Part(h, flow, id)
  {
    assert Before(trace + [h]) == trace;
  }

  // ---------- all payloads, over all connections ----------

  /** Every payload handed to the message callback, in the order of the calls. */
  function Payloads(trace: Trace): seq<Bytes>
  {
    if trace == [] then []
    else Payloads(Before(trace)) + if Last(trace).Delivered? then [Last(trace).payload] else []
  }

  lemma PayloadsSnoc(trace: Trace, h: Happening)
    ensures Payloads(trace + [h]) == Payloads(trace) + if h.Delivered? then [h.payload] else []
  {
    assert Before(trace + [h]) == trace;
  }

  /** Where the i-th payload of a connection comes among all payloads. */
  function Place(trace: Trace, id: nat, i: nat): nat
    requires i < |Seen(trace, HandedOn, id)|
  {
    if i < |Seen(Before(trace), HandedOn, id)| then Place(Before(trace), id, i) else |Payloads(Before(trace))|
  }

  /** The payloads of one connection are among all payloads, in the same order. */
  lemma {:induction false} PlaceIs(trace: Trace, id: nat, i: nat)
    requires i < |Seen(trace, HandedOn, id)|
    ensures Place(trace, id, i) < |Payloads(trace)|
    ensures Payloads(trace)[Place(trace, id, i)] == Seen(trace, HandedOn, id)[i]
    ensures forall j: nat :: j < i ==> Place(trace, id, j) < Place(trace, id, i)
  {
    if i < |Seen(Before(trace), HandedOn, id)| {
      PlaceIs(Before(trace), id, i);
    } else {
      forall j: nat | j < i
        ensures Place(trace, id, j) < Place(trace, id, i)
      {
        PlaceIs(Before(trace), id, j);
      }
    }
  }
}

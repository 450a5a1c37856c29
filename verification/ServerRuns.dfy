/** The event loop and the manager as one step system: what the loop hands to the message
    callback is what the manager dispatches. */
module ServerRuns {
  import opened Bytes
  import opened Framing
  import FrameCodec
  import opened Json
  import opened Network
  import opened EventLoop
  import LoopRuns
  import opened Commands
  import opened Dispatch
  import opened Lifecycle
  import ThreadPool
  import Manager

  datatype Owed = Owed(id: nat, payload: Bytes)

  /** Why something was sent: the answer to a payload, the report of a command that threw,
      or a call of the application. */
  datatype Why = AnswerOf | ErrorOf(entry: ThreadPool.Entry) | Application

  datatype Outgoing = Outgoing(id: nat, payload: Bytes, why: Why)

  /** A command has thrown and its worker has still to report it; first it looks up the
      latest connection, then it sends. */
  datatype Report = Report(entry: ThreadPool.Entry, payload: Bytes, target: Option<nat>)

  /** What the application was called with, and for which command. */
  datatype Passed = Passed(entry: ThreadPool.Entry, call: Manager.Call)

  /** `owed` is the answer that the callback has still to send and `reports` holds the
      report of each worker, if it has one to make. `outbox` is all that was accepted for
      sending, `dropped` the errors for which there was no connection, and `received` the
      calls that the application has got. */
  datatype Server = Server(
    loop: Loop,
    mgr: Mgr,
    owed: Option<Owed>,
    reports: seq<Option<Report>>,
    outbox: seq<Outgoing>,
    dropped: seq<ThreadPool.Entry>,
    received: seq<Passed>)

  /** What the parser makes of doubles, the text of its errors, that of a command's error,
      and the text of a value with a double in it. */
  datatype Texts = Texts(
    toInt: Truncation, what: Bytes -> Bytes, thrown: ThreadPool.Entry -> Bytes, dump: Value -> Bytes)

  datatype ServerEvent =
    | SendBy(id: nat, payload: Bytes)       // the application, any thread, any time
    | LoopStep(loopEvent: EventLoop.Event)  // the loop thread, outside the callback
    | Answer                                // the loop thread, inside the callback
    | ManagerStep(mgrEvent: MgrEvent)       // handing over, stopping, the pool's workers
    | LookUp(w: nat)                        // a worker reads the latest connection
    | ReportError(w: nat)                   // and sends its report there

  function Started(threadCount: nat): Server
  {
    var mgr := Lifecycle.Fresh(threadCount);
    Server(AtStart(), mgr, None, seq(|mgr.pool.workers|, _ => None), [], [], [])
  }

  /** The loop thread is still inside the message callback. */
  predicate InCallback(s: Server)
  {
    s.mgr.pending != [] || s.owed.Some?
  }

  /** The step hands a payload to the message callback. */
  predicate Delivers(l: Loop, e: EventLoop.Event)
  {
    e.DeliverOne? && l.phase.Delivering? && l.phase.k < |l.snapshot| && l.phase.frames != []
  }

  /** The callback begins: a well-formed frame is dispatched, anything else answered. */
  function Called(s: Server, texts: Texts): Server
    requires Delivers(s.loop, DeliverOne)
  {
    var payload, id := s.loop.phase.frames[0], s.loop.snapshot[s.loop.phase.k].id;
    var commands := Manager.DispatchedBy(payload, texts.toInt);
    var answer := Manager.AnswerTo(payload, texts.toInt, texts.what(payload));
    s.(loop := EventLoop.Next(s.loop, DeliverOne),
       mgr := if commands.Some? then Lifecycle.Next(s.mgr, Frame(commands.value)) else s.mgr,
       owed := if answer.Some? then Some(Owed(id, answer.value)) else None)
  }

  /** Something is queued for a connection, if that is there. */
  function Post(s: Server, o: Outgoing): Server
  {
    s.(loop := EventLoop.Next(s.loop, EnqueueBy(o.id, o.payload)),
       outbox := if o.id in s.loop.net.connections then s.outbox + [o] else s.outbox)
  }

  predicate Reporting(s: Server, w: nat)
  {
    w < |s.reports| && s.reports[w].Some?
  }

  /** A worker that has an error to report does that first. */
  predicate MayStep(s: Server, e: MgrEvent)
  {
    && !e.Frame? && !e.LoopExits?
    && !(e.PoolStep? && (e.e.Execute? || e.e.Finish?) && Reporting(s, e.e.w))
  }

  /** The commands of task t, as they were handed to the pool. */
  function CommandOf(m: Mgr, entry: ThreadPool.Entry): Option<Command>
  {
    if entry.task < |m.handed| && entry.index < |m.handed[entry.task]|
    then Some(m.handed[entry.task][entry.index]) else None
  }

  function ErrorText(m: Mgr, entry: ThreadPool.Entry, texts: Texts): Bytes
  {
    var c := CommandOf(m, entry);
    Manager.ReplyText(Manager.ERROR, if c.Some? then c.value.commandName else [], texts.thrown(entry))
  }

  /** The step executes a command and that throws. */
  predicate Throws(s: Server, e: MgrEvent)
  {
    e.PoolStep? && e.e.Execute? && e.e.threw && CanHappen(s.mgr, e) && s.mgr.invocation && e.e.w < |s.reports|
  }

  function Reported(s: Server, e: MgrEvent, texts: Texts): seq<Option<Report>>
  {
    if !Throws(s, e) then s.reports
    else
      var entry := ExecutedBy(s.mgr.pool, e.e)[0];
      s.reports[e.e.w := Some(Report(entry, ErrorText(s.mgr, entry, texts), None))]
  }

  /** What the application is called with for a command. */
  function CallFor(c: Command, texts: Texts): Manager.Call
  {
    if c.isVer2 || Plain(c.apiRaw) then Manager.CallOf(c)
    else Manager.Call(texts.dump(c.apiRaw), EMPTY_OBJECT)
  }

  /** The call made by a step that executes a command with the invocation registered. */
  function Calling(s: Server, e: MgrEvent, texts: Texts): seq<Passed>
  {
    if !(e.PoolStep? && e.e.Execute? && CanHappen(s.mgr, e) && s.mgr.invocation) then []
    else
      var entry := ExecutedBy(s.mgr.pool, e.e)[0];
      var c := CommandOf(s.mgr, entry);
      if c.Some? then [Passed(entry, CallFor(c.value, texts))] else []
  }

  function SendReport(s: Server, w: nat): Server
    requires Reporting(s, w) && s.reports[w].value.target.Some?
  {
    var report := s.reports[w].value;
    var id := report.target.value;
    var done := s.(reports := s.reports[w := None]);
    if id != 0 && id in s.loop.net.connections then Post(done, Outgoing(id, report.payload, ErrorOf(report.entry)))
    else done.(dropped := s.dropped + [report.entry])
  }

  /** One step of anything; an event that does not fit changes nothing. A round of the loop
      begins only while the running flag is set. */
  function Step(s: Server, e: ServerEvent, texts: Texts): Server
  {
    match e
    case SendBy(id, payload) => Post(s, Outgoing(id, payload, Application))
    case LoopStep(le) =>
      if InCallback(s) || le.EnqueueBy? || (le.Begin? && s.mgr.phase != Serving) then s
      else if Delivers(s.loop, le) then Called(s, texts)
      else if le.Finish? && s.loop.phase == Idle then
        s.(loop := EventLoop.Next(s.loop, Finish), mgr := Lifecycle.Next(s.mgr, LoopExits))
      else s.(loop := EventLoop.Next(s.loop, le))
    case Answer =>
      if s.owed.None? then s
      else Post(s.(owed := None), Outgoing(s.owed.value.id, s.owed.value.payload, AnswerOf))
    case ManagerStep(me) =>
      if !MayStep(s, me) then s
      else
        s.(mgr := Lifecycle.Next(s.mgr, me), reports := Reported(s, me, texts),
           received := s.received + Calling(s, me, texts))
    case LookUp(w) =>
      if !Reporting(s, w) || s.reports[w].value.target.Some? then s
      else s.(reports := s.reports[w := Some(s.reports[w].value.(target := Some(s.loop.net.latest)))])
    case ReportError(w) =>
      if !Reporting(s, w) || s.reports[w].value.target.None? then s else SendReport(s, w)
  }

  function Steps(s: Server, events: seq<ServerEvent>, texts: Texts): Server
    decreases |events|
  {
    if events == [] then s else Steps(Step(s, events[0], texts), events[1..], texts)
  }

  /** The command lists of those payloads that are dispatched. */
  function Dispatched(payloads: seq<Bytes>, toInt: Truncation): seq<seq<Command>>
  {
    if payloads == [] then []
    else
      var n := |payloads| - 1;
      var commands := Manager.DispatchedBy(payloads[n], toInt);
      Dispatched(payloads[..n], toInt) + if commands.Some? then [commands.value] else []
  }

  lemma DispatchedSnoc(payloads: seq<Bytes>, payload: Bytes, toInt: Truncation)
    ensures var commands := Manager.DispatchedBy(payload, toInt);
            Dispatched(payloads + [payload], toInt)
            == Dispatched(payloads, toInt) + if commands.Some? then [commands.value] else []
  {
    hide Manager.DispatchedBy;
    assert (payloads + [payload])[..|payloads + [payload]| - 1] == payloads;
  }

  /** Where the frame of the p-th payload is among the dispatched ones. */
  function FrameOf(payloads: seq<Bytes>, p: nat, toInt: Truncation): nat
    requires p < |payloads|
  {
    |Dispatched(payloads[..p], toInt)|
  }

  lemma {:induction false} FrameOfIs(payloads: seq<Bytes>, p: nat, toInt: Truncation)
    requires p < |payloads| && Manager.DispatchedBy(payloads[p], toInt).Some?
    ensures FrameOf(payloads, p, toInt) < |Dispatched(payloads, toInt)|
    ensures Dispatched(payloads, toInt)[FrameOf(payloads, p, toInt)] == Manager.DispatchedBy(payloads[p], toInt).value
    decreases |payloads|
  {
    hide Manager.DispatchedBy;
    var n := |payloads| - 1;
    if p < n {
      FrameOfIs(payloads[..n], p, toInt);
      assert payloads[..n][..p] == payloads[..p];
    }
  }

  /** Frames are dispatched in the order in which their payloads were handed on. */
  lemma FramesInOrder(payloads: seq<Bytes>, p: nat, q: nat, toInt: Truncation)
    requires p < q < |payloads| && Manager.DispatchedBy(payloads[p], toInt).Some?
    ensures FrameOf(payloads, p, toInt) < FrameOf(payloads, q, toInt)
  {
    FrameOfIs(payloads[..q], p, toInt);
    assert payloads[..q][..p] == payloads[..p];
  }

  // ---------- what every run keeps ----------

  /** Both parts are in order, the loop thread is alive to both or to neither, and the
      dispatched frames are exactly the well-formed payloads handed to the callback. */
  ghost predicate ServerInv(s: Server, texts: Texts)
  {
    && LoopRuns.Inv(s.loop)
    && MgrInv(s.mgr)
    && (s.mgr.loopAlive <==> s.loop.phase != Over)
    && s.mgr.frames == Dispatched(Payloads(s.loop.net.trace), texts.toInt)
  }

  lemma NotDelivered(n: Net, m: Net)
    requires m.trace == n.trace
          || (n.trace < m.trace && |m.trace| == |n.trace| + 1 && !Last(m.trace).Delivered?)
    ensures Payloads(m.trace) == Payloads(n.trace)
  {
    if m.trace != n.trace {
      assert m.trace == n.trace + [Last(m.trace)];
      PayloadsSnoc(n.trace, Last(m.trace));
      hide Payloads;
      assert Payloads(n.trace) + [] == Payloads(n.trace);
    }
  }

  lemma WriteNotDelivered(n: Net, entry: EventLoop.Entry, results: seq<SendResult>)
    ensures var m := Write(n, entry.id, entry.fd, results);
            && Payloads(m.trace) == Payloads(n.trace)
            && Payloads(Remove(m, entry.id).trace) == Payloads(n.trace)
  {
    hide Flush, Payloads;
    var m := Write(n, entry.id, entry.fd, results);
    NotDelivered(n, m);
    hide Write;
    NotDelivered(m, Remove(m, entry.id));
  }

  /** A loop step that does not deliver adds no payload. */
  lemma SilentStep(l: Loop, e: EventLoop.Event)
    requires !Delivers(l, e)
    ensures Payloads(EventLoop.Next(l, e).net.trace) == Payloads(l.net.trace)
    ensures EventLoop.Next(l, e).phase == Over <==> l.phase == Over || (e.Finish? && l.phase == Idle)
  {
    hide Payloads, Snapshot, FrameCodec.Fed;
    if e.WriteOut? {
      hide Write, Remove, Survives;
      if l.phase.Writing? && At(l, l.phase.k, l.writable) {
        WriteNotDelivered(l.net, l.snapshot[l.phase.k], e.results);
      }
    } else {
      NotDelivered(l.net, EventLoop.Next(l, e).net);
    }
  }

  lemma DeliveringStep(l: Loop)
    requires Delivers(l, DeliverOne)
    ensures Payloads(EventLoop.Next(l, DeliverOne).net.trace) == Payloads(l.net.trace) + [l.phase.frames[0]]
    ensures EventLoop.Next(l, DeliverOne).phase != Over && l.phase != Over
  {
    PayloadsSnoc(l.net.trace, Delivered(l.snapshot[l.phase.k].id, l.phase.frames[0]));
    hide Payloads;
  }

  lemma LoopAndFrames(m: Mgr, e: MgrEvent)
    requires !e.Frame?
    ensures Lifecycle.Next(m, e).frames == m.frames
    ensures Lifecycle.Next(m, e).loopAlive == (m.loopAlive && !(e.LoopExits? && CanHappen(m, e)))
  {
  }

  lemma CallbackKeeps(s: Server, texts: Texts)
    requires ServerInv(s, texts) && !InCallback(s) && Delivers(s.loop, DeliverOne)
    ensures ServerInv(Called(s, texts), texts)
  {
    var payload := s.loop.phase.frames[0];
    var commands := Manager.DispatchedBy(payload, texts.toInt);
    LoopRuns.NextKeeps(s.loop, DeliverOne);
    DeliveringStep(s.loop);
    DispatchedSnoc(Payloads(s.loop.net.trace), payload, texts.toInt);
    hide LoopRuns.Inv, MgrInv, Manager.DispatchedBy, Manager.AnswerTo, EventLoop.Next, Groups, Keep, Dispatched;
    if commands.Some? {
      Lifecycle.NextKeeps(s.mgr, Frame(commands.value));
    }
  }

  lemma PostKeeps(s: Server, o: Outgoing, texts: Texts)
    requires ServerInv(s, texts)
    ensures ServerInv(Post(s, o), texts)
  {
    hide LoopRuns.Inv, MgrInv, EventLoop.Next, Dispatched, Payloads;
    LoopRuns.NextKeeps(s.loop, EnqueueBy(o.id, o.payload));
    SilentStep(s.loop, EnqueueBy(o.id, o.payload));
  }

  lemma StepKeeps(s: Server, e: ServerEvent, texts: Texts)
    requires ServerInv(s, texts)
    ensures ServerInv(Step(s, e, texts), texts)
  {
    hide LoopRuns.Inv, MgrInv, EventLoop.Next, Lifecycle.Next, Dispatched, Payloads, Called, Post, Reported, MayStep;
    match e
    case SendBy(id, payload) => PostKeeps(s, Outgoing(id, payload, Application), texts);
    case Answer =>
      if s.owed.Some? {
        PostKeeps(s.(owed := None), Outgoing(s.owed.value.id, s.owed.value.payload, AnswerOf), texts);
      }
    case LoopStep(le) => LoopStepKeeps(s, le, texts);
    case ManagerStep(me) => ManagerStepKeeps(s, me, texts);
    case LookUp(_) =>
    case ReportError(w) =>
      if Reporting(s, w) && s.reports[w].value.target.Some? {
        var report := s.reports[w].value;
        var done := s.(reports := s.reports[w := None]);
        PostKeeps(done, Outgoing(report.target.value, report.payload, ErrorOf(report.entry)), texts);
      }
  }

  lemma LoopStepKeeps(s: Server, le: EventLoop.Event, texts: Texts)
    requires ServerInv(s, texts)
    ensures ServerInv(Step(s, LoopStep(le), texts), texts)
  {
    hide LoopRuns.Inv, MgrInv, EventLoop.Next, Lifecycle.Next, Dispatched, Payloads, Called;
    if Delivers(s.loop, le) {
      if !InCallback(s) {
        CallbackKeeps(s, texts);
      }
    } else {
      LoopRuns.NextKeeps(s.loop, le);
      SilentStep(s.loop, le);
      Lifecycle.NextKeeps(s.mgr, LoopExits);
      LoopAndFrames(s.mgr, LoopExits);
      LoopCanEnd(s);
    }
  }

  lemma LoopCanEnd(s: Server)
    ensures !InCallback(s) && s.mgr.loopAlive ==> CanHappen(s.mgr, LoopExits)
  {
  }

  lemma ManagerStepKeeps(s: Server, me: MgrEvent, texts: Texts)
    requires ServerInv(s, texts)
    ensures ServerInv(Step(s, ManagerStep(me), texts), texts)
  {
    hide LoopRuns.Inv, MgrInv, Lifecycle.Next, Dispatched, Payloads, Reported;
    if MayStep(s, me) {
      Lifecycle.NextKeeps(s.mgr, me);
      LoopAndFrames(s.mgr, me);
    }
  }

  lemma {:induction false} StepsKeep(s: Server, events: seq<ServerEvent>, texts: Texts)
    requires ServerInv(s, texts)
    ensures ServerInv(Steps(s, events, texts), texts)
    decreases |events|
  {
    hide ServerInv, Step;
    if events != [] {
      StepKeeps(s, events[0], texts);
      StepsKeep(Step(s, events[0], texts), events[1..], texts);
    }
  }

  lemma StartedKeeps(threadCount: nat, texts: Texts)
    ensures ServerInv(Started(threadCount), texts)
  {
    LoopRuns.StartKeeps();
    FreshKeeps(threadCount);
    hide LoopRuns.Inv, MgrInv;
  }

  // ---------- main results ----------

  /** Which frame the i-th payload of a connection became. */
  function FrameFor(s: Server, id: nat, i: nat, toInt: Truncation): nat
    requires i < |Seen(s.loop.net.trace, HandedOn, id)|
  {
    PlaceIs(s.loop.net.trace, id, i);
    FrameOf(Payloads(s.loop.net.trace), Place(s.loop.net.trace, id, i), toInt)
  }

  /** What the manager has dispatched is, frame by frame, what the well-formed payloads
      parse to, those of one connection in their order. */
  lemma HandedOnIsDispatched(s: Server, texts: Texts, id: nat, i: nat)
    requires ServerInv(s, texts)
    requires var got := Seen(s.loop.net.trace, HandedOn, id);
             i < |got| && Manager.DispatchedBy(got[i], texts.toInt).Some?
    ensures var got := Seen(s.loop.net.trace, HandedOn, id);
            var j := FrameFor(s, id, i, texts.toInt);
            && j < |s.mgr.frames|
            && s.mgr.frames[j] == Manager.DispatchedBy(got[i], texts.toInt).value
            && forall k: nat :: i < k < |got| ==> j < FrameFor(s, id, k, texts.toInt)
  {
    var t := s.loop.net.trace;
    hide LoopRuns.Inv, MgrInv, Manager.DispatchedBy, Dispatched, Payloads, Place, Seen, FrameOf;
    PlaceIs(t, id, i);
    FrameOfIs(Payloads(t), Place(t, id, i), texts.toInt);
    forall k: nat | i < k < |Seen(t, HandedOn, id)|
      ensures FrameFor(s, id, i, texts.toInt) < FrameFor(s, id, k, texts.toInt)
    {
      PlaceIs(t, id, k);
      FramesInOrder(Payloads(t), Place(t, id, i), Place(t, id, k), texts.toInt);
    }
  }

  lemma StoppedState(s: Server, texts: Texts)
    requires ServerInv(s, texts) && s.mgr.phase == Stopped
    ensures s.loop.phase == Over && s.mgr.skipped == []
  {
    hide LoopRuns.Inv;
  }

  /** Payload i of a connection is a well-formed frame, and it has been called: its
      commands were dispatched, and each background command of it has been called exactly
      once, those of a group in array order, with the invocation registered. */
  ghost predicate PayloadCalled(s: Server, id: nat, i: nat, toInt: Truncation, commands: seq<Command>)
  {
    && i < |Seen(s.loop.net.trace, HandedOn, id)|
    && s.mgr.skipped == []
    && var j := FrameFor(s, id, i, toInt);
    j < |s.mgr.frames| && s.mgr.frames[j] == commands && CalledInFull(s.mgr, j)
  }

  lemma StoppedHasCalled(s: Server, texts: Texts, id: nat, i: nat)
    requires ServerInv(s, texts) && s.mgr.phase == Stopped
    requires var got := Seen(s.loop.net.trace, HandedOn, id);
             i < |got| && Manager.DispatchedBy(got[i], texts.toInt).Some?
    ensures var got := Seen(s.loop.net.trace, HandedOn, id);
            PayloadCalled(s, id, i, texts.toInt, Manager.DispatchedBy(got[i], texts.toInt).value)
  {
    StoppedState(s, texts);
    HandedOnIsDispatched(s, texts, id, i);
    hide Manager.DispatchedBy, Dispatched, Payloads, Seen, FrameFor, CalledInFull, LoopRuns.Inv, MgrInv;
    FrameIsCalled(s.mgr, FrameFor(s, id, i, texts.toInt));
  }

  /** From bytes to calls: a peer sends encoded payloads within the limit, and the bytes
      of the i-th have been read, in whatever pieces and mixed with whatever else happens
      on this and other connections. If it is a well-formed frame then it has been called
      when `stop` has returned. */
  lemma BytesAreCalledOnce(
      threadCount: nat, events: seq<ServerEvent>, texts: Texts, id: nat, payloads: seq<Bytes>, i: nat)
    requires WithinLimit(payloads) && i < |payloads|
    requires Manager.DispatchedBy(payloads[i], texts.toInt).Some?
    requires var s := Steps(Started(threadCount), events, texts);
             && s.mgr.phase == Stopped
             && EncodeAll(payloads[..i + 1]) <= Concat(Seen(s.loop.net.trace, Read, id)) <= EncodeAll(payloads)
    ensures var s := Steps(Started(threadCount), events, texts);
            && payloads[..i + 1] <= Seen(s.loop.net.trace, HandedOn, id) <= payloads
            && PayloadCalled(s, id, i, texts.toInt, Manager.DispatchedBy(payloads[i], texts.toInt).value)
  {
    StartedKeeps(threadCount, texts);
    StepsKeep(Started(threadCount), events, texts);
    hide Steps, Started;
    ReadIsCalled(Steps(Started(threadCount), events, texts), texts, id, payloads, i);
  }

  lemma ReadIsCalled(s: Server, texts: Texts, id: nat, payloads: seq<Bytes>, i: nat)
    requires ServerInv(s, texts) && s.mgr.phase == Stopped
    requires WithinLimit(payloads) && i < |payloads|
    requires Manager.DispatchedBy(payloads[i], texts.toInt).Some?
    requires EncodeAll(payloads[..i + 1]) <= Concat(Seen(s.loop.net.trace, Read, id)) <= EncodeAll(payloads)
    ensures payloads[..i + 1] <= Seen(s.loop.net.trace, HandedOn, id) <= payloads
    ensures PayloadCalled(s, id, i, texts.toInt, Manager.DispatchedBy(payloads[i], texts.toInt).value)
  {
    StoppedState(s, texts);
    hide LoopRuns.Inv, MgrInv, Manager.DispatchedBy, Dispatched, Payloads, Seen, EncodeAll, Concat, PayloadCalled;
    LoopRuns.ReceivedOnceRead(s.loop, id, payloads, i);
    assert Seen(s.loop.net.trace, HandedOn, id)[i] == payloads[..i + 1][i];
    StoppedHasCalled(s, texts, id, i);
  }
}

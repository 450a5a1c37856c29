/** What the server sends, and why: every payload queued for a connection is the answer to
    one it sent, the report of a command that threw, or a call of the application. */
module ServerReplies {
  import opened Bytes
  import opened Framing
  import opened Json
  import opened JsonParse
  import opened Network
  import opened EventLoop
  import LoopInvariants
  import LoopRuns
  import FrameCodec
  import opened Commands
  import opened Lifecycle
  import opened ServerRuns
  import ThreadPool
  import Manager

  // ---------- reading the outbox ----------

  function Posted(outbox: seq<Outgoing>, id: nat): seq<Bytes>
  {
    if outbox == [] then []
    else
      var o := outbox[|outbox| - 1];
      Posted(outbox[..|outbox| - 1], id) + if o.id == id then [o.payload] else []
  }

  function Answered(outbox: seq<Outgoing>, id: nat): seq<Bytes>
  {
    if outbox == [] then []
    else
      var o := outbox[|outbox| - 1];
      Answered(outbox[..|outbox| - 1], id) + if o.id == id && o.why.AnswerOf? then [o.payload] else []
  }

  /** The commands whose errors were sent. */
  function Failures(outbox: seq<Outgoing>): seq<ThreadPool.Entry>
  {
    if outbox == [] then []
    else
      var o := outbox[|outbox| - 1];
      Failures(outbox[..|outbox| - 1]) + if o.why.ErrorOf? then [o.why.entry] else []
  }

  lemma OutboxSnoc(outbox: seq<Outgoing>, o: Outgoing)
    ensures forall id :: Posted(outbox + [o], id) == Posted(outbox, id) + if o.id == id then [o.payload] else []
    ensures forall id ::
              Answered(outbox + [o], id)
              == Answered(outbox, id) + if o.id == id && o.why.AnswerOf? then [o.payload] else []
    ensures Failures(outbox + [o]) == Failures(outbox) + if o.why.ErrorOf? then [o.why.entry] else []
  {
    assert (outbox + [o])[..|outbox + [o]| - 1] == outbox;
  }

  /** The answers that these payloads get, in their order. */
  function Answers(payloads: seq<Bytes>, texts: Texts): seq<Bytes>
  {
    if payloads == [] then []
    else
      var last := payloads[|payloads| - 1];
      var answer := Manager.AnswerTo(last, texts.toInt, texts.what(last));
      Answers(payloads[..|payloads| - 1], texts) + if answer.Some? then [answer.value] else []
  }

  lemma AnswersSnoc(payloads: seq<Bytes>, payload: Bytes, texts: Texts)
    ensures var answer := Manager.AnswerTo(payload, texts.toInt, texts.what(payload));
            Answers(payloads + [payload], texts)
            == Answers(payloads, texts) + if answer.Some? then [answer.value] else []
  {
    hide Manager.AnswerTo;
    assert (payloads + [payload])[..|payloads + [payload]| - 1] == payloads;
  }

  // ---------- answers ----------

  function OwedTo(s: Server, id: nat): seq<Bytes>
  {
    if s.owed.Some? && s.owed.value.id == id then [s.owed.value.payload] else []
  }

  /** The outbox is what was accepted, connection by connection; the answers in it are those
      to the payloads handed on, but for the one still owed, whose connection is there. */
  ghost predicate PostsOk(s: Server, texts: Texts)
  {
    var n := s.loop.net;
    && (forall id: nat :: Posted(s.outbox, id) == Seen(n.trace, Accepted, id))
    && (forall id: nat :: Answered(s.outbox, id) + OwedTo(s, id) == Answers(Seen(n.trace, HandedOn, id), texts))
    && (InCallback(s) ==> s.loop.phase.Delivering?)
    && (s.owed.Some? ==> s.owed.value.id in n.connections)
  }

  /** A step that neither queues a payload nor hands one on. */
  lemma SeenSame(n: Net, m: Net, id: nat)
    requires m.trace == n.trace
          || (n.trace < m.trace && |m.trace| == |n.trace| + 1
              && !Last(m.trace).Delivered? && !Last(m.trace).Enqueued?)
    ensures Seen(m.trace, Accepted, id) == Seen(n.trace, Accepted, id)
    ensures Seen(m.trace, HandedOn, id) == Seen(n.trace, HandedOn, id)
  {
    if m.trace != n.trace {
      assert m.trace == n.trace + [Last(m.trace)];
      SeenSnoc(n.trace, Last(m.trace), id);
      hide Seen;
      assert Seen(n.trace, Accepted, id) + [] == Seen(n.trace, Accepted, id);
      assert Seen(n.trace, HandedOn, id) + [] == Seen(n.trace, HandedOn, id);
    }
  }

  lemma LoopSeenSame(l: Loop, e: EventLoop.Event, id: nat)
    requires !Delivers(l, e) && !e.EnqueueBy?
    ensures var r := EventLoop.Next(l, e);
            && Seen(r.net.trace, Accepted, id) == Seen(l.net.trace, Accepted, id)
            && Seen(r.net.trace, HandedOn, id) == Seen(l.net.trace, HandedOn, id)
  {
    hide Seen, Snapshot, FrameCodec.Fed, Flush;
    if e.WriteOut? {
      if l.phase.Writing? && At(l, l.phase.k, l.writable) {
        var entry := l.snapshot[l.phase.k];
        var m := Write(l.net, entry.id, entry.fd, e.results);
        SeenSame(l.net, m, id);
        hide Write, Survives;
        SeenSame(m, Remove(m, entry.id), id);
      }
    } else {
      SeenSame(l.net, EventLoop.Next(l, e).net, id);
    }
  }

  /** Queueing: one more in the outbox exactly when one more was accepted. */
  lemma PostedOne(s: Server, o: Outgoing, texts: Texts)
    requires PostsOk(s, texts) && !o.why.AnswerOf?
    ensures PostsOk(Post(s, o), texts)
  {
    PostEffect(s, o);
    hide Posted, Answered, Answers, Seen, Post, EventLoop.Next;
    forall id: nat
      ensures Posted(Post(s, o).outbox, id) == Seen(Post(s, o).loop.net.trace, Accepted, id)
      ensures Answered(Post(s, o).outbox, id) == Answered(s.outbox, id)
      ensures Seen(Post(s, o).loop.net.trace, HandedOn, id) == Seen(s.loop.net.trace, HandedOn, id)
    {
      PostFlows(s, o, id);
      assert Answered(s.outbox, id) + [] == Answered(s.outbox, id);
    }
  }

  lemma PostEffect(s: Server, o: Outgoing)
    ensures var r := Post(s, o);
            && r.loop.phase == s.loop.phase && r.mgr == s.mgr && r.owed == s.owed
            && r.reports == s.reports && r.dropped == s.dropped
            && (forall id: nat :: id in r.loop.net.connections <==> id in s.loop.net.connections)
            && r.loop.net.latest == s.loop.net.latest
  {
  }

  lemma PostFlows(s: Server, o: Outgoing, id: nat)
    ensures var r := Post(s, o);
            var there := o.id in s.loop.net.connections;
            var more := if there && o.id == id then [o.payload] else [];
            && Posted(r.outbox, id) == Posted(s.outbox, id) + more
            && Seen(r.loop.net.trace, Accepted, id) == Seen(s.loop.net.trace, Accepted, id) + more
            && Seen(r.loop.net.trace, HandedOn, id) == Seen(s.loop.net.trace, HandedOn, id)
            && Answered(r.outbox, id) == Answered(s.outbox, id) + (if o.why.AnswerOf? then more else [])
  {
    hide Posted, Answered, Seen;
    var t := s.loop.net.trace;
    if o.id in s.loop.net.connections {
      OutboxSnoc(s.outbox, o);
      SeenSnoc(t, Enqueued(o.id, o.payload), id);
    }
    assert Seen(t, HandedOn, id) + [] == Seen(t, HandedOn, id);
    assert Seen(t, Accepted, id) + [] == Seen(t, Accepted, id);
    assert Posted(s.outbox, id) + [] == Posted(s.outbox, id);
    assert Answered(s.outbox, id) + [] == Answered(s.outbox, id);
  }

  lemma AnswerSent(s: Server, texts: Texts)
    requires PostsOk(s, texts) && s.owed.Some?
    ensures PostsOk(Step(s, Answer, texts), texts)
  {
    var o := Outgoing(s.owed.value.id, s.owed.value.payload, AnswerOf);
    var start := s.(owed := None);
    var r := Post(start, o);
    PostEffect(start, o);
    hide Posted, Answered, Answers, Seen, Post, EventLoop.Next;
    forall id: nat
      ensures Posted(r.outbox, id) == Seen(r.loop.net.trace, Accepted, id)
      ensures Answered(r.outbox, id) + OwedTo(r, id) == Answers(Seen(r.loop.net.trace, HandedOn, id), texts)
    {
      PostFlows(start, o, id);
      assert Posted(s.outbox, id) == Seen(s.loop.net.trace, Accepted, id);
      assert Answered(s.outbox, id) + OwedTo(s, id) == Answers(Seen(s.loop.net.trace, HandedOn, id), texts);
      assert Answered(r.outbox, id) + [] == Answered(r.outbox, id);
    }
  }

  lemma CallbackEffect(s: Server, texts: Texts)
    requires LoopRuns.Inv(s.loop) && Delivers(s.loop, DeliverOne)
    ensures var here, payload := s.loop.snapshot[s.loop.phase.k].id, s.loop.phase.frames[0];
            var r := Called(s, texts);
            var answer := Manager.AnswerTo(payload, texts.toInt, texts.what(payload));
            && r.loop.net.trace == s.loop.net.trace + [Delivered(here, payload)]
            && r.loop.phase.Delivering? && r.outbox == s.outbox
            && r.owed == (if answer.Some? then Some(Owed(here, answer.value)) else None)
            && here in r.loop.net.connections
  {
    assert Owns(s.loop.net, s.loop.snapshot[s.loop.phase.k]);
    hide LoopRuns.Inv, Manager.AnswerTo, Manager.DispatchedBy, Lifecycle.Next;
  }

  lemma CallbackPosts(s: Server, texts: Texts)
    requires PostsOk(s, texts) && LoopRuns.Inv(s.loop) && !InCallback(s) && Delivers(s.loop, DeliverOne)
    ensures PostsOk(Called(s, texts), texts)
  {
    hide LoopRuns.Inv, Posted, Answered, Answers, Seen, Manager.AnswerTo, Called;
    CallbackEffect(s, texts);
    var here, payload := s.loop.snapshot[s.loop.phase.k].id, s.loop.phase.frames[0];
    var r := Called(s, texts);
    forall id: nat
      ensures Posted(r.outbox, id) == Seen(r.loop.net.trace, Accepted, id)
      ensures Answered(r.outbox, id) + OwedTo(r, id) == Answers(Seen(r.loop.net.trace, HandedOn, id), texts)
    {
      SeenSnoc(s.loop.net.trace, Delivered(here, payload), id);
      AnswersSnoc(Seen(s.loop.net.trace, HandedOn, id), payload, texts);
      assert Posted(s.outbox, id) == Seen(s.loop.net.trace, Accepted, id);
      assert Answered(s.outbox, id) + OwedTo(s, id) == Answers(Seen(s.loop.net.trace, HandedOn, id), texts);
      assert Seen(s.loop.net.trace, Accepted, id) + [] == Seen(s.loop.net.trace, Accepted, id);
      assert Seen(s.loop.net.trace, HandedOn, id) + [] == Seen(s.loop.net.trace, HandedOn, id);
      assert Answered(s.outbox, id) + [] == Answered(s.outbox, id);
    }
  }

  lemma LoopStepPosts(s: Server, le: EventLoop.Event, texts: Texts)
    requires PostsOk(s, texts) && LoopRuns.Inv(s.loop)
    ensures PostsOk(Step(s, LoopStep(le), texts), texts)
  {
    var r := Step(s, LoopStep(le), texts);
    if r != s {
      if Delivers(s.loop, le) {
        hide LoopRuns.Inv, PostsOk, Called;
        CallbackPosts(s, texts);
      } else {
        hide LoopRuns.Inv, Posted, Answered, Answers, Seen, EventLoop.Next;
        forall id: nat
          ensures Seen(r.loop.net.trace, Accepted, id) == Seen(s.loop.net.trace, Accepted, id)
          ensures Seen(r.loop.net.trace, HandedOn, id) == Seen(s.loop.net.trace, HandedOn, id)
        {
          LoopSeenSame(s.loop, le, id);
        }
      }
    }
  }

  lemma ManagerStepPosts(s: Server, me: MgrEvent, texts: Texts)
    requires PostsOk(s, texts)
    ensures PostsOk(Step(s, ManagerStep(me), texts), texts)
  {
    hide Posted, Answered, Answers, Seen, Reported;
    assert !me.Frame? && s.mgr.pending == [] ==> Lifecycle.Next(s.mgr, me).pending == [];
    hide Lifecycle.Next;
  }

  lemma StepPosts(s: Server, e: ServerEvent, texts: Texts)
    requires PostsOk(s, texts) && LoopRuns.Inv(s.loop)
    ensures PostsOk(Step(s, e, texts), texts)
  {
    hide LoopRuns.Inv;
    match e
    case SendBy(id, payload) =>
      hide PostsOk, Post;
      PostedOne(s, Outgoing(id, payload, Application), texts);
    case LoopStep(le) => LoopStepPosts(s, le, texts);
    case Answer =>
      if s.owed.Some? {
        AnswerSent(s, texts);
      }
    case ManagerStep(me) => ManagerStepPosts(s, me, texts);
    case LookUp(w) =>
      hide Posted, Answered, Answers, Seen;
    case ReportError(w) =>
      hide Posted, Answered, Answers, Seen, Post;
      if Reporting(s, w) && s.reports[w].value.target.Some? {
        var report := s.reports[w].value;
        var done := s.(reports := s.reports[w := None]);
        assert PostsOk(done, texts);
        PostedOne(done, Outgoing(report.target.value, report.payload, ErrorOf(report.entry)), texts);
      }
  }

  // ---------- errors ----------

  /** The executed commands that threw. */
  function Threw(log: seq<ThreadPool.Entry>): seq<ThreadPool.Entry>
  {
    if log == [] then []
    else
      var last := log[|log| - 1];
      Threw(log[..|log| - 1]) + if last.threw then [last] else []
  }

  lemma ThrewSnoc(log: seq<ThreadPool.Entry>, e: ThreadPool.Entry)
    ensures Threw(log + [e]) == Threw(log) + if e.threw then [e] else []
  {
    assert (log + [e])[..|log + [e]| - 1] == log;
  }

  function OpenReport(r: Option<Report>): multiset<ThreadPool.Entry>
  {
    if r.Some? then multiset{r.value.entry} else multiset{}
  }

  /** The commands whose errors have still to be reported. */
  function Open(reports: seq<Option<Report>>): multiset<ThreadPool.Entry>
  {
    if reports == [] then multiset{} else OpenReport(reports[0]) + Open(reports[1..])
  }

  lemma {:induction false} OpenUpdate(reports: seq<Option<Report>>, w: nat, r: Option<Report>)
    requires w < |reports|
    ensures Open(reports[w := r]) + OpenReport(reports[w]) == Open(reports) + OpenReport(r)
  {
    hide OpenReport;
    var next := reports[w := r];
    if w == 0 {
      assert next[1..] == reports[1..];
    } else {
      assert next[1..] == reports[1..][w - 1 := r] && next[0] == reports[0];
      assert reports[1..][w - 1] == reports[w];
      OpenUpdate(reports[1..], w - 1, r);
      OpenCons(next);
      OpenCons(reports);
      hide Open;
      Regroup(OpenReport(reports[0]), Open(next[1..]), OpenReport(reports[w]), Open(reports[1..]), OpenReport(r));
    }
  }

  lemma OpenCons(reports: seq<Option<Report>>)
    requires reports != []
    ensures Open(reports) == OpenReport(reports[0]) + Open(reports[1..])
  {
  }

  lemma Regroup<T>(a: multiset<T>, b: multiset<T>, c: multiset<T>, d: multiset<T>, e: multiset<T>)
    requires b + c == d + e
    ensures (a + b) + c == (a + d) + e
  {
    assert (a + b) + c == a + (b + c);
    assert (a + d) + e == a + (d + e);
  }

  /** A report has been made: its command is now among those sent, or those dropped. */
  lemma Settled<T>(threw: multiset<T>, sent: seq<T>, dropped: seq<T>, open: multiset<T>, less: multiset<T>, e: T)
    requires threw == multiset(sent) + multiset(dropped) + open && less + multiset{e} == open
    ensures threw == multiset(sent + [e]) + multiset(dropped) + less
    ensures threw == multiset(sent) + multiset(dropped + [e]) + less
  {
  }

  /** A command has thrown: it is now to be reported. */
  lemma Opened<T>(threw: seq<T>, sent: seq<T>, dropped: seq<T>, open: multiset<T>, more: multiset<T>, e: T)
    requires multiset(threw) == multiset(sent) + multiset(dropped) + open && more == open + multiset{e}
    ensures multiset(threw + [e]) == multiset(sent) + multiset(dropped) + more
  {
  }

  lemma {:induction false} NothingOpen(reports: seq<Option<Report>>)
    requires forall w :: 0 <= w < |reports| ==> reports[w].None?
    ensures Open(reports) == multiset{}
  {
    if reports != [] {
      NothingOpen(reports[1..]);
    }
  }

  /** The report names the command that threw. */
  predicate TextOk(m: Mgr, entry: ThreadPool.Entry, payload: Bytes, texts: Texts)
  {
    CommandOf(m, entry).Some? && payload == ErrorText(m, entry, texts)
  }

  /** Every command that threw is in exactly one place: its error was sent, or dropped for
      want of a connection, or its worker has still to report it. */
  ghost predicate Balanced(s: Server)
  {
    multiset(Threw(s.mgr.pool.log)) == multiset(Failures(s.outbox)) + multiset(s.dropped) + Open(s.reports)
  }

  /** A worker with a report is inside a task. */
  ghost predicate ReportsOk(s: Server, texts: Texts)
  {
    && |s.reports| == |s.mgr.pool.workers|
    && forall w: nat :: Reporting(s, w) ==>
         && s.mgr.pool.workers[w].Running?
         && TextOk(s.mgr, s.reports[w].value.entry, s.reports[w].value.payload, texts)
  }

  ghost predicate SentOk(s: Server, texts: Texts)
  {
    forall o <- s.outbox :: o.why.ErrorOf? ==> TextOk(s.mgr, o.why.entry, o.payload, texts)
  }

  ghost predicate ErrorsOk(s: Server, texts: Texts)
  {
    Balanced(s) && ReportsOk(s, texts) && SentOk(s, texts)
  }

  lemma TextStays(m: Mgr, r: Mgr, entry: ThreadPool.Entry, payload: Bytes, texts: Texts)
    requires m.handed <= r.handed && TextOk(m, entry, payload, texts)
    ensures TextOk(r, entry, payload, texts)
  {
    hide Manager.ReplyText;
  }

  /** Steps that execute nothing that throws and send no error. */
  lemma ErrorsSame(s: Server, r: Server, texts: Texts)
    requires ErrorsOk(s, texts)
    requires r.reports == s.reports && r.dropped == s.dropped && Failures(r.outbox) == Failures(s.outbox)
    requires forall o <- r.outbox :: o.why.ErrorOf? ==> o in s.outbox
    requires s.mgr.handed <= r.mgr.handed
    requires Threw(r.mgr.pool.log) == Threw(s.mgr.pool.log)
    requires |r.mgr.pool.workers| == |s.mgr.pool.workers|
    requires forall w: nat :: Reporting(s, w) && s.mgr.pool.workers[w].Running? ==> r.mgr.pool.workers[w].Running?
    ensures ErrorsOk(r, texts)
  {
    assert Balanced(r) by {
      hide Threw, Failures, Open;
    }
    hide TextOk, Balanced;
    forall o | o in r.outbox && o.why.ErrorOf?
      ensures TextOk(r.mgr, o.why.entry, o.payload, texts)
    {
      TextStays(s.mgr, r.mgr, o.why.entry, o.payload, texts);
    }
    forall w: nat | Reporting(r, w)
      ensures TextOk(r.mgr, r.reports[w].value.entry, r.reports[w].value.payload, texts)
    {
      assert Reporting(s, w);
      TextStays(s.mgr, r.mgr, s.reports[w].value.entry, s.reports[w].value.payload, texts);
    }
  }

  lemma PostErrors(s: Server, o: Outgoing, texts: Texts)
    requires ErrorsOk(s, texts) && !o.why.ErrorOf?
    ensures ErrorsOk(Post(s, o), texts)
  {
    OutboxSnoc(s.outbox, o);
    assert Failures(s.outbox) + [] == Failures(s.outbox);
    PostEffect(s, o);
    var r := Post(s, o);
    assert r.outbox == s.outbox || r.outbox == s.outbox + [o];
    hide Post, ErrorsOk, Failures, Threw, Posted, Answered;
    ErrorsSame(s, r, texts);
  }

  /** What sending a report changes. */
  lemma SendEffect(s: Server, w: nat)
    requires Reporting(s, w) && s.reports[w].value.target.Some?
    ensures var r := SendReport(s, w);
            var report := s.reports[w].value;
            var o := Outgoing(report.target.value, report.payload, ErrorOf(report.entry));
            && r.mgr == s.mgr && r.reports == s.reports[w := None]
            && ((r.outbox == s.outbox + [o] && r.dropped == s.dropped)
                || (r.outbox == s.outbox && r.dropped == s.dropped + [report.entry]))
  {
    var report := s.reports[w].value;
    var o := Outgoing(report.target.value, report.payload, ErrorOf(report.entry));
    PostEffect(s.(reports := s.reports[w := None]), o);
    hide EventLoop.Next;
  }

  lemma BalancedIs(s: Server)
    ensures Balanced(s) <==>
              multiset(Threw(s.mgr.pool.log)) == multiset(Failures(s.outbox)) + multiset(s.dropped) + Open(s.reports)
  {
    hide Threw, Failures, Open;
  }

  lemma ReportCloses(reports: seq<Option<Report>>, w: nat)
    requires w < |reports| && reports[w].Some?
    ensures Open(reports[w := None]) + multiset{reports[w].value.entry} == Open(reports)
  {
    OpenUpdate(reports, w, None);
    hide Open;
    assert OpenReport(reports[w]) == multiset{reports[w].value.entry};
  }

  lemma ReportOpens(reports: seq<Option<Report>>, w: nat, r: Report)
    requires w < |reports| && reports[w].None?
    ensures Open(reports[w := Some(r)]) == Open(reports) + multiset{r.entry}
  {
    OpenUpdate(reports, w, Some(r));
    hide Open;
    assert OpenReport(None) == multiset{} && OpenReport(Some(r)) == multiset{r.entry};
  }

  lemma ReportingIs(s: Server, w: nat)
    ensures Reporting(s, w) <==> w < |s.reports| && s.reports[w].Some?
  {
  }

  lemma SendBalanced(s: Server, w: nat)
    requires Balanced(s) && Reporting(s, w) && s.reports[w].value.target.Some?
    ensures Balanced(SendReport(s, w))
  {
    hide *;
    ReportingIs(s, w);
    var report := s.reports[w].value;
    var o := Outgoing(report.target.value, report.payload, ErrorOf(report.entry));
    SendEffect(s, w);
    BalancedIs(s);
    BalancedIs(SendReport(s, w));
    ReportCloses(s.reports, w);
    OutboxSnoc(s.outbox, o);
    Settled(multiset(Threw(s.mgr.pool.log)), Failures(s.outbox), s.dropped, Open(s.reports),
            Open(s.reports[w := None]), report.entry);
  }

  lemma SendErrors(s: Server, w: nat, texts: Texts)
    requires ErrorsOk(s, texts) && Reporting(s, w) && s.reports[w].value.target.Some?
    ensures ErrorsOk(SendReport(s, w), texts)
  {
    SendBalanced(s, w);
    SendTexts(s, w, texts);
    hide SendReport, Balanced, ReportsOk, SentOk;
  }

  lemma SendTexts(s: Server, w: nat, texts: Texts)
    requires ReportsOk(s, texts) && SentOk(s, texts) && Reporting(s, w) && s.reports[w].value.target.Some?
    ensures ReportsOk(SendReport(s, w), texts) && SentOk(SendReport(s, w), texts)
  {
    SendEffect(s, w);
    SameManager(s, SendReport(s, w), texts);
    hide SendReport, TextOk;
    assert TextOk(s.mgr, s.reports[w].value.entry, s.reports[w].value.payload, texts);
    var r := SendReport(s, w);
    assert forall v: nat :: Reporting(r, v) ==> Reporting(s, v) && r.reports[v] == s.reports[v];
  }

  lemma SameManager(s: Server, r: Server, texts: Texts)
    requires s.mgr == r.mgr
    ensures forall entry, payload :: TextOk(s.mgr, entry, payload, texts) == TextOk(r.mgr, entry, payload, texts)
  {
    hide TextOk;
  }

  lemma PoolStepWorkers(p: ThreadPool.Pool, e: ThreadPool.Event)
    ensures var r := ThreadPool.Apply(p, e);
            && |r.workers| == |p.workers|
            && (forall w :: 0 <= w < |p.workers| && p.workers[w].Running? && !(e.Finish? && e.w == w) ==>
                  r.workers[w].Running?)
            && (!(e.Execute? && ThreadPool.Enabled(p, e)) ==> r.log == p.log)
            && (e.Execute? && ThreadPool.Enabled(p, e) ==> r.log == p.log + ExecutedBy(p, e) && |ExecutedBy(p, e)| == 1)
  {
  }

  /** A step of the manager that does not throw. */
  lemma QuietManagerErrors(s: Server, me: MgrEvent, texts: Texts)
    requires ErrorsOk(s, texts) && MayStep(s, me) && !(me.PoolStep? && me.e.Execute?)
    ensures ErrorsOk(Step(s, ManagerStep(me), texts), texts)
  {
    var r := Step(s, ManagerStep(me), texts);
    if me.PoolStep? {
      PoolStepWorkers(s.mgr.pool, me.e);
    } else if me.Hand? && s.mgr.pending != [] {
      PoolStepWorkers(s.mgr.pool, ThreadPool.Submit(s.mgr.pending[0]));
    } else {
      PoolStepWorkers(s.mgr.pool, ThreadPool.Stop);
    }
    hide ThreadPool.Apply, ThreadPool.Enabled, ExecutedBy, ErrorsOk, Threw, Failures;
    ErrorsSame(s, r, texts);
  }

  /** What executing a command changes. */
  lemma ExecuteEffect(s: Server, w: nat, threw: bool, texts: Texts)
    requires ReportsOk(s, texts) && MgrInv(s.mgr)
    requires var me := PoolStep(ThreadPool.Execute(w, threw)); MayStep(s, me) && CanHappen(s.mgr, me)
    ensures var r := Step(s, ManagerStep(PoolStep(ThreadPool.Execute(w, threw))), texts);
            var entry := ExecutedBy(s.mgr.pool, ThreadPool.Execute(w, threw))[0];
            && r.mgr.handed == s.mgr.handed && r.outbox == s.outbox && r.dropped == s.dropped
            && r.mgr.pool.log == s.mgr.pool.log + [entry] && entry.threw == threw
            && w < |s.reports| && s.reports[w].None?
            && CommandOf(s.mgr, entry).Some?
            && r.reports == (if threw then s.reports[w := Some(Report(entry, ErrorText(s.mgr, entry, texts), None))]
                             else s.reports)
            && |r.mgr.pool.workers| == |s.mgr.pool.workers| && r.mgr.pool.workers[w].Running?
            && (forall v :: 0 <= v < |s.reports| && s.mgr.pool.workers[v].Running? ==> r.mgr.pool.workers[v].Running?)
  {
    var pe := ThreadPool.Execute(w, threw);
    PoolStepWorkers(s.mgr.pool, pe);
    Registered(s.mgr, pe);
    assert s.mgr.pool.workers[w].Running?;
    assert ExecutedBy(s.mgr.pool, pe)
        == [ThreadPool.Entry(s.mgr.pool.workers[w].task, s.mgr.pool.workers[w].next, threw)];
    assert s.mgr.pool.groups == s.mgr.handed;
    assert |s.reports| == |s.mgr.pool.workers|;
    assert s.reports[w].None? by {
      assert !Reporting(s, w);
    }
    hide MgrInv, ReportsOk, ErrorText, ThreadPool.Apply;
  }

  lemma CanExecute(m: Mgr, e: ThreadPool.Event)
    requires e.Execute? && CanHappen(m, PoolStep(e))
    ensures ThreadPool.Enabled(m.pool, e) && |ExecutedBy(m.pool, e)| == 1
  {
    hide ThreadPool.Enabled;
  }

  lemma ExecuteErrors(s: Server, w: nat, threw: bool, texts: Texts)
    requires ErrorsOk(s, texts) && MgrInv(s.mgr)
    requires var me := PoolStep(ThreadPool.Execute(w, threw)); MayStep(s, me) && CanHappen(s.mgr, me)
    ensures ErrorsOk(Step(s, ManagerStep(PoolStep(ThreadPool.Execute(w, threw))), texts), texts)
  {
    CanExecute(s.mgr, ThreadPool.Execute(w, threw));
    hide MgrInv, Step, ExecutedBy, MayStep, ErrorText, CommandOf, CanHappen, Balanced, ReportsOk, SentOk;
    ExecuteEffect(s, w, threw, texts);
    var entry := ExecutedBy(s.mgr.pool, ThreadPool.Execute(w, threw))[0];
    var r := Step(s, ManagerStep(PoolStep(ThreadPool.Execute(w, threw))), texts);
    ExecuteBalanced(s, r, w, entry, ErrorText(s.mgr, entry, texts));
    ExecuteTexts(s, r, w, entry, texts);
  }

  /** The texts after a step that executed a command of worker w. */
  lemma ExecuteTexts(s: Server, r: Server, w: nat, entry: ThreadPool.Entry, texts: Texts)
    requires ReportsOk(s, texts) && SentOk(s, texts) && CommandOf(s.mgr, entry).Some?
    requires r.mgr.handed == s.mgr.handed && r.outbox == s.outbox && w < |s.reports|
    requires r.reports == s.reports
          || r.reports == s.reports[w := Some(Report(entry, ErrorText(s.mgr, entry, texts), None))]
    requires |r.mgr.pool.workers| == |s.mgr.pool.workers| && r.mgr.pool.workers[w].Running?
    requires forall v :: 0 <= v < |s.reports| && s.mgr.pool.workers[v].Running? ==> r.mgr.pool.workers[v].Running?
    ensures ReportsOk(r, texts) && SentOk(r, texts)
  {
    assert TextOk(s.mgr, entry, ErrorText(s.mgr, entry, texts), texts);
    hide TextOk, ErrorText, CommandOf;
    forall o | o in r.outbox && o.why.ErrorOf?
      ensures TextOk(r.mgr, o.why.entry, o.payload, texts)
    {
      TextStays(s.mgr, r.mgr, o.why.entry, o.payload, texts);
    }
    forall v: nat | Reporting(r, v)
      ensures TextOk(r.mgr, r.reports[v].value.entry, r.reports[v].value.payload, texts)
    {
      assert v == w || Reporting(s, v);
      TextStays(s.mgr, r.mgr, r.reports[v].value.entry, r.reports[v].value.payload, texts);
    }
  }

  lemma ExecuteBalanced(s: Server, r: Server, w: nat, entry: ThreadPool.Entry, payload: Bytes)
    requires Balanced(s) && w < |s.reports| && s.reports[w].None?
    requires r.outbox == s.outbox && r.dropped == s.dropped && r.mgr.pool.log == s.mgr.pool.log + [entry]
    requires r.reports == if entry.threw then s.reports[w := Some(Report(entry, payload, None))] else s.reports
    ensures Balanced(r)
  {
    hide *;
    BalancedIs(s);
    BalancedIs(r);
    ThrewSnoc(s.mgr.pool.log, entry);
    ReportOpens(s.reports, w, Report(entry, payload, None));
    var threw := Threw(s.mgr.pool.log);
    if entry.threw {
      Opened(threw, Failures(s.outbox), s.dropped, Open(s.reports), Open(r.reports), entry);
    } else {
      assert threw + [] == threw;
    }
  }

  /** While anything can be executed the invocation is registered. */
  lemma Registered(m: Mgr, e: ThreadPool.Event)
    requires MgrInv(m) && e.Execute? && ThreadPool.Enabled(m.pool, e)
    ensures m.invocation
  {
    hide ThreadPool.Inv;
  }

  lemma StepErrors(s: Server, e: ServerEvent, texts: Texts)
    requires ErrorsOk(s, texts) && MgrInv(s.mgr)
    ensures ErrorsOk(Step(s, e, texts), texts)
  {
    hide MgrInv, Post, SendReport;
    match e
    case SendBy(id, payload) =>
      hide ErrorsOk;
      PostErrors(s, Outgoing(id, payload, Application), texts);
    case Answer =>
      if s.owed.Some? {
        assert ErrorsOk(s.(owed := None), texts);
        hide ErrorsOk;
        PostErrors(s.(owed := None), Outgoing(s.owed.value.id, s.owed.value.payload, AnswerOf), texts);
      }
    case LoopStep(le) => LoopStepErrors(s, le, texts);
    case ManagerStep(me) =>
      hide ErrorsOk;
      if MayStep(s, me) {
        if me.PoolStep? && me.e.Execute? {
          if CanHappen(s.mgr, me) {
            ExecuteErrors(s, me.e.w, me.e.threw, texts);
          }
        } else {
          QuietManagerErrors(s, me, texts);
        }
      }
    case LookUp(w) => LookUpErrors(s, w, texts);
    case ReportError(w) =>
      hide ErrorsOk;
      if Reporting(s, w) && s.reports[w].value.target.Some? {
        SendErrors(s, w, texts);
      }
  }

  lemma LoopStepErrors(s: Server, le: EventLoop.Event, texts: Texts)
    requires ErrorsOk(s, texts)
    ensures ErrorsOk(Step(s, LoopStep(le), texts), texts)
  {
    var r := Step(s, LoopStep(le), texts);
    hide EventLoop.Next, Manager.DispatchedBy, Manager.AnswerTo, ErrorsOk, Threw, Failures;
    assert r.mgr.pool == s.mgr.pool && r.mgr.handed == s.mgr.handed && r.outbox == s.outbox;
    ErrorsSame(s, r, texts);
  }

  lemma LookUpErrors(s: Server, w: nat, texts: Texts)
    requires ErrorsOk(s, texts)
    ensures ErrorsOk(Step(s, LookUp(w), texts), texts)
  {
    LookUpEffect(s, w, texts);
    var r := Step(s, LookUp(w), texts);
    if r != s {
      var report := s.reports[w].value;
      hide Step, Open, ReportsOk, SentOk, Balanced;
      SameEntryOpen(s.reports, w, report.(target := Some(s.loop.net.latest)));
      SameOpen(s, r);
      LookUpTexts(s, r, w, texts);
    }
  }

  lemma LookUpEffect(s: Server, w: nat, texts: Texts)
    ensures var r := Step(s, LookUp(w), texts);
            r != s ==> Reporting(s, w)
                       && var report := s.reports[w].value.(target := Some(s.loop.net.latest));
                       r == s.(reports := s.reports[w := Some(report)])
  {
  }

  lemma SameEntryOpen(reports: seq<Option<Report>>, w: nat, r: Report)
    requires w < |reports| && reports[w].Some? && reports[w].value.entry == r.entry
    ensures Open(reports[w := Some(r)]) == Open(reports)
  {
    OpenUpdate(reports, w, Some(r));
    hide Open;
    assert OpenReport(reports[w]) == OpenReport(Some(r));
    Cancel(Open(reports[w := Some(r)]), Open(reports), OpenReport(Some(r)));
  }

  lemma Cancel<T>(a: multiset<T>, b: multiset<T>, c: multiset<T>)
    requires a + c == b + c
    ensures a == b
  {
    assert a == (a + c) - c;
    assert b == (b + c) - c;
  }

  lemma SameOpen(s: Server, r: Server)
    requires Balanced(s) && Open(r.reports) == Open(s.reports)
    requires r.outbox == s.outbox && r.dropped == s.dropped && r.mgr == s.mgr
    ensures Balanced(r)
  {
    hide *;
    BalancedIs(s);
    BalancedIs(r);
  }

  lemma LookUpTexts(s: Server, r: Server, w: nat, texts: Texts)
    requires ReportsOk(s, texts) && SentOk(s, texts) && Reporting(s, w)
    requires r.mgr == s.mgr && r.outbox == s.outbox
    requires exists target :: r.reports == s.reports[w := Some(s.reports[w].value.(target := target))]
    ensures ReportsOk(r, texts) && SentOk(r, texts)
  {
    hide TextOk;
    assert forall v: nat :: Reporting(r, v) ==>
             Reporting(s, v) && r.reports[v].value.entry == s.reports[v].value.entry
             && r.reports[v].value.payload == s.reports[v].value.payload;
  }

  // ---------- main results ----------

  ghost predicate RepliesInv(s: Server, texts: Texts)
  {
    ServerInv(s, texts) && PostsOk(s, texts) && ErrorsOk(s, texts)
  }

  lemma StepReplies(s: Server, e: ServerEvent, texts: Texts)
    requires RepliesInv(s, texts)
    ensures RepliesInv(Step(s, e, texts), texts)
  {
    ServerRuns.StepKeeps(s, e, texts);
    hide PostsOk, ErrorsOk, Step, LoopRuns.Inv, MgrInv;
    StepPosts(s, e, texts);
    StepErrors(s, e, texts);
  }

  lemma {:induction false} StepsReplies(s: Server, events: seq<ServerEvent>, texts: Texts)
    requires RepliesInv(s, texts)
    ensures RepliesInv(Steps(s, events, texts), texts)
    decreases |events|
  {
    hide RepliesInv, Step;
    if events != [] {
      StepReplies(s, events[0], texts);
      StepsReplies(Step(s, events[0], texts), events[1..], texts);
    }
  }

  lemma StartedReplies(threadCount: nat, texts: Texts)
    ensures RepliesInv(Started(threadCount), texts)
  {
    StartedKeeps(threadCount, texts);
    NothingOpen(Started(threadCount).reports);
    hide ServerInv;
    assert multiset(Threw([])) == multiset{};
  }

  /** Everything queued for a connection is accounted for, in order: the outbox says of
      each payload why it was sent. The answers among them are exactly the answers to the
      payloads handed on, each once and in their order; at most the last is still owed,
      inside the callback, and its connection is there to take it. */
  lemma PayloadsAreAnswered(threadCount: nat, events: seq<ServerEvent>, texts: Texts, id: nat)
    ensures var s := Steps(Started(threadCount), events, texts);
            && Posted(s.outbox, id) == Seen(s.loop.net.trace, Accepted, id)
            && Answered(s.outbox, id) + OwedTo(s, id) == Answers(Seen(s.loop.net.trace, HandedOn, id), texts)
            && (!s.loop.phase.Delivering? ==> OwedTo(s, id) == [])
            && (s.owed.Some? ==> s.owed.value.id in s.loop.net.connections)
  {
    StartedReplies(threadCount, texts);
    StepsReplies(Started(threadCount), events, texts);
    hide Steps, ServerInv, ErrorsOk, Posted, Answered, Answers, Seen;
  }

  function Count<T(==)>(xs: seq<T>, x: T): nat
  {
    if xs == [] then 0 else Count(xs[..|xs| - 1], x) + if xs[|xs| - 1] == x then 1 else 0
  }

  /** PONG answers PING and nothing else. */
  lemma OnlyPingGetsPong(payload: Bytes, texts: Texts)
    ensures Manager.AnswerTo(payload, texts.toInt, texts.what(payload)) == Some(Manager.PONG)
       <==> payload == Manager.PING
  {
    var what := texts.what(payload);
    ReplyIsNoPong(what);
    assert Manager.NO_APIS[0] == 91 && Manager.PONG[0] == 80;
    hide Manager.ReplyText, ParseFrame;
  }

  lemma ReplyIsNoPong(what: Bytes)
    ensures Manager.ReplyText(Manager.ERROR, Manager.PARSE_ERROR, what) != Manager.PONG
  {
    Manager.TypedJsonForm(Manager.ERROR, Manager.PARSE_ERROR, what);
    var json := Manager.TypedJson(Manager.ERROR, Manager.PARSE_ERROR, what);
    hide Manager.TypedJson;
    assert Manager.ReplyText(Manager.ERROR, Manager.PARSE_ERROR, what)[0] == 123;
    assert Manager.PONG[0] == 80;
  }

  lemma {:induction false} PongsOfPings(payloads: seq<Bytes>, texts: Texts)
    ensures Count(Answers(payloads, texts), Manager.PONG) == Count(payloads, Manager.PING)
  {
    hide Manager.AnswerTo, Answers, Count;
    if payloads == [] {
      NoAnswers(texts);
    } else {
      var init, last := payloads[..|payloads| - 1], payloads[|payloads| - 1];
      assert payloads == init + [last];
      PongsOfPings(init, texts);
      OnlyPingGetsPong(last, texts);
      AnswersSnoc(init, last, texts);
      CountSnoc(init, last, Manager.PING);
      var answer := Manager.AnswerTo(last, texts.toInt, texts.what(last));
      if answer.Some? {
        CountSnoc(Answers(init, texts), answer.value, Manager.PONG);
      } else {
        assert Answers(init, texts) + [] == Answers(init, texts);
      }
    }
  }

  lemma NoAnswers(texts: Texts)
    ensures Answers([], texts) == [] && Count<Bytes>([], Manager.PONG) == Count<Bytes>([], Manager.PING) == 0
  {
  }

  lemma CountSnoc<T>(xs: seq<T>, y: T, x: T)
    ensures Count(xs + [y], x) == Count(xs, x) + if y == x then 1 else 0
  {
    assert (xs + [y])[..|xs + [y]| - 1] == xs;
  }

  /** Each PING handed on is answered by exactly one PONG on its connection: outside the
      callback the two numbers are equal. */
  lemma EachPingGetsOnePong(threadCount: nat, events: seq<ServerEvent>, texts: Texts, id: nat)
    requires !Steps(Started(threadCount), events, texts).loop.phase.Delivering?
    ensures var s := Steps(Started(threadCount), events, texts);
            Count(Answered(s.outbox, id), Manager.PONG) == Count(Seen(s.loop.net.trace, HandedOn, id), Manager.PING)
  {
    PayloadsAreAnswered(threadCount, events, texts, id);
    var s := Steps(Started(threadCount), events, texts);
    hide Steps, Answered, Answers, Seen, Count, Started;
    PongsOfPings(Seen(s.loop.net.trace, HandedOn, id), texts);
    assert Answered(s.outbox, id) + [] == Answered(s.outbox, id);
  }

  lemma NobodyReports(s: Server, texts: Texts)
    requires ReportsOk(s, texts) && ThreadPool.AllExited(s.mgr.pool)
    ensures forall w :: 0 <= w < |s.reports| ==> s.reports[w].None?
  {
    forall w: nat | w < |s.reports|
      ensures !Reporting(s, w)
    {
    }
  }

  /** Every command that threw is reported exactly once: its error, under its name, is in
      the outbox, or was dropped for want of a connection, or is still to be reported by
      its worker; and when `stop` has returned nothing is left to report. */
  lemma ErrorsAreReported(threadCount: nat, events: seq<ServerEvent>, texts: Texts)
    ensures var s := Steps(Started(threadCount), events, texts);
            && multiset(Threw(s.mgr.calls)) == multiset(Failures(s.outbox)) + multiset(s.dropped) + Open(s.reports)
            && (s.mgr.phase == Stopped ==> Open(s.reports) == multiset{})
            && (forall o <- s.outbox :: o.why.ErrorOf? ==> TextOk(s.mgr, o.why.entry, o.payload, texts))
  {
    StartedReplies(threadCount, texts);
    StepsReplies(Started(threadCount), events, texts);
    var s := Steps(Started(threadCount), events, texts);
    hide Steps, LoopRuns.Inv, PostsOk, TextOk, Threw, Failures, Open;
    if s.mgr.phase == Stopped {
      hide ThreadPool.Inv;
      NobodyReports(s, texts);
      NothingOpen(s.reports);
    }
  }

  /** A worker that looks up where to report finds the connection that delivered the last
      payload, if it is still there, and otherwise none. */
  lemma ReportsGoToTheLatest(s: Server, w: nat, texts: Texts)
    requires ServerInv(s, texts) && Reporting(s, w) && s.reports[w].value.target.None?
    requires !s.loop.phase.Notifying? && s.loop.phase != Over
    ensures var last := LastDelivered(s.loop.net.trace);
            Step(s, LookUp(w), texts).reports[w].value.target
            == Some(if last in s.loop.net.connections then last else 0)
  {
    hide MgrInv, TableOk, LoopInvariants.FlowsOk, SnapshotOk, LoopRuns.ToldOk;
  }

  /** What the peer reads in such a report: type `error`, the name of the command that
      threw as the key, and what it threw as the value. */
  lemma ReportIsReadable(m: Mgr, entry: ThreadPool.Entry, payload: Bytes, texts: Texts)
    requires TextOk(m, entry, payload, texts) && |payload| <= MAX_PAYLOAD
    ensures CommandOf(m, entry).Some?
    ensures var root := Parse(payload);
            && root.Some?
            && Find(root.value, Manager.TYPE) == Some(String([101, 114, 114, 111, 114]))
            && Find(root.value, Manager.KEY) == Some(String(CommandOf(m, entry).value.commandName))
            && Find(root.value, Manager.VALUE) == Some(String(texts.thrown(entry)))
  {
    hide Find, ParseWithin, Manager.ReplyText, Decode, Encode;
    Manager.ReplyArrives(Manager.ERROR, CommandOf(m, entry).value.commandName, texts.thrown(entry));
  }

  /** A report whose connection is still there is queued for it; only one that has none is
      dropped. */
  lemma ReportIsSent(s: Server, w: nat, texts: Texts)
    requires ServerInv(s, texts) && Reporting(s, w) && s.reports[w].value.target.Some?
    ensures var r, report := Step(s, ReportError(w), texts), s.reports[w].value;
            var id := report.target.value;
            && !Reporting(r, w)
            && (id in s.loop.net.connections ==>
                  && r.outbox == s.outbox + [Outgoing(id, report.payload, ErrorOf(report.entry))]
                  && r.dropped == s.dropped)
            && (id !in s.loop.net.connections ==>
                  r.dropped == s.dropped + [report.entry] && r.outbox == s.outbox)
  {
    var n := s.loop.net;
    var id := s.reports[w].value.target.value;
    assert id in n.connections ==> id in Fds(n.connections);
    Network.LawfulTrace(n.trace, id, id);
    hide MgrInv, LoopInvariants.FlowsOk, SnapshotOk, LoopRuns.ToldOk, Lawful, Live, EventLoop.Next;
  }
}

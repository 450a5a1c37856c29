/** Stopping the server: after the running flag is cleared no round of the loop begins, and
    once the current one is over `stop` returns. */
module ServerStop {
  import opened Bytes
  import opened EventLoop
  import opened Lifecycle
  import opened ServerRuns
  import opened ServerReplies
  import LoopRuns
  import ThreadPool

  /** `stop` has cleared the running flag. */
  predicate FlagCleared(s: Server)
  {
    s.mgr.phase != Serving
  }

  /** The loop thread is between rounds for good, or has left the loop. */
  predicate RoundOver(s: Server)
  {
    FlagCleared(s) && (s.loop.phase == Idle || s.loop.phase == Over) && !InCallback(s)
  }

  /** What `stop` does not wait for: calls of the application, and spurious wakeups. */
  predicate Apart(e: ServerEvent)
  {
    e.SendBy? || (e.ManagerStep? && e.mgrEvent.PoolStep? && e.mgrEvent.e.Wakeup?)
  }

  function ReportWeight(r: Option<Report>): nat
  {
    if r.None? then 0 else if r.value.target.None? then 2 else 1
  }

  /** How far `stop` still has to go once the round is over. */
  function ToGo(s: Server): nat
  {
    3 * ThreadPool.Unrest(s.mgr.pool)
    + (if s.mgr.pool.stopped then 0 else 3 * (|s.mgr.pool.workers| + 1) + 1)
    + (if s.loop.phase == Idle then 1 else 0)
    + (if s.mgr.phase == Stopped then 0 else 1)
    + ThreadPool.Sum(s.reports, ReportWeight)
  }

  /** Once the flag is cleared no round begins: the loop does not take a new snapshot. */
  lemma NoRoundBegins(s: Server, e: ServerEvent, texts: Texts)
    requires FlagCleared(s) && s.loop.phase != Accepting
    ensures FlagCleared(Step(s, e, texts)) && Step(s, e, texts).loop.phase != Accepting
  {
    hide Write, Survives, Snapshot, Reported;
    PhaseStays(s.mgr, e, texts);
    hide Lifecycle.Next;
  }

  lemma PhaseStays(m: Mgr, e: ServerEvent, texts: Texts)
    ensures forall me :: m.phase != Serving ==> Lifecycle.Next(m, me).phase != Serving
  {
  }

  /** Between rounds the only step of the loop thread is to leave the loop. */
  lemma LoopOnlyLeaves(s: Server, le: EventLoop.Event, texts: Texts)
    requires RoundOver(s)
    ensures var r := Step(s, LoopStep(le), texts);
            r == s || (le == Finish && s.loop.phase == Idle && r.loop.phase == Over
                       && r.mgr == Lifecycle.Next(s.mgr, LoopExits) && r.reports == s.reports && r.owed == s.owed)
  {
    hide Write, Survives, Snapshot, Lifecycle.Next;
  }

  lemma LeavingKeeps(m: Mgr)
    ensures var r := Lifecycle.Next(m, LoopExits);
            r.pool == m.pool && r.phase == m.phase && r.pending == m.pending
  {
  }

  lemma LoopStepGoes(s: Server, le: EventLoop.Event, texts: Texts)
    requires RoundOver(s)
    ensures var r := Step(s, LoopStep(le), texts);
            RoundOver(r) && (r == s || ToGo(r) < ToGo(s))
  {
    LoopOnlyLeaves(s, le, texts);
    LeavingKeeps(s.mgr);
    hide Step, Lifecycle.Next, ThreadPool.Unrest, ThreadPool.Sum;
  }

  lemma PoolReports(s: Server, e: ThreadPool.Event, texts: Texts)
    requires ReportsOk(s, texts) && MgrInv(s.mgr) && MayStep(s, PoolStep(e)) && CanHappen(s.mgr, PoolStep(e))
    requires e.Execute?
    ensures var r := Step(s, ManagerStep(PoolStep(e)), texts);
            ThreadPool.Sum(r.reports, ReportWeight) <= ThreadPool.Sum(s.reports, ReportWeight) + 2
  {
    ExecuteEffect(s, e.w, e.threw, texts);
    hide Step, ReportsOk, MgrInv, MayStep, ExecutedBy, ErrorText, CommandOf, CanHappen, ThreadPool.Sum;
    var r := Step(s, ManagerStep(PoolStep(e)), texts);
    if r.reports != s.reports {
      ThreadPool.SumUpdate(s.reports, e.w, r.reports[e.w], ReportWeight);
    }
  }

  lemma PoolStepGoes(s: Server, e: ThreadPool.Event, texts: Texts)
    requires RoundOver(s) && ReportsOk(s, texts) && MgrInv(s.mgr)
    requires MayStep(s, PoolStep(e)) && CanHappen(s.mgr, PoolStep(e))
    ensures var r := Step(s, ManagerStep(PoolStep(e)), texts);
            && RoundOver(r)
            && (if e.Wakeup? then ToGo(r) == ToGo(s) + 3 else ToGo(r) < ToGo(s))
  {
    hide *;
    var r := Step(s, ManagerStep(PoolStep(e)), texts);
    PoolStepFrame(s, e, texts);
    ThreadPool.StepsSettle(s.mgr.pool, e);
    if e.Execute? {
      PoolReports(s, e, texts);
    }
    ToGoIs(s);
    ToGoIs(r);
    RoundStaysOver(s, r);
  }

  lemma ToGoIs(s: Server)
    ensures ToGo(s) == 3 * ThreadPool.Unrest(s.mgr.pool)
                       + (if s.mgr.pool.stopped then 0 else 3 * (|s.mgr.pool.workers| + 1) + 1)
                       + (if s.loop.phase == Idle then 1 else 0)
                       + (if s.mgr.phase == Stopped then 0 else 1)
                       + ThreadPool.Sum(s.reports, ReportWeight)
  {
    hide ThreadPool.Unrest, ThreadPool.Sum;
  }

  lemma RoundStaysOver(s: Server, r: Server)
    requires RoundOver(s) && r.loop == s.loop && r.owed == s.owed
    requires r.mgr.phase == s.mgr.phase && r.mgr.pending == s.mgr.pending
    ensures RoundOver(r)
  {
  }

  /** What a step of the pool leaves alone. */
  lemma PoolStepFrame(s: Server, e: ThreadPool.Event, texts: Texts)
    requires MayStep(s, PoolStep(e)) && CanHappen(s.mgr, PoolStep(e))
    ensures var r := Step(s, ManagerStep(PoolStep(e)), texts);
            && ThreadPool.Enabled(s.mgr.pool, e) && ThreadPool.Internal(e)
            && r.loop == s.loop && r.owed == s.owed && r.mgr.phase == s.mgr.phase && r.mgr.pending == s.mgr.pending
            && r.mgr.pool == ThreadPool.Apply(s.mgr.pool, e)
            && r.mgr.pool.stopped == s.mgr.pool.stopped
            && (!e.Execute? ==> r.reports == s.reports)
  {
    PoolStepLog(s.mgr.pool, e);
    hide ThreadPool.Apply, ThreadPool.Enabled;
  }

  lemma JoinGoes(s: Server, me: MgrEvent, texts: Texts)
    requires RoundOver(s) && MgrInv(s.mgr) && !me.PoolStep?
    ensures var r := Step(s, ManagerStep(me), texts);
            RoundOver(r) && (r == s || ToGo(r) < ToGo(s))
  {
    JoinIs(s, me, texts);
    if me.LoopJoined? && CanHappen(s.mgr, me) {
      StopAddsBroadcast(s.mgr.pool) by {
        assert ThreadPool.Inv(s.mgr.pool) && !s.mgr.pool.stopped;
      }
    }
    hide Step, MgrInv, ThreadPool.Unrest, ThreadPool.Sum, ThreadPool.Apply, ThreadPool.AllExited;
  }

  lemma JoinIs(s: Server, me: MgrEvent, texts: Texts)
    requires !me.PoolStep?
    ensures Step(s, ManagerStep(me), texts) == if MayStep(s, me) then s.(mgr := Lifecycle.Next(s.mgr, me)) else s
  {
    hide Lifecycle.Next, MayStep;
    assert s.received + [] == s.received;
  }

  lemma StopAddsBroadcast(p: ThreadPool.Pool)
    requires ThreadPool.Inv(p) && !p.stopped
    ensures var r := ThreadPool.Apply(p, ThreadPool.Stop);
            r.stopped && |r.workers| == |p.workers| && ThreadPool.Unrest(r) == ThreadPool.Unrest(p) + |p.workers| + 1
  {
    hide ThreadPool.Sum, ThreadPool.Ledger, ThreadPool.QueueInOrder;
  }

  lemma ReportGoes(s: Server, e: ServerEvent, texts: Texts)
    requires RoundOver(s) && (e.LookUp? || e.ReportError?)
    ensures var r := Step(s, e, texts);
            RoundOver(r) && (r == s || ToGo(r) < ToGo(s))
  {
    var r := Step(s, e, texts);
    if r != s {
      if e.LookUp? {
        LookUpEffect(s, e.w, texts);
      } else {
        SendEffect(s, e.w);
        SendLoop(s, e.w);
      }
      hide Step, SendReport, ThreadPool.Unrest, ThreadPool.Sum;
      ThreadPool.SumUpdate(s.reports, e.w, r.reports[e.w], ReportWeight);
    }
  }

  lemma SendLoop(s: Server, w: nat)
    requires Reporting(s, w) && s.reports[w].value.target.Some?
    ensures SendReport(s, w).loop.phase == s.loop.phase && SendReport(s, w).owed == s.owed
  {
  }

  /** Once the round is over it stays over, and every step but those apart brings `stop`
      closer to its end. */
  lemma StopGoesOn(s: Server, e: ServerEvent, texts: Texts)
    requires RepliesInv(s, texts) && RoundOver(s)
    ensures var r := Step(s, e, texts);
            && RoundOver(r)
            && (if Apart(e) then ToGo(r) <= ToGo(s) + 3 else r == s || ToGo(r) < ToGo(s))
  {
    hide MgrInv, LoopRuns.Inv, PostsOk, Balanced, SentOk, ReportsOk, ToGo;
    match e
    case SendBy(id, payload) => PostGoes(s, Outgoing(id, payload, Application));
    case LoopStep(le) => LoopStepGoes(s, le, texts);
    case Answer =>
    case ManagerStep(me) =>
      assert s.received + [] == s.received;
      if me.PoolStep? {
        if MayStep(s, me) && CanHappen(s.mgr, me) {
          PoolStepGoes(s, me.e, texts);
        }
      } else {
        JoinGoes(s, me, texts);
      }
    case LookUp(_) => ReportGoes(s, e, texts);
    case ReportError(_) => ReportGoes(s, e, texts);
  }

  lemma PostGoes(s: Server, o: Outgoing)
    requires RoundOver(s)
    ensures RoundOver(Post(s, o)) && ToGo(Post(s, o)) == ToGo(s)
  {
    PostEffect(s, o);
    hide Post, ThreadPool.Unrest, ThreadPool.Sum;
  }

  /** How many of the events do something that `stop` waits for. */
  function Moves(s: Server, events: seq<ServerEvent>, texts: Texts): nat
    decreases |events|
  {
    if events == [] then 0
    else
      var r := Step(s, events[0], texts);
      (if !Apart(events[0]) && r != s then 1 else 0) + Moves(r, events[1..], texts)
  }

  function Others(events: seq<ServerEvent>): nat
  {
    if events == [] then 0 else (if Apart(events[0]) then 1 else 0) + Others(events[1..])
  }

  lemma {:induction false} StopIsBounded(s: Server, events: seq<ServerEvent>, texts: Texts)
    requires RepliesInv(s, texts) && RoundOver(s)
    ensures var r := Steps(s, events, texts);
            && RepliesInv(r, texts) && RoundOver(r)
            && Moves(s, events, texts) + ToGo(r) <= ToGo(s) + 3 * Others(events)
    decreases |events|
  {
    hide RepliesInv, RoundOver, ToGo, Step, Apart;
    if events != [] {
      StopGoesOn(s, events[0], texts);
      StepReplies(s, events[0], texts);
      StopIsBounded(Step(s, events[0], texts), events[1..], texts);
    }
  }

  /** Until `stop` has returned, something that it waits for can happen. */
  lemma StopNeverStuck(s: Server, texts: Texts)
    requires RepliesInv(s, texts) && RoundOver(s)
    ensures s.mgr.phase == Stopped || exists e :: !Apart(e) && Step(s, e, texts) != s
  {
    if s.mgr.phase == JoiningLoop {
      hide LoopRuns.Inv, PostsOk, ErrorsOk, MgrInv;
      LoopCanBeJoined(s, texts);
    } else if s.mgr.phase == JoiningPool {
      hide LoopRuns.Inv, PostsOk, Balanced, SentOk, ReportsOk;
      PoolCanGoOn(s, texts);
    }
  }

  lemma LoopCanBeJoined(s: Server, texts: Texts)
    requires RoundOver(s) && s.mgr.phase == JoiningLoop && (s.mgr.loopAlive <==> s.loop.phase != Over)
    ensures exists e :: !Apart(e) && Step(s, e, texts) != s
  {
    if s.loop.phase == Idle {
      assert Step(s, LoopStep(Finish), texts).loop.phase == Over;
    } else {
      hide ThreadPool.Apply;
      assert Step(s, ManagerStep(LoopJoined), texts).mgr.phase == JoiningPool;
    }
  }

  lemma PoolCanGoOn(s: Server, texts: Texts)
    requires RoundOver(s) && s.mgr.phase == JoiningPool && MgrInv(s.mgr) && ReportsOk(s, texts)
    ensures exists e :: !Apart(e) && Step(s, e, texts) != s
  {
    var p := s.mgr.pool;
    assert p.stopped && ThreadPool.Inv(p);
    ThreadPool.StoppedIsLive(p);
    hide MgrInv;
    if ThreadPool.AllExited(p) {
      hide ThreadPool.Inv;
      assert Step(s, ManagerStep(PoolJoined), texts).mgr.phase == Stopped;
    } else {
      var e :| ThreadPool.Enabled(p, e) && !e.Wakeup?;
      ThreadPool.StoppedRunsDown(p, e);
      WorkerGoesOn(s, e, texts);
    }
  }

  /** A worker that can take a step takes it, or reports first. */
  lemma WorkerGoesOn(s: Server, e: ThreadPool.Event, texts: Texts)
    requires ThreadPool.Enabled(s.mgr.pool, e) && ThreadPool.Internal(e) && !e.Wakeup?
    requires ThreadPool.Remaining(ThreadPool.Apply(s.mgr.pool, e)) < ThreadPool.Remaining(s.mgr.pool)
    ensures exists x :: !Apart(x) && Step(s, x, texts) != s
  {
    hide ThreadPool.Apply, ThreadPool.Enabled, ThreadPool.Remaining, Reported;
    if MayStep(s, PoolStep(e)) {
      var x := ManagerStep(PoolStep(e));
      assert Step(s, x, texts).mgr.pool != s.mgr.pool;
    } else {
      ReportCanBeMade(s, e.w, texts);
    }
  }

  lemma ReportCanBeMade(s: Server, w: nat, texts: Texts)
    requires Reporting(s, w)
    ensures exists x :: !Apart(x) && Step(s, x, texts) != s
  {
    if s.reports[w].value.target.None? {
      assert Step(s, LookUp(w), texts).reports[w] != s.reports[w];
    } else {
      SendEffect(s, w);
      hide SendReport;
      assert Step(s, ReportError(w), texts).reports[w].None?;
    }
  }

  /** `stop` returns: from any reachable state in which the flag is cleared and the current
      round is over, under every schedule, it does so after a bounded number of steps, calls
      of the application and spurious wakeups apart; no round begins in between. */
  lemma StopReturns(threadCount: nat, before: seq<ServerEvent>, events: seq<ServerEvent>, texts: Texts)
    requires RoundOver(Steps(Started(threadCount), before, texts))
    ensures var s := Steps(Started(threadCount), before, texts);
            var r := Steps(s, events, texts);
            && Moves(s, events, texts) <= ToGo(s) + 3 * Others(events)
            && RoundOver(r)
            && ((forall e :: !Apart(e) ==> Step(r, e, texts) == r) ==> r.mgr.phase == Stopped)
  {
    StartedReplies(threadCount, texts);
    StepsReplies(Started(threadCount), before, texts);
    hide Steps, RepliesInv, RoundOver, ToGo, Step, Apart, Started, Moves, Others;
    var s := Steps(Started(threadCount), before, texts);
    StopIsBounded(s, events, texts);
    StopNeverStuck(Steps(s, events, texts), texts);
  }
}

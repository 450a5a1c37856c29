/** Stopping the manager: the event loop, the pool and the registered invocation. */
module Lifecycle {
  import opened Commands
  import opened Grouping
  import opened Dispatch
  import opened ThreadPool

  /** How far `stop` has come. */
  datatype Phase = Serving | JoiningLoop | JoiningPool | Stopped

  /** `frames` are the frames dispatched so far, `pending` the groups of the last one that
      the loop thread has still to hand over, `handed` those it has. A command executed
      while the invocation is registered is a call, otherwise it is skipped. */
  datatype Mgr = Mgr(
    pool: Pool,
    phase: Phase,
    loopAlive: bool,
    invocation: bool,
    frames: seq<seq<Command>>,
    pending: seq<seq<Command>>,
    handed: seq<seq<Command>>,
    calls: seq<Entry>,
    skipped: seq<Entry>)

  datatype MgrEvent =
    | Frame(commands: seq<Command>)     // the loop thread begins to dispatch a frame
    | Hand                              // it submits the next group to the pool
    | LoopExits                         // the loop ends, told to or on a select error
    | StopCalled
    | LoopJoined
    | PoolJoined
    | PoolStep(e: Event)

  /** The state once `start` has succeeded. */
  function Fresh(threadCount: nat): Mgr
  {
    Mgr(Initial(threadCount), Serving, true, true, [], [], [], [], [])
  }

  predicate CanHappen(m: Mgr, e: MgrEvent)
  {
    match e
    case Frame(_) => m.loopAlive && m.pending == []
    case Hand => m.loopAlive && m.pending != []
    case LoopExits => m.loopAlive && m.pending == []
    case StopCalled => m.phase == Serving
    case LoopJoined => m.phase == JoiningLoop && !m.loopAlive
    case PoolJoined => m.phase == JoiningPool && AllExited(m.pool)
    case PoolStep(p) => Internal(p) && Enabled(m.pool, p)
  }

  function ExecutedBy(s: Pool, e: Event): seq<Entry>
    requires Enabled(s, e)
  {
    if e.Execute? then [Entry(s.workers[e.w].task, s.workers[e.w].next, e.threw)] else []
  }

  function Next(m: Mgr, e: MgrEvent): Mgr
  {
    if !CanHappen(m, e) then m
    else
      match e
      case Frame(commands) =>
        m.(frames := m.frames + [commands], pending := Keep(Groups(commands), PoolGroup))
      case Hand =>
        m.(pool := Apply(m.pool, Submit(m.pending[0])), pending := m.pending[1..], handed := m.handed + [m.pending[0]])
      case LoopExits => m.(loopAlive := false)
      case StopCalled => m.(phase := JoiningLoop)
      case LoopJoined => m.(phase := JoiningPool, pool := Apply(m.pool, Stop))
      case PoolJoined => m.(phase := Stopped, invocation := false)
      case PoolStep(p) =>
        var ran := ExecutedBy(m.pool, p);
        m.(pool := Apply(m.pool, p),
           calls := if m.invocation then m.calls + ran else m.calls,
           skipped := if m.invocation then m.skipped else m.skipped + ran)
  }

  function After(m: Mgr, events: seq<MgrEvent>): Mgr
    decreases |events|
  {
    if events == [] then m else After(Next(m, events[0]), events[1..])
  }

  /** The background groups of all frames, end to end. */
  function PoolGroups(frames: seq<seq<Command>>): seq<seq<Command>>
  {
    if frames == [] then []
    else PoolGroups(frames[..|frames| - 1]) + Keep(Groups(frames[|frames| - 1]), PoolGroup)
  }

  function Background(frames: seq<seq<Command>>): seq<Command>
  {
    if frames == [] then []
    else Background(frames[..|frames| - 1]) + Keep(frames[|frames| - 1], InBackground)
  }

  ghost predicate MgrInv(m: Mgr)
  {
    && Inv(m.pool)
    && m.pool.groups == m.handed
    && (m.pool.stopped <==> m.phase == JoiningPool || m.phase == Stopped)
    && (m.pool.stopped ==> !m.loopAlive)
    && (!m.loopAlive ==> m.pending == [])
    && m.invocation == (m.phase != Stopped)
    && (m.phase == Stopped ==> AllExited(m.pool))
    && m.calls == m.pool.log
    && m.skipped == []
    && m.handed + m.pending == PoolGroups(m.frames)
  }

  lemma PoolStepLog(s: Pool, e: Event)
    requires Internal(e) && Enabled(s, e)
    ensures Apply(s, e).log == s.log + ExecutedBy(s, e)
    ensures Apply(s, e).groups == s.groups && Apply(s, e).stopped == s.stopped
    ensures AllExited(s) ==> AllExited(Apply(s, e)) && ExecutedBy(s, e) == []
  {
  }

  lemma SubmitOrStop(s: Pool, group: seq<Command>)
    requires !s.stopped
    ensures Apply(s, Submit(group)).groups == s.groups + [group] && !Apply(s, Submit(group)).stopped
    ensures Apply(s, Stop).groups == s.groups && Apply(s, Stop).stopped
    ensures Apply(s, Submit(group)).log == Apply(s, Stop).log == s.log
  {
  }

  lemma PoolGroupsSnoc(frames: seq<seq<Command>>, commands: seq<Command>)
    ensures PoolGroups(frames + [commands]) == PoolGroups(frames) + Keep(Groups(commands), PoolGroup)
  {
    hide Groups, Keep;
    assert (frames + [commands])[..|frames + [commands]| - 1] == frames;
  }

  lemma NextKeeps(m: Mgr, e: MgrEvent)
    requires MgrInv(m)
    ensures MgrInv(Next(m, e))
  {
    hide Inv, Apply, Enabled, ExecutedBy, AllExited, Groups, Keep, PoolGroups;
    if CanHappen(m, e) {
      match e
      case Frame(commands) =>
        PoolGroupsSnoc(m.frames, commands);
        assert m.handed + [] == m.handed;
      case Hand =>
        StepKeeps(m.pool, Submit(m.pending[0]));
        SubmitOrStop(m.pool, m.pending[0]);
        assert m.handed + m.pending == (m.handed + [m.pending[0]]) + m.pending[1..];
      case LoopJoined =>
        StepKeeps(m.pool, Stop);
        SubmitOrStop(m.pool, []);
      case PoolStep(p) =>
        StepKeeps(m.pool, p);
        PoolStepLog(m.pool, p);
      case _ =>
    }
  }

  lemma {:induction false} AfterKeeps(m: Mgr, events: seq<MgrEvent>)
    requires MgrInv(m)
    ensures MgrInv(After(m, events))
    decreases |events|
  {
    hide MgrInv, Next;
    if events != [] {
      NextKeeps(m, events[0]);
      AfterKeeps(Next(m, events[0]), events[1..]);
    }
  }

  lemma FreshKeeps(threadCount: nat)
    ensures MgrInv(Fresh(threadCount))
  {
    InitialKeeps(threadCount);
    hide Inv;
  }

  lemma {:induction false} PoolGroupsFlat(frames: seq<seq<Command>>)
    ensures Flatten(PoolGroups(frames)) == Background(frames)
  {
    hide Groups, Keep;
    if frames != [] {
      var n := |frames| - 1;
      PoolGroupsFlat(frames[..n]);
      DispatchConserves(frames[n]);
      FlattenAppend(PoolGroups(frames[..n]), Keep(Groups(frames[n]), PoolGroup));
    }
  }

  /** In no run is a background command executed without the registered invocation, and
      no group handed to the pool is ever dropped, not even while `stop` waits for the
      loop. When `stop` has returned, the groups handed over are all background groups
      of all dispatched frames, and each of their commands has been called exactly once,
      those of one group in array order. */
  lemma StopExecutesEverything(threadCount: nat, events: seq<MgrEvent>)
    ensures var m := After(Fresh(threadCount), events);
            && m.skipped == []
            && m.pool.groups == m.handed
            && (m.phase == Stopped ==>
                  && m.handed == PoolGroups(m.frames)
                  && Flatten(m.handed) == Background(m.frames)
                  && forall t: nat :: Positions(m.calls, t) == if t < |m.handed| then Upto(|m.handed[t]|) else [])
  {
    var m := After(Fresh(threadCount), events);
    FreshKeeps(threadCount);
    AfterKeeps(Fresh(threadCount), events);
    hide After, Inv, AllExited, Positions, Upto, Drained, Groups, Keep, PoolGroups, Flatten, Background;
    DrainedLedger(m.pool);
    PoolGroupsFlat(m.frames);
    assert m.handed + [] == m.handed;
  }

  lemma {:induction false} PoolGroupsPrefix(frames: seq<seq<Command>>, j: nat)
    requires j < |frames|
    ensures PoolGroups(frames[..j]) + Keep(Groups(frames[j]), PoolGroup) <= PoolGroups(frames)
    decreases |frames|
  {
    hide Groups, Keep;
    var n := |frames| - 1;
    if j < n {
      PoolGroupsPrefix(frames[..n], j);
      assert frames[..n][..j] == frames[..j];
    }
  }

  /** The tasks of one dispatched frame: where they start among all tasks, and how many
      there are. */
  function FirstTask(m: Mgr, j: nat): nat
    requires j < |m.frames|
  {
    |PoolGroups(m.frames[..j])|
  }

  function TasksOf(m: Mgr, j: nat): seq<seq<Command>>
    requires j < |m.frames|
  {
    Keep(Groups(m.frames[j]), PoolGroup)
  }

  /** Task t has been called exactly once, command by command in array order. */
  predicate CalledOnce(m: Mgr, t: nat)
    requires t < |m.handed|
  {
    Positions(m.calls, t) == Upto(|m.handed[t]|)
  }

  /** The tasks of frame j are its background groups, end to end its background commands
      in array order, and each of them has been called exactly once. */
  ghost predicate CalledInFull(m: Mgr, j: nat)
    requires j < |m.frames|
  {
    var first, tasks := FirstTask(m, j), TasksOf(m, j);
    && first + |tasks| <= |m.handed|
    && m.handed[first..first + |tasks|] == tasks
    && Flatten(tasks) == Keep(m.frames[j], InBackground)
    && forall t: nat :: first <= t < first + |tasks| ==> CalledOnce(m, t)
  }

  /** A manager that has been stopped has called each frame that it dispatched in full. */
  lemma FrameIsCalled(m: Mgr, j: nat)
    requires MgrInv(m) && m.phase == Stopped && j < |m.frames|
    ensures CalledInFull(m, j)
  {
    hide Inv, AllExited, Positions, Upto, Drained, Groups, Keep, PoolGroups, Flatten;
    PoolGroupsPrefix(m.frames, j);
    DispatchConserves(m.frames[j]);
    DrainedLedger(m.pool);
    assert m.handed + [] == m.handed;
    var before, tasks := PoolGroups(m.frames[..j]), TasksOf(m, j);
    assert m.handed[..|before| + |tasks|] == before + tasks;
    assert m.handed[|before|..|before| + |tasks|] == (before + tasks)[|before|..];
  }

  predicate AllHappen(m: Mgr, events: seq<MgrEvent>)
    decreases |events|
  {
    events == [] || (CanHappen(m, events[0]) && AllHappen(Next(m, events[0]), events[1..]))
  }

  /** Steps left before `stop` returns, once it waits for the pool. */
  function Left(m: Mgr): nat
  {
    Remaining(m.pool) + if m.phase == JoiningPool then 1 else 0
  }

  lemma JoiningStep(m: Mgr, e: MgrEvent)
    requires MgrInv(m) && m.pool.stopped && CanHappen(m, e)
    ensures MgrInv(Next(m, e)) && Next(m, e).pool.stopped && Left(Next(m, e)) < Left(m)
  {
    NextKeeps(m, e);
    hide Inv, Apply, Enabled, ExecutedBy, AllExited, Groups, Keep, Remaining;
    if e.PoolStep? {
      StoppedRunsDown(m.pool, e.e);
    }
  }

  lemma {:induction false} JoiningIsBounded(m: Mgr, events: seq<MgrEvent>)
    requires MgrInv(m) && m.pool.stopped && AllHappen(m, events)
    ensures |events| + Left(After(m, events)) <= Left(m)
    ensures MgrInv(After(m, events)) && After(m, events).pool.stopped
    decreases |events|
  {
    hide MgrInv, CanHappen, Next, Left;
    if events != [] {
      JoiningStep(m, events[0]);
      JoiningIsBounded(Next(m, events[0]), events[1..]);
    }
  }

  /** Once the loop is joined, `stop` returns: whatever the schedule, after a bounded
      number of steps none is left, and then it has. */
  lemma StopReturns(threadCount: nat, before: seq<MgrEvent>, events: seq<MgrEvent>)
    requires var m := After(Fresh(threadCount), before);
             m.phase == JoiningPool && AllHappen(m, events)
    ensures var m := After(Fresh(threadCount), before);
            && |events| <= Left(m)
            && ((forall e :: !CanHappen(After(m, events), e)) ==> After(m, events).phase == Stopped)
  {
    var m := After(Fresh(threadCount), before);
    FreshKeeps(threadCount);
    AfterKeeps(Fresh(threadCount), before);
    JoiningIsBounded(m, events);
    hide After, AllHappen, MgrInv, CanHappen, Left;
    if forall e :: !CanHappen(After(m, events), e) {
      NeverStuck(After(m, events));
    }
  }

  lemma NeverStuck(m: Mgr)
    requires MgrInv(m) && m.pool.stopped
    ensures m.phase == Stopped || exists e :: CanHappen(m, e)
  {
    hide Inv, Enabled, AllExited;
    StoppedIsLive(m.pool);
    if e :| Enabled(m.pool, e) {
      StoppedRunsDown(m.pool, e);
      assert CanHappen(m, PoolStep(e));
    } else if m.phase != Stopped {
      assert CanHappen(m, PoolJoined);
    }
  }
}

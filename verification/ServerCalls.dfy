/** What the application receives: with which arguments each executed command is called, in
    every run of the whole server. */
module ServerCalls {
  import opened Commands
  import opened Grouping
  import opened Dispatch
  import opened Lifecycle
  import opened ServerRuns
  import ThreadPool
  import EventLoop
  import Manager

  /** The application has got one call for each command executed with the invocation
      registered, in that order, with what this command is called with. */
  ghost predicate CallsOk(s: Server, texts: Texts)
  {
    && |s.received| == |s.mgr.calls|
    && forall k :: 0 <= k < |s.received| ==> CallOk(s, s.received[k], s.mgr.calls[k], texts)
  }

  predicate CallOk(s: Server, p: Passed, entry: ThreadPool.Entry, texts: Texts)
  {
    var c := CommandOf(s.mgr, entry);
    p.entry == entry && c.Some? && p.call == CallFor(c.value, texts)
  }

  /** Steps that execute nothing. */
  lemma CallsSame(s: Server, r: Server, texts: Texts)
    requires CallsOk(s, texts) && r.received == s.received && r.mgr.calls == s.mgr.calls
    requires s.mgr.handed <= r.mgr.handed
    ensures CallsOk(r, texts)
  {
    hide CallFor;
    forall k | 0 <= k < |r.received|
      ensures CallOk(r, r.received[k], r.mgr.calls[k], texts)
    {
      assert CallOk(s, s.received[k], s.mgr.calls[k], texts);
    }
  }

  lemma QuietManager(m: Mgr, e: MgrEvent)
    requires !(e.PoolStep? && e.e.Execute? && CanHappen(m, e) && m.invocation)
    ensures Lifecycle.Next(m, e).calls == m.calls
    ensures m.handed <= Lifecycle.Next(m, e).handed
  {
    assert m.calls + [] == m.calls;
  }

  lemma ExecutingManager(m: Mgr, e: MgrEvent)
    requires MgrInv(m) && e.PoolStep? && e.e.Execute? && CanHappen(m, e) && m.invocation
    ensures var entry := ExecutedBy(m.pool, e.e)[0];
            && Lifecycle.Next(m, e).calls == m.calls + [entry]
            && Lifecycle.Next(m, e).handed == m.handed
            && CommandOf(m, entry).Some?
  {
    hide ThreadPool.Inv, PoolGroups, ThreadPool.Apply;
  }

  /** A step that executes one command. */
  lemma CallsMore(s: Server, r: Server, p: Passed, entry: ThreadPool.Entry, texts: Texts)
    requires CallsOk(s, texts) && CallOk(s, p, entry, texts)
    requires r.received == s.received + [p] && r.mgr.calls == s.mgr.calls + [entry] && r.mgr.handed == s.mgr.handed
    ensures CallsOk(r, texts)
  {
    hide CallFor;
    forall k | 0 <= k < |r.received|
      ensures CallOk(r, r.received[k], r.mgr.calls[k], texts)
    {
      if k < |s.received| {
        assert CallOk(s, s.received[k], s.mgr.calls[k], texts);
      }
    }
  }

  lemma ManagerStepCalls(s: Server, me: MgrEvent, texts: Texts)
    requires CallsOk(s, texts) && MgrInv(s.mgr)
    ensures CallsOk(Step(s, ManagerStep(me), texts), texts)
  {
    var r := Step(s, ManagerStep(me), texts);
    if MayStep(s, me) {
      if me.PoolStep? && me.e.Execute? && CanHappen(s.mgr, me) && s.mgr.invocation {
        ExecutingManager(s.mgr, me);
        var entry := ExecutedBy(s.mgr.pool, me.e)[0];
        hide MgrInv, Lifecycle.Next, CanHappen, CallFor, CallsOk, Reported, MayStep, ExecutedBy;
        CallsMore(s, r, Passed(entry, CallFor(CommandOf(s.mgr, entry).value, texts)), entry, texts);
      } else {
        QuietManager(s.mgr, me);
        hide MgrInv, Lifecycle.Next, CanHappen, CallsOk, Reported, MayStep;
        assert s.received + [] == s.received;
        CallsSame(s, r, texts);
      }
    }
  }

  lemma StepCalls(s: Server, e: ServerEvent, texts: Texts)
    requires CallsOk(s, texts) && MgrInv(s.mgr)
    ensures CallsOk(Step(s, e, texts), texts)
  {
    hide CallsOk, MgrInv, EventLoop.Next, Manager.DispatchedBy, Manager.AnswerTo, Groups, Keep;
    match e
    case ManagerStep(me) => ManagerStepCalls(s, me, texts);
    case _ => CallsSame(s, Step(s, e, texts), texts);
  }

  lemma {:induction false} StepsCalls(s: Server, events: seq<ServerEvent>, texts: Texts)
    requires CallsOk(s, texts) && ServerInv(s, texts)
    ensures CallsOk(Steps(s, events, texts), texts)
    decreases |events|
  {
    if events != [] {
      assert MgrInv(s.mgr);
      hide ServerInv, Step, CallsOk, MgrInv;
      StepKeeps(s, events[0], texts);
      StepCalls(s, events[0], texts);
      StepsCalls(Step(s, events[0], texts), events[1..], texts);
    }
  }

  /** In every run, whatever the schedule, each call that the application has got carries
      what the command it was made for demands. */
  lemma CallsAreMeant(threadCount: nat, events: seq<ServerEvent>, texts: Texts)
    ensures CallsOk(Steps(Started(threadCount), events, texts), texts)
  {
    StartedKeeps(threadCount, texts);
    assert CallsOk(Started(threadCount), texts);
    hide ServerInv, Started, Steps, CallsOk;
    StepsCalls(Started(threadCount), events, texts);
  }

  // ---------- the calls of a task ----------

  /** The calls that the application has got for one task, in their order. */
  function CallsOf(received: seq<Passed>, task: nat): seq<Manager.Call>
  {
    if received == [] then []
    else
      var last := received[|received| - 1];
      CallsOf(received[..|received| - 1], task) + if last.entry.task == task then [last.call] else []
  }

  function CallsFor(commands: seq<Command>, texts: Texts): (calls: seq<Manager.Call>)
    ensures |calls| == |commands|
    ensures forall i :: 0 <= i < |commands| ==> calls[i] == CallFor(commands[i], texts)
  {
    seq(|commands|, i requires 0 <= i < |commands| => CallFor(commands[i], texts))
  }

  lemma LastCall(s: Server, n: nat, task: nat)
    requires n <= |s.received| == |s.mgr.calls| && n > 0
    ensures CallsOf(s.received[..n], task)
         == CallsOf(s.received[..n - 1], task)
            + if s.received[n - 1].entry.task == task then [s.received[n - 1].call] else []
    ensures ThreadPool.Positions(s.mgr.calls[..n], task)
         == ThreadPool.Positions(s.mgr.calls[..n - 1], task)
            + if s.mgr.calls[n - 1].task == task then [s.mgr.calls[n - 1].index] else []
  {
    assert s.mgr.calls[..n][..n - 1] == s.mgr.calls[..n - 1];
    assert s.received[..n][..n - 1] == s.received[..n - 1];
  }

  lemma {:induction false} CallsAtPositions(s: Server, n: nat, task: nat, texts: Texts)
    requires CallsOk(s, texts) && n <= |s.received| && task < |s.mgr.handed|
    ensures var positions, calls := ThreadPool.Positions(s.mgr.calls[..n], task), CallsOf(s.received[..n], task);
            && |calls| == |positions|
            && forall x :: 0 <= x < |calls| ==>
                 positions[x] < |s.mgr.handed[task]|
                 && calls[x] == CallFor(s.mgr.handed[task][positions[x]], texts)
  {
    hide CallFor;
    if n > 0 {
      assert CallOk(s, s.received[n - 1], s.mgr.calls[n - 1], texts);
      LastCall(s, n, task);
      CallsAtPositions(s, n - 1, task, texts);
      hide CallsOf, ThreadPool.Positions, CallsOk;
    }
  }

  /** A task that has been called once has been called with its commands, in order. */
  lemma TaskCalls(s: Server, task: nat, texts: Texts)
    requires CallsOk(s, texts) && task < |s.mgr.handed| && CalledOnce(s.mgr, task)
    ensures CallsOf(s.received, task) == CallsFor(s.mgr.handed[task], texts)
  {
    CallsAtPositions(s, |s.received|, task, texts);
    assert s.mgr.calls[..|s.received|] == s.mgr.calls && s.received[..|s.received|] == s.received;
    hide CallFor, CallsOf, ThreadPool.Positions, CallsOk;
    var calls := CallsOf(s.received, task);
    assert |calls| == |s.mgr.handed[task]|;
  }

  /** The calls for so many tasks, task by task. */
  function CallsOfTasks(received: seq<Passed>, first: nat, count: nat): seq<Manager.Call>
  {
    if count == 0 then []
    else CallsOfTasks(received, first, count - 1) + CallsOf(received, first + count - 1)
  }

  lemma CallsForAppend(a: seq<Command>, b: seq<Command>, texts: Texts)
    ensures CallsFor(a + b, texts) == CallsFor(a, texts) + CallsFor(b, texts)
  {
    hide CallFor;
  }

  lemma FlattenSnoc<T>(groups: seq<seq<T>>, last: seq<T>)
    ensures Flatten(groups + [last]) == Flatten(groups) + last
  {
    FlattenAppend(groups, [last]);
    assert [last][1..] == [] && Flatten<T>([]) == [];
    assert Flatten([last]) == last + [];
  }

  lemma {:induction false} TasksCalls(s: Server, first: nat, count: nat, texts: Texts)
    requires CallsOk(s, texts) && first + count <= |s.mgr.handed|
    requires forall t: nat :: first <= t < first + count ==> CalledOnce(s.mgr, t)
    ensures CallsOfTasks(s.received, first, count)
         == CallsFor(Flatten(s.mgr.handed[first..first + count]), texts)
  {
    hide CallFor, CallsOf, CallsOk, CalledOnce, Flatten;
    if count == 0 {
      assert s.mgr.handed[first..first + count] == [];
      assert Flatten<Command>([]) == [] by {
        NothingFlat<Command>();
      }
    } else {
      TasksCalls(s, first, count - 1, texts);
      TaskCalls(s, first + count - 1, texts);
      var before, last := s.mgr.handed[first..first + count - 1], s.mgr.handed[first + count - 1];
      assert s.mgr.handed[first..first + count] == before + [last];
      FlattenSnoc(before, last);
      CallsForAppend(Flatten(before), last, texts);
    }
  }

  lemma NothingFlat<T>()
    ensures Flatten<T>([]) == []
  {
  }

  /** The calls for the background commands of frame j, task by task. */
  function CallsOfFrame(s: Server, j: nat): seq<Manager.Call>
    requires j < |s.mgr.frames|
  {
    CallsOfTasks(s.received, FirstTask(s.mgr, j), |TasksOf(s.mgr, j)|)
  }

  /** A frame called in full has been called with its background commands, in array order
      within the frame and each with what it demands. */
  lemma FrameCalls(s: Server, j: nat, texts: Texts)
    requires CallsOk(s, texts) && j < |s.mgr.frames| && CalledInFull(s.mgr, j)
    ensures CallsOfFrame(s, j) == CallsFor(Keep(s.mgr.frames[j], InBackground), texts)
  {
    hide CallFor, CallsOk, CalledOnce, Flatten, Keep, FirstTask, TasksOf, CallsOfTasks, CallsFor;
    TasksCalls(s, FirstTask(s.mgr, j), |TasksOf(s.mgr, j)|, texts);
  }
}

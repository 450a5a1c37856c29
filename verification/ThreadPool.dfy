/** The thread pool: a mutex, a condition variable and a fixed set of workers, as
    atomic steps that may come in any order. */
module ThreadPool {
  import opened Commands

  /** Ready is awake and about to take the lock; Waiting sleeps on the condition
      variable; Running is inside a task, with the next command to execute. */
  datatype Worker = Ready | Waiting | Running(task: nat, next: nat) | Exited

  /** One executed command: which task, which of its commands, whether it threw. */
  datatype Entry = Entry(task: nat, index: nat, threw: bool)

  /** Tasks are named by the order in which they were accepted; `groups` holds the
      commands of each. `notifies` counts calls of notify_one still to take effect and
      `broadcast` says that notify_all is. */
  datatype Pool = Pool(
    workers: seq<Worker>,
    queue: seq<nat>,
    stopped: bool,
    notifies: nat,
    broadcast: bool,
    groups: seq<seq<Command>>,
    log: seq<Entry>)

  datatype Event =
    | Submit(group: seq<Command>)        // the locked part of submit
    | Stop                               // the locked part of shutdown
    | NotifyOne(w: nat)                  // a notify_one takes effect, on w if anyone sleeps
    | NotifyAll                          // the notify_all takes effect
    | Wakeup(w: nat)                     // a spurious wakeup
    | Check(w: nat)                      // the locked part of the worker loop
    | Execute(w: nat, threw: bool)       // one command of the task
    | Finish(w: nat)                     // the task returns

  function Initial(threadCount: nat): Pool
  {
    Pool(seq(if threadCount == 0 then 1 else threadCount, _ => Ready), [], false, 0, false, [], [])
  }

  predicate Is(s: Pool, w: nat, what: Worker)
  {
    w < |s.workers| && s.workers[w] == what
  }

  predicate NobodyWaits(s: Pool)
  {
    forall i :: 0 <= i < |s.workers| ==> s.workers[i] != Waiting
  }

  /** Whether the event changes anything; the calls of other threads always may come. */
  predicate Enabled(s: Pool, e: Event)
  {
    match e
    case Submit(_) => !s.stopped
    case Stop => !s.stopped
    case NotifyOne(w) => s.notifies > 0 && (Is(s, w, Waiting) || NobodyWaits(s))
    case NotifyAll => s.broadcast
    case Wakeup(w) => Is(s, w, Waiting)
    case Check(w) => Is(s, w, Ready)
    case Execute(w, _) =>
      w < |s.workers| && s.workers[w].Running? && s.workers[w].task < |s.groups|
      && s.workers[w].next < |s.groups[s.workers[w].task]|
    case Finish(w) =>
      w < |s.workers| && s.workers[w].Running? && s.workers[w].task < |s.groups|
      && s.workers[w].next >= |s.groups[s.workers[w].task]|
  }

  function Set(s: Pool, w: nat, worker: Worker): Pool
    requires w < |s.workers|
  {
    s.(workers := s.workers[w := worker])
  }

  function WakeAll(workers: seq<Worker>): seq<Worker>
  {
    seq(|workers|, i requires 0 <= i < |workers| => if workers[i] == Waiting then Ready else workers[i])
  }

  /** The state after an event; an event that is not enabled changes nothing. */
  function Apply(s: Pool, e: Event): Pool
  {
    if !Enabled(s, e) then s
    else
      match e
      case Submit(group) =>
        s.(queue := s.queue + [|s.groups|], groups := s.groups + [group], notifies := s.notifies + 1)
      case Stop => s.(stopped := true, broadcast := true)
      case NotifyOne(w) =>
        if Is(s, w, Waiting) then Set(s, w, Ready).(notifies := s.notifies - 1)
        else s.(notifies := s.notifies - 1)
      case NotifyAll => s.(workers := WakeAll(s.workers), broadcast := false)
      case Wakeup(w) => Set(s, w, Ready)
      case Check(w) =>
        if s.queue != [] then Set(s, w, Running(s.queue[0], 0)).(queue := s.queue[1..])
        else if s.stopped then Set(s, w, Exited)
        else Set(s, w, Waiting)
      case Execute(w, threw) =>
        var worker := s.workers[w];
        Set(s, w, Running(worker.task, worker.next + 1))
          .(log := s.log + [Entry(worker.task, worker.next, threw)])
      case Finish(w) => Set(s, w, Ready)
  }

  function Run(s: Pool, events: seq<Event>): Pool
    decreases |events|
  {
    if events == [] then s else Run(Apply(s, events[0]), events[1..])
  }

  // ---------- counting ----------

  function Sum<T>(xs: seq<T>, f: T -> nat): nat
  {
    if xs == [] then 0 else f(xs[0]) + Sum(xs[1..], f)
  }

  lemma {:induction false} SumUpdate<T>(xs: seq<T>, i: nat, x: T, f: T -> nat)
    requires i < |xs|
    ensures Sum(xs[i := x], f) + f(xs[i]) == Sum(xs, f) + f(x)
  {
    if i == 0 {
      assert xs[i := x][1..] == xs[1..];
    } else {
      assert xs[i := x][1..] == xs[1..][i - 1 := x];
      SumUpdate(xs[1..], i - 1, x, f);
    }
  }

  lemma {:induction false} SumZero<T>(xs: seq<T>, f: T -> nat)
    requires forall i :: 0 <= i < |xs| ==> f(xs[i]) == 0
    ensures Sum(xs, f) == 0
  {
    if xs != [] {
      SumZero(xs[1..], f);
    }
  }

  lemma {:induction false} SumMonotone<T>(xs: seq<T>, ys: seq<T>, f: T -> nat)
    requires |xs| == |ys| && forall i :: 0 <= i < |xs| ==> f(xs[i]) <= f(ys[i])
    ensures Sum(xs, f) <= Sum(ys, f)
  {
    if xs != [] {
      SumMonotone(xs[1..], ys[1..], f);
    }
  }

  function OneIfReady(w: Worker): nat { if w == Ready then 1 else 0 }

  function ReadyCount(workers: seq<Worker>): nat
  {
    Sum(workers, OneIfReady)
  }

  // ---------- what every run keeps ----------

  function Started(s: Pool): int
  {
    |s.groups| - |s.queue|
  }

  /** The queue holds the tasks not yet started, in the order of submission. */
  ghost predicate QueueInOrder(s: Pool)
  {
    && |s.workers| > 0
    && |s.queue| <= |s.groups|
    && forall i :: 0 <= i < |s.queue| ==> s.queue[i] == Started(s) + i
  }

  /** Someone sleeps only if every queued task has an awake worker or a notification
      still to come; after a stop nobody sleeps past the broadcast; workers exit only
      when there is nothing left. */
  ghost predicate NoLostWakeup(s: Pool)
  {
    && (NobodyWaits(s) || |s.queue| <= s.notifies + ReadyCount(s.workers))
    && (s.broadcast ==> s.stopped)
    && (s.stopped && !s.broadcast ==> NobodyWaits(s))
    && (forall i :: 0 <= i < |s.workers| && s.workers[i] == Exited ==> s.stopped && s.queue == [])
  }

  /** The commands of a task that were executed, in the order of execution. */
  function Positions(log: seq<Entry>, task: nat): seq<nat>
  {
    if log == [] then []
    else
      var last := log[|log| - 1];
      Positions(log[..|log| - 1], task) + if last.task == task then [last.index] else []
  }

  function Upto(n: nat): (r: seq<nat>)
    ensures |r| == n
  {
    seq(n, i => i)
  }

  predicate RunsTask(worker: Worker, task: nat)
  {
    worker.Running? && worker.task == task
  }

  /** How far each task has come: not started, in the hands of one worker, or done. */
  ghost predicate Ledger(s: Pool)
  {
    && (forall t: nat :: Positions(s.log, t) == Upto(|Positions(s.log, t)|))
    && (forall t: nat :: t >= Started(s) ==> Positions(s.log, t) == [])
    && (forall t: nat :: t < Started(s) ==>
          || |Positions(s.log, t)| == |s.groups[t]|
          || exists i :: 0 <= i < |s.workers| && RunsTask(s.workers[i], t))
    && (forall i :: 0 <= i < |s.workers| && s.workers[i].Running? ==>
          var worker := s.workers[i];
          && worker.task < Started(s)
          && worker.next <= |s.groups[worker.task]|
          && |Positions(s.log, worker.task)| == worker.next)
    && (forall i, j :: 0 <= i < j < |s.workers| && s.workers[i].Running? && s.workers[j].Running? ==>
          s.workers[i].task != s.workers[j].task)
  }

  ghost predicate Inv(s: Pool)
  {
    QueueInOrder(s) && NoLostWakeup(s) && Ledger(s)
  }

  lemma InitialKeeps(threadCount: nat)
    ensures Inv(Initial(threadCount))
    ensures |Initial(threadCount).workers| == if threadCount == 0 then 1 else threadCount
  {
  }

  lemma QueueKept(s: Pool, e: Event)
    requires QueueInOrder(s)
    ensures QueueInOrder(Apply(s, e))
    ensures Started(Apply(s, e)) == Started(s) + if e.Check? && Enabled(s, e) && s.queue != [] then 1 else 0
    ensures s.groups <= Apply(s, e).groups && s.log <= Apply(s, e).log
    ensures s.stopped ==> Apply(s, e).stopped && Apply(s, e).groups == s.groups
  {
  }

  lemma SetCount(s: Pool, w: nat, worker: Worker)
    requires w < |s.workers|
    ensures ReadyCount(Set(s, w, worker).workers)
         == ReadyCount(s.workers) - OneIfReady(s.workers[w]) + OneIfReady(worker)
    ensures worker != Waiting && NobodyWaits(s) ==> NobodyWaits(Set(s, w, worker))
    ensures s.workers[w] != Waiting && !NobodyWaits(s) ==> !NobodyWaits(Set(s, w, worker))
  {
    SumUpdate(s.workers, w, worker, OneIfReady);
    if s.workers[w] != Waiting && !NobodyWaits(s) {
      var i :| 0 <= i < |s.workers| && s.workers[i] == Waiting;
      assert Set(s, w, worker).workers[i] == Waiting;
    }
  }

  lemma WakeupsKept(s: Pool, e: Event)
    requires NoLostWakeup(s)
    ensures NoLostWakeup(Apply(s, e))
  {
    hide ReadyCount;
    if Enabled(s, e) {
      match e
      case NotifyOne(w) =>
        if Is(s, w, Waiting) {
          SetCount(s, w, Ready);
        }
      case Wakeup(w) => SetCount(s, w, Ready);
      case Check(w) =>
        if s.queue != [] {
          SetCount(s, w, Running(s.queue[0], 0));
        } else if s.stopped {
          SetCount(s, w, Exited);
        }
      case Execute(w, _) => SetCount(s, w, Running(s.workers[w].task, s.workers[w].next + 1));
      case Finish(w) => SetCount(s, w, Ready);
      case _ =>
    }
  }

  // ---------- the ledger ----------

  lemma PositionsSnoc(log: seq<Entry>, e: Entry, task: nat)
    ensures Positions(log + [e], task) == Positions(log, task) + if e.task == task then [e.index] else []
  {
    assert (log + [e])[..|log + [e]| - 1] == log;
  }

  lemma UptoSnoc(n: nat)
    ensures Upto(n + 1) == Upto(n) + [n]
  {
  }

  /** Starting the task at the head of the queue. */
  lemma TakeKept(s: Pool, w: nat)
    requires QueueInOrder(s) && Ledger(s) && Is(s, w, Ready) && s.queue != []
    ensures Ledger(Apply(s, Check(w)))
  {
    hide Positions, Upto;
    var r := Apply(s, Check(w));
    forall t: nat | t < Started(r)
      ensures |Positions(r.log, t)| == |r.groups[t]| || exists i :: 0 <= i < |r.workers| && RunsTask(r.workers[i], t)
    {
      if t == Started(s) {
        assert RunsTask(r.workers[w], t);
      } else {
        OthersStillRun(s, w, r, t);
      }
    }
  }

  lemma OthersStillRun(s: Pool, w: nat, r: Pool, t: nat)
    requires w < |s.workers| && Ledger(s) && t < Started(s) && t < |r.groups| && t < |s.groups|
    requires |r.workers| == |s.workers| && forall i :: 0 <= i < |s.workers| && i != w ==> r.workers[i] == s.workers[i]
    requires r.groups[t] == s.groups[t] && Positions(r.log, t) == Positions(s.log, t)
    requires !RunsTask(s.workers[w], t) || RunsTask(r.workers[w], t)
    ensures |Positions(r.log, t)| == |r.groups[t]| || exists i :: 0 <= i < |r.workers| && RunsTask(r.workers[i], t)
  {
    hide Positions, Upto;
    if |Positions(s.log, t)| != |s.groups[t]| {
      var i :| 0 <= i < |s.workers| && RunsTask(s.workers[i], t);
      assert RunsTask(r.workers[i], t);
    }
  }

  lemma ExecutePositions(s: Pool, w: nat, threw: bool)
    requires Ledger(s) && Enabled(s, Execute(w, threw))
    ensures var task, next := s.workers[w].task, s.workers[w].next;
            forall t: nat :: Positions(Apply(s, Execute(w, threw)).log, t)
                          == if t == task then Upto(next + 1) else Positions(s.log, t)
  {
    hide Positions;
    var task, next := s.workers[w].task, s.workers[w].next;
    forall t: nat
      ensures Positions(s.log + [Entry(task, next, threw)], t)
           == if t == task then Upto(next + 1) else Positions(s.log, t)
    {
      PositionsSnoc(s.log, Entry(task, next, threw), t);
      UptoSnoc(next);
    }
  }

  lemma ExecuteKept(s: Pool, w: nat, threw: bool)
    requires QueueInOrder(s) && Ledger(s) && Enabled(s, Execute(w, threw))
    ensures Ledger(Apply(s, Execute(w, threw)))
  {
    hide Positions, Upto;
    ExecutePositions(s, w, threw);
    var r := Apply(s, Execute(w, threw));
    forall t: nat | t < Started(r)
      ensures |Positions(r.log, t)| == |r.groups[t]| || exists i :: 0 <= i < |r.workers| && RunsTask(r.workers[i], t)
    {
      if t == s.workers[w].task {
        assert RunsTask(r.workers[w], t);
      } else {
        OthersStillRun(s, w, r, t);
      }
    }
  }

  lemma FinishKept(s: Pool, w: nat)
    requires QueueInOrder(s) && Ledger(s) && Enabled(s, Finish(w))
    ensures Ledger(Apply(s, Finish(w)))
  {
    hide Positions, Upto;
    var r := Apply(s, Finish(w));
    forall t: nat | t < Started(r)
      ensures |Positions(r.log, t)| == |r.groups[t]| || exists i :: 0 <= i < |r.workers| && RunsTask(r.workers[i], t)
    {
      if t != s.workers[w].task {
        OthersStillRun(s, w, r, t);
      }
    }
  }

  /** Tasks are in the same hands, and at most more of them are waiting. */
  predicate SameTasks(s: Pool, r: Pool)
  {
    && r.log == s.log && s.groups <= r.groups && Started(r) == Started(s)
    && |r.workers| == |s.workers|
    && forall i :: 0 <= i < |s.workers| ==>
         r.workers[i].Running? == s.workers[i].Running? && (s.workers[i].Running? ==> r.workers[i] == s.workers[i])
  }

  lemma SameTasksKept(s: Pool, r: Pool)
    requires QueueInOrder(s) && Ledger(s) && SameTasks(s, r)
    ensures Ledger(r)
  {
    hide Positions, Upto;
    forall t: nat | t < Started(r)
      ensures |Positions(r.log, t)| == |r.groups[t]| || exists i :: 0 <= i < |r.workers| && RunsTask(r.workers[i], t)
    {
      if |Positions(s.log, t)| != |s.groups[t]| {
        var i :| 0 <= i < |s.workers| && RunsTask(s.workers[i], t);
        assert RunsTask(r.workers[i], t);
      }
    }
  }

  /** Steps that touch no task. */
  lemma IdleKept(s: Pool, e: Event)
    requires QueueInOrder(s) && Ledger(s)
    requires !e.Execute? && !e.Finish? && !(e.Check? && Enabled(s, e) && s.queue != [])
    ensures Ledger(Apply(s, e))
  {
    assert SameTasks(s, Apply(s, e)) by {
      hide Ledger;
    }
    hide Ledger, Apply;
    SameTasksKept(s, Apply(s, e));
  }

  lemma StepKeeps(s: Pool, e: Event)
    requires Inv(s)
    ensures Inv(Apply(s, e))
  {
    QueueKept(s, e);
    WakeupsKept(s, e);
    hide NoLostWakeup, Ledger, QueueInOrder, Apply;
    if !Enabled(s, e) {
      NotEnabled(s, e);
    } else if e.Execute? {
      ExecuteKept(s, e.w, e.threw);
    } else if e.Finish? {
      FinishKept(s, e.w);
    } else if e.Check? && s.queue != [] {
      TakeKept(s, e.w);
    } else {
      IdleKept(s, e);
    }
  }

  lemma NotEnabled(s: Pool, e: Event)
    requires !Enabled(s, e)
    ensures Apply(s, e) == s
  {
  }

  /** Every state of every run, from any number of threads, keeps the invariant. */
  lemma {:induction false} RunKeeps(s: Pool, events: seq<Event>)
    requires Inv(s)
    ensures Inv(Run(s, events))
    decreases |events|
  {
    hide Inv, Apply;
    if events != [] {
      StepKeeps(s, events[0]);
      RunKeeps(Apply(s, events[0]), events[1..]);
    }
  }

  // ---------- main results ----------

  predicate Awake(worker: Worker)
  {
    worker.Ready? || worker.Running?
  }

  /** No lost wakeup: in every reachable state, a non-empty queue has an awake worker or
      a notification still to be delivered; and while anyone sleeps, workers about to
      take the lock and notifications to come are at least as many as queued tasks. */
  lemma QueueIsServed(threadCount: nat, events: seq<Event>)
    ensures var s := Run(Initial(threadCount), events);
            && (s.queue != [] ==> s.notifies > 0 || exists i :: 0 <= i < |s.workers| && Awake(s.workers[i]))
            && (NobodyWaits(s) || |s.queue| <= s.notifies + ReadyCount(s.workers))
  {
    var s := Run(Initial(threadCount), events);
    InitialKeeps(threadCount);
    RunKeeps(Initial(threadCount), events);
    hide Ledger, Run;
    if s.queue != [] && forall i :: 0 <= i < |s.workers| ==> !Awake(s.workers[i]) {
      assert !Awake(s.workers[0]);
      SumZero(s.workers, OneIfReady);
    }
  }

  /** Steps the pool takes by itself. */
  predicate Internal(e: Event)
  {
    !e.Submit? && !e.Stop?
  }

  function TaskWeight(groups: seq<seq<Command>>): nat -> nat
  {
    (t: nat) => 2 + if t < |groups| then |groups[t]| else 0
  }

  function WorkerWeight(groups: seq<seq<Command>>): Worker -> nat
  {
    (worker: Worker) =>
      match worker
      case Exited => 0
      case Ready => 1
      case Waiting => 2
      case Running(t, next) => 2 + if t < |groups| && next < |groups[t]| then |groups[t]| - next else 0
  }

  /** What is left to do. */
  function Remaining(s: Pool): nat
  {
    s.notifies + (if s.broadcast then 1 else 0)
    + Sum(s.queue, TaskWeight(s.groups)) + Sum(s.workers, WorkerWeight(s.groups))
  }

  /** After a stop every step the pool takes brings it closer to its end, and the calls
      of other threads change nothing. */
  lemma StoppedRunsDown(s: Pool, e: Event)
    requires Inv(s) && s.stopped && Enabled(s, e)
    ensures Internal(e) && Remaining(Apply(s, e)) < Remaining(s)
  {
    var weight := WorkerWeight(s.groups);
    hide Ledger, Sum;
    match e
    case NotifyOne(w) =>
      if Is(s, w, Waiting) {
        SumUpdate(s.workers, w, Ready, weight);
      }
    case NotifyAll => SumMonotone(WakeAll(s.workers), s.workers, weight);
    case Wakeup(w) => SumUpdate(s.workers, w, Ready, weight);
    case Check(w) =>
      if s.queue != [] {
        SumUpdate(s.workers, w, Running(s.queue[0], 0), weight);
        SumFirst(s.queue, TaskWeight(s.groups));
      } else {
        SumUpdate(s.workers, w, Exited, weight);
      }
    case Execute(w, _) => SumUpdate(s.workers, w, Running(s.workers[w].task, s.workers[w].next + 1), weight);
    case Finish(w) => SumUpdate(s.workers, w, Ready, weight);
  }

  lemma SumFirst<T>(xs: seq<T>, f: T -> nat)
    requires xs != []
    ensures Sum(xs, f) == f(xs[0]) + Sum(xs[1..], f)
  {
  }

  predicate AllExited(s: Pool)
  {
    forall i :: 0 <= i < |s.workers| ==> s.workers[i] == Exited
  }

  /** A stopped pool never gets stuck: until all workers have exited, one can step. */
  lemma StoppedIsLive(s: Pool)
    requires Inv(s) && s.stopped
    ensures AllExited(s) || exists e :: Enabled(s, e) && !e.Wakeup?
  {
    hide Positions, Upto;
    if s.broadcast {
      assert Enabled(s, NotifyAll);
    } else if i :| 0 <= i < |s.workers| && s.workers[i] != Exited {
      if s.workers[i].Ready? {
        assert Enabled(s, Check(i));
      } else {
        assert Enabled(s, Execute(i, false)) || Enabled(s, Finish(i));
      }
    }
  }

  /** Each of the events is enabled when its turn comes. */
  predicate AllEnabled(s: Pool, events: seq<Event>)
    decreases |events|
  {
    events == [] || (Enabled(s, events[0]) && AllEnabled(Apply(s, events[0]), events[1..]))
  }

  /** From a stopped pool every run is finite, with a bound known in advance. */
  lemma {:induction false} DrainIsBounded(s: Pool, events: seq<Event>)
    requires Inv(s) && s.stopped && AllEnabled(s, events)
    ensures |events| + Remaining(Run(s, events)) <= Remaining(s)
    decreases |events|
  {
    hide Inv, Apply, Enabled, Remaining;
    if events != [] {
      StoppedRunsDown(s, events[0]);
      StepKeeps(s, events[0]);
      QueueKeptStopped(s, events[0]);
      DrainIsBounded(Apply(s, events[0]), events[1..]);
    }
  }

  lemma QueueKeptStopped(s: Pool, e: Event)
    requires s.stopped
    ensures Apply(s, e).stopped
  {
  }

  /** Nothing queued and nothing running. */
  predicate Drained(s: Pool)
  {
    s.queue == [] && forall i :: 0 <= i < |s.workers| ==> !s.workers[i].Running?
  }

  /** In a drained pool every accepted task has run exactly once: its commands appear in
      the log once each, in array order, whatever threw; and nothing else appears. */
  lemma DrainedRanAll(threadCount: nat, events: seq<Event>)
    ensures var s := Run(Initial(threadCount), events);
            && (AllExited(s) ==> Drained(s))
            && (Drained(s) ==>
                  forall t: nat :: Positions(s.log, t) == if t < |s.groups| then Upto(|s.groups[t]|) else [])
  {
    InitialKeeps(threadCount);
    RunKeeps(Initial(threadCount), events);
    hide Run, Inv, Drained, Positions, Upto;
    DrainedLedger(Run(Initial(threadCount), events));
  }

  lemma DrainedLedger(s: Pool)
    requires Inv(s)
    ensures AllExited(s) ==> Drained(s)
    ensures Drained(s) ==> forall t: nat :: Positions(s.log, t) == if t < |s.groups| then Upto(|s.groups[t]|) else []
  {
    hide Positions, Upto;
    if AllExited(s) {
      assert s.workers[0] == Exited;
    }
  }

  /** What is left to do before the pool comes to rest, stopped or not. */
  function RestWeight(groups: seq<seq<Command>>): Worker -> nat
  {
    (worker: Worker) =>
      match worker
      case Exited => 0
      case Ready => 1
      case Waiting => 0
      case Running(t, next) => 2 + if t < |groups| && next < |groups[t]| then |groups[t]| - next else 0
  }

  function Unrest(s: Pool): nat
  {
    2 * s.notifies + (if s.broadcast then |s.workers| + 1 else 0)
    + Sum(s.queue, TaskWeight(s.groups)) + Sum(s.workers, RestWeight(s.groups))
  }

  lemma {:induction false} SumByOne<T>(xs: seq<T>, ys: seq<T>, f: T -> nat)
    requires |xs| == |ys| && forall i :: 0 <= i < |xs| ==> f(xs[i]) <= f(ys[i]) + 1
    ensures Sum(xs, f) <= Sum(ys, f) + |ys|
  {
    if xs != [] {
      SumByOne(xs[1..], ys[1..], f);
    }
  }

  lemma CheckSettles(s: Pool, w: nat)
    requires Enabled(s, Check(w))
    ensures Unrest(Apply(s, Check(w))) < Unrest(s)
  {
    var weight := RestWeight(s.groups);
    hide Sum;
    if s.queue != [] {
      SumUpdate(s.workers, w, Running(s.queue[0], 0), weight);
      SumFirst(s.queue, TaskWeight(s.groups));
    } else {
      SumUpdate(s.workers, w, if s.stopped then Exited else Waiting, weight);
    }
  }

  /** Every step the pool takes by itself brings it closer to rest, except a spurious
      wakeup, which sets it back by one. */
  lemma StepsSettle(s: Pool, e: Event)
    requires Internal(e) && Enabled(s, e)
    ensures if e.Wakeup? then Unrest(Apply(s, e)) == Unrest(s) + 1 else Unrest(Apply(s, e)) < Unrest(s)
    ensures |Apply(s, e).workers| == |s.workers|
  {
    var weight := RestWeight(s.groups);
    hide Sum, NobodyWaits;
    match e
    case NotifyOne(w) =>
      if Is(s, w, Waiting) {
        SumUpdate(s.workers, w, Ready, weight);
      }
    case NotifyAll => SumByOne(WakeAll(s.workers), s.workers, weight);
    case Wakeup(w) => SumUpdate(s.workers, w, Ready, weight);
    case Check(w) => CheckSettles(s, w);
    case Execute(w, _) => SumUpdate(s.workers, w, Running(s.workers[w].task, s.workers[w].next + 1), weight);
    case Finish(w) => SumUpdate(s.workers, w, Ready, weight);
  }

  /** How many of the events are spurious wakeups. */
  function Wakeups(events: seq<Event>): nat
  {
    if events == [] then 0 else (if events[0].Wakeup? then 1 else 0) + Wakeups(events[1..])
  }

  lemma {:induction false} SettlingIsBounded(s: Pool, events: seq<Event>)
    requires Inv(s) && AllEnabled(s, events) && forall e <- events :: Internal(e)
    ensures |events| + Unrest(Run(s, events)) <= Unrest(s) + 2 * Wakeups(events)
    decreases |events|
  {
    hide Inv, Apply, Enabled, Unrest, Internal;
    if events != [] {
      assert events[0] in events;
      StepsSettle(s, events[0]);
      StepKeeps(s, events[0]);
      assert forall e <- events[1..] :: e in events;
      SettlingIsBounded(Apply(s, events[0]), events[1..]);
    }
  }

  /** Left to itself the pool comes to rest, stopped or not: from any reachable state, the
      steps it takes are bounded, spurious wakeups apart, and when none but these is left
      every accepted task has run. */
  lemma ComesToRest(threadCount: nat, before: seq<Event>, after: seq<Event>)
    requires AllEnabled(Run(Initial(threadCount), before), after) && forall e <- after :: Internal(e)
    ensures var s := Run(Initial(threadCount), before);
            var r := Run(s, after);
            && |after| <= Unrest(s) + 2 * Wakeups(after)
            && ((forall e :: Internal(e) && !e.Wakeup? ==> !Enabled(r, e)) ==>
                  forall t: nat :: Positions(r.log, t) == if t < |r.groups| then Upto(|r.groups[t]|) else [])
  {
    var s := Run(Initial(threadCount), before);
    InitialKeeps(threadCount);
    RunKeeps(Initial(threadCount), before);
    SettlingIsBounded(s, after);
    RunAppend(Initial(threadCount), before, after);
    hide Run, Inv, Positions, Upto, Enabled, Internal, Unrest, Wakeups, Initial;
    if forall e :: Internal(e) && !e.Wakeup? ==> !Enabled(Run(s, after), e) {
      RestMeansDone(threadCount, before + after);
    }
  }

  /** What no lost wakeup is for: whenever the pool comes to rest, stopped or not, so that
      nothing but a spurious wakeup can happen by itself, every accepted task has run. */
  lemma RestMeansDone(threadCount: nat, events: seq<Event>)
    requires forall e :: Internal(e) && !e.Wakeup? ==> !Enabled(Run(Initial(threadCount), events), e)
    ensures var s := Run(Initial(threadCount), events);
            && Drained(s)
            && forall t: nat :: Positions(s.log, t) == if t < |s.groups| then Upto(|s.groups[t]|) else []
  {
    InitialKeeps(threadCount);
    RunKeeps(Initial(threadCount), events);
    QueueIsServed(threadCount, events);
    hide Run;
    var s := Run(Initial(threadCount), events);
    AtRest(s);
    DrainedLedger(s);
  }

  lemma AtRest(s: Pool)
    requires Inv(s) && forall e :: Internal(e) && !e.Wakeup? ==> !Enabled(s, e)
    requires s.queue != [] ==> s.notifies > 0 || exists i :: 0 <= i < |s.workers| && Awake(s.workers[i])
    ensures Drained(s)
  {
    hide Positions, Upto;
    forall i | 0 <= i < |s.workers|
      ensures !Awake(s.workers[i])
    {
      assert !Enabled(s, Check(i)) && !Enabled(s, Execute(i, false)) && !Enabled(s, Finish(i));
    }
    NotifyPossible(s);
  }

  lemma NotifyPossible(s: Pool)
    ensures s.notifies > 0 ==> exists w :: Enabled(s, NotifyOne(w))
  {
    if s.notifies > 0 && NobodyWaits(s) {
      assert Enabled(s, NotifyOne(0));
    } else if s.notifies > 0 {
      var w :| 0 <= w < |s.workers| && s.workers[w] == Waiting;
      assert Enabled(s, NotifyOne(w));
    }
  }

  /** At any time, what a task has run is its first commands, in order, once each; and a
      task has started only if all tasks submitted before it have. */
  lemma AlwaysAPrefix(threadCount: nat, events: seq<Event>, t: nat)
    ensures var s := Run(Initial(threadCount), events);
            && Positions(s.log, t) == Upto(|Positions(s.log, t)|)
            && (Positions(s.log, t) != [] ==> t < Started(s) && |Positions(s.log, t)| <= |s.groups[t]|)
  {
    var s := Run(Initial(threadCount), events);
    InitialKeeps(threadCount);
    RunKeeps(Initial(threadCount), events);
    hide Run, Positions, Upto;
    if t < Started(s) && |Positions(s.log, t)| != |s.groups[t]| {
      var i :| 0 <= i < |s.workers| && RunsTask(s.workers[i], t);
    }
  }

  /** Shutting down: from any reachable state with the stop flag set, however the pool's
      steps are scheduled, it reaches after a bounded number of them a state where no
      step is left, all workers have exited and every accepted task has run once. */
  lemma ShutdownDrains(threadCount: nat, before: seq<Event>, after: seq<Event>)
    requires var s := Run(Initial(threadCount), before);
             s.stopped && AllEnabled(s, after)
    ensures var s := Run(Initial(threadCount), before);
            var r := Run(s, after);
            && |after| <= Remaining(s)
            && ((forall e :: !Enabled(r, e)) ==>
                  && AllExited(r) && r.groups == s.groups
                  && forall t: nat :: Positions(r.log, t) == if t < |s.groups| then Upto(|s.groups[t]|) else [])
  {
    var s := Run(Initial(threadCount), before);
    var r := Run(s, after);
    InitialKeeps(threadCount);
    RunKeeps(Initial(threadCount), before);
    DrainIsBounded(s, after);
    StoppedStays(s, after);
    RunAppend(Initial(threadCount), before, after);
    DrainedRanAll(threadCount, before + after);
    hide Run, Inv, Positions, Upto, Enabled, Remaining, Drained;
    if forall e :: !Enabled(r, e) {
      RunKeeps(s, after);
      StoppedIsLive(r);
    }
  }

  lemma {:induction false} StoppedStays(s: Pool, events: seq<Event>)
    requires Inv(s) && s.stopped
    ensures Run(s, events).stopped && Run(s, events).groups == s.groups
    decreases |events|
  {
    if events != [] {
      StepKeeps(s, events[0]);
      QueueKept(s, events[0]);
      hide Inv, Apply;
      StoppedStays(Apply(s, events[0]), events[1..]);
    }
  }

  lemma {:induction false} RunAppend(s: Pool, a: seq<Event>, b: seq<Event>)
    ensures Run(s, a + b) == Run(Run(s, a), b)
    decreases |a|
  {
    hide Apply;
    if a == [] {
      assert a + b == b;
    } else {
      assert (a + b)[1..] == a[1..] + b;
      RunAppend(Apply(s, a[0]), a[1..], b);
    }
  }
}

/** The pool as an object: every method is one section that runs without interference,
    and any number of threads may call them in any order. */
module PoolMonitor {
  import opened Commands
  import opened ThreadPool

  class SharedPool {
    var workers: seq<Worker>
    var tasks: seq<nat>
    var stopped: bool
    var notifies: nat
    var broadcast: bool
    var groups: seq<seq<Command>>
    var log: seq<Entry>

    function Now(): Pool
      reads this
    {
      Pool(workers, tasks, stopped, notifies, broadcast, groups, log)
    }

    /** The pool is in a state that every schedule keeps. */
    ghost predicate Valid()
      reads this
    {
      Inv(Now())
    }

    constructor (threadCount: nat)
      ensures Now() == Initial(threadCount) && Valid()
    {
      var n := if threadCount == 0 then 1 else threadCount;
      workers := seq(n, _ => Ready);
      tasks, stopped, notifies, broadcast := [], false, 0, false;
      groups, log := [], [];
      new;
      InitialKeeps(threadCount);
    }

    /** The section for an event leaves a valid pool valid. */
    lemma KeepsValid(e: Event)
      ensures Valid() ==> Inv(Apply(Now(), e))
    {
      if Valid() {
        StepKeeps(Now(), e);
      }
    }

    /** Drops the task once stopped; otherwise queues it and owes one notification. */
    method SubmitTask(group: seq<Command>)
      modifies this
      ensures Now() == Apply(old(Now()), Submit(group))
      ensures old(stopped) ==> Now() == old(Now())
      ensures !old(stopped) ==>
                && groups == old(groups) + [group] && tasks == old(tasks) + [|old(groups)|]
                && notifies == old(notifies) + 1 && workers == old(workers) && log == old(log)
      ensures old(Valid()) ==> Valid()
    {
      KeepsValid(Submit(group));
      if stopped {
        return;
      }
      tasks := tasks + [|groups|];
      groups := groups + [group];
      notifies := notifies + 1;
    }

    /** The part of shutdown before the joins; a second call does nothing. */
    method BeginShutdown()
      modifies this
      ensures Now() == Apply(old(Now()), Stop)
      ensures Now() == old(Now()).(stopped := true, broadcast := !old(stopped) || old(broadcast))
      ensures old(Valid()) ==> Valid()
    {
      KeepsValid(Stop);
      if stopped {
        return;
      }
      stopped := true;
      broadcast := true;
    }

    method DeliverNotifyOne(w: nat)
      requires Enabled(Now(), NotifyOne(w))
      modifies this
      ensures Now() == Apply(old(Now()), NotifyOne(w))
      ensures old(Valid()) ==> Valid()
    {
      KeepsValid(NotifyOne(w));
      notifies := notifies - 1;
      if w < |workers| && workers[w] == Waiting {
        workers := workers[w := Ready];
      }
    }

    method DeliverNotifyAll()
      requires Enabled(Now(), NotifyAll)
      modifies this
      ensures Now() == Apply(old(Now()), NotifyAll)
      ensures old(Valid()) ==> Valid()
    {
      KeepsValid(NotifyAll);
      broadcast := false;
      for i := 0 to |workers|
        invariant |workers| == |old(workers)|
        invariant forall k :: 0 <= k < i ==> workers[k] == if old(workers)[k] == Waiting then Ready else old(workers)[k]
        invariant forall k :: i <= k < |workers| ==> workers[k] == old(workers)[k]
        invariant Now() == old(Now()).(workers := workers, broadcast := false)
      {
        if workers[i] == Waiting {
          workers := workers[i := Ready];
        }
      }
    }

    method WakeSpuriously(w: nat)
      requires Enabled(Now(), Wakeup(w))
      modifies this
      ensures Now() == Apply(old(Now()), Wakeup(w))
      ensures old(Valid()) ==> Valid()
    {
      KeepsValid(Wakeup(w));
      workers := workers[w := Ready];
    }

    /** A worker with the lock: it takes the first task, leaves, or goes to sleep. */
    method CheckQueue(w: nat)
      requires Enabled(Now(), Check(w))
      modifies this
      ensures Now() == Apply(old(Now()), Check(w))
      ensures old(tasks) != [] ==>
                tasks == old(tasks)[1..] && workers == old(workers)[w := Running(old(tasks)[0], 0)]
      ensures old(tasks) == [] ==>
                tasks == [] && workers == old(workers)[w := if stopped then Exited else Waiting]
      ensures stopped == old(stopped) && groups == old(groups) && log == old(log)
      ensures old(Valid()) ==> Valid()
    {
      KeepsValid(Check(w));
      if !stopped && tasks == [] {
        workers := workers[w := Waiting];
        return;
      }
      if stopped && tasks == [] {
        workers := workers[w := Exited];
        return;
      }
      workers := workers[w := Running(tasks[0], 0)];
      tasks := tasks[1..];
    }

    /** One command of the task; an exception is caught here and the task goes on. */
    method ExecuteNext(w: nat, threw: bool)
      requires Enabled(Now(), Execute(w, threw))
      modifies this
      ensures Now() == Apply(old(Now()), Execute(w, threw))
      ensures var task, next := old(workers)[w].task, old(workers)[w].next;
              log == old(log) + [Entry(task, next, threw)] && workers == old(workers)[w := Running(task, next + 1)]
      ensures old(Valid()) ==> Valid()
    {
      KeepsValid(Execute(w, threw));
      var task, next := workers[w].task, workers[w].next;
      log := log + [Entry(task, next, threw)];
      workers := workers[w := Running(task, next + 1)];
    }

    method FinishTask(w: nat)
      requires Enabled(Now(), Finish(w))
      modifies this
      ensures Now() == Apply(old(Now()), Finish(w))
      ensures old(Valid()) ==> Valid()
    {
      KeepsValid(Finish(w));
      workers := workers[w := Ready];
    }

    /** Any schedule of the sections is a run of the step system. */
    method RunSchedule(events: seq<Event>)
      modifies this
      ensures Now() == Run(old(Now()), events)
      ensures old(Valid()) ==> Valid()
    {
      hide Inv;
      if Valid() {
        RunKeeps(Now(), events);
      }
      ghost var start := Now();
      for i := 0 to |events|
        invariant Run(Now(), events[i..]) == Run(start, events)
      {
        var e := events[i];
        assert events[i..][1..] == events[i + 1..];
        ghost var before := Now();
        var enabled := Enabled(Now(), e);
        if enabled {
          match e
          case Submit(group) => SubmitTask(group);
          case Stop => BeginShutdown();
          case NotifyOne(w) => DeliverNotifyOne(w);
          case NotifyAll => DeliverNotifyAll();
          case Wakeup(w) => WakeSpuriously(w);
          case Check(w) => CheckQueue(w);
          case Execute(w, threw) => ExecuteNext(w, threw);
          case Finish(w) => FinishTask(w);
        }
        assert Now() == Apply(before, e);
      }
    }
  }
}

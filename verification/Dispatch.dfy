/** How the C++ and the Android server hand the commands of one frame to their executors. */
module Dispatch {
  import opened Grouping
  import opened Commands

  function Keep<T>(xs: seq<T>, p: T -> bool): seq<T>
  {
    if xs == [] then []
    else if p(xs[0]) then [xs[0]] + Keep(xs[1..], p)
    else Keep(xs[1..], p)
  }

  lemma {:induction false} KeepAppend<T>(a: seq<T>, b: seq<T>, p: T -> bool)
    ensures Keep(a + b, p) == Keep(a, p) + Keep(b, p)
  {
    if a == [] {
      assert a + b == b;
    } else {
      assert (a + b)[1..] == a[1..] + b;
      KeepAppend(a[1..], b, p);
    }
  }

  // ---------- the C++ server ----------

  function RawMode(c: Command): int { c.threadMode }

  predicate OnMain(c: Command) { c.threadMode == 1 }

  predicate InBackground(c: Command) { !OnMain(c) }

  predicate MainGroup(group: seq<Command>) { group != [] && OnMain(group[0]) }

  predicate PoolGroup(group: seq<Command>) { group != [] && InBackground(group[0]) }

  /** The groups a frame is split into. */
  function Groups(commands: seq<Command>): seq<seq<Command>>
  {
    Runs(commands, RawMode)
  }

  /** Where the manager puts work: the main-thread poster and the pool, if there is one. */
  class Dispatcher {
    var posted: seq<seq<Command>>
    var submitted: seq<seq<Command>>
    const hasPool: bool

    constructor (hasPool: bool)
      ensures posted == submitted == [] && this.hasPool == hasPool
    {
      posted, submitted := [], [];
      this.hasPool := hasPool;
    }

    method DispatchCommands(commands: seq<Command>)
      modifies this
      ensures posted == old(posted) + Keep(Groups(commands), MainGroup)
      ensures submitted == old(submitted) + if hasPool then Keep(Groups(commands), PoolGroup) else []
    {
      hide Runs, Keep;
      var i := 0;
      ghost var done: seq<seq<Command>> := [];
      ScanStart(commands, RawMode, MainGroup, PoolGroup);
      while i < |commands|
        invariant 0 <= i <= |commands|
        invariant done + Groups(commands[i..]) == Groups(commands)
        invariant posted == old(posted) + Keep(done, MainGroup)
        invariant submitted == old(submitted) + if hasPool then Keep(done, PoolGroup) else []
      {
        var mode := commands[i].threadMode;
        var j := i;
        while j < |commands| && commands[j].threadMode == mode
          invariant i <= j <= |commands|
          invariant forall k :: i <= k < j ==> commands[k].threadMode == mode
        {
          j := j + 1;
        }
        var group := commands[i..j];
        ScanStep(commands, i, j, RawMode, done);
        KeepOne(done, group);
        done := done + [group];
        if mode == 1 {
          posted := posted + [group];
        } else if hasPool {
          submitted := submitted + [group];
        }
        i := j;
      }
      ScanEnd(commands, RawMode, done);
    }
  }

  lemma ScanStart<K>(commands: seq<Command>, key: Command -> K, p: seq<Command> -> bool, q: seq<Command> -> bool)
    ensures commands[0..] == commands
    ensures [] + Runs(commands, key) == Runs(commands, key)
    ensures Keep([], p) == Keep([], q) == []
  {
  }

  lemma ScanEnd<K>(commands: seq<Command>, key: Command -> K, done: seq<seq<Command>>)
    ensures done + Runs(commands[|commands|..], key) == done
  {
  }

  /** One round of the two-index scan: the elements from i up to j are the next run. */
  lemma ScanStep<K>(commands: seq<Command>, i: nat, j: nat, key: Command -> K, done: seq<seq<Command>>)
    requires i < j <= |commands|
    requires forall k :: i <= k < j ==> key(commands[k]) == key(commands[i])
    requires j < |commands| ==> key(commands[j]) != key(commands[i])
    ensures done + Runs(commands[i..], key) == (done + [commands[i..j]]) + Runs(commands[j..], key)
  {
    hide Runs;
    RunOfSlice(commands, i, j, key);
    RunsStep(commands, i, key);
    Regroup(done, commands[i..j], Runs(commands[j..], key));
  }

  lemma RunOfSlice<K>(commands: seq<Command>, i: nat, j: nat, key: Command -> K)
    requires i < j <= |commands|
    requires forall k :: i <= k < j ==> key(commands[k]) == key(commands[i])
    requires j < |commands| ==> key(commands[j]) != key(commands[i])
    ensures RunLength(commands[i..], key) == j - i
  {
    hide RunLength;
    var tail := commands[i..];
    forall k | 0 <= k < j - i
      ensures key(tail[k]) == key(tail[0])
    {
      assert tail[k] == commands[i + k] && tail[0] == commands[i];
    }
    RunLengthIs(tail, key, j - i);
  }

  lemma Regroup<T>(done: seq<T>, one: T, later: seq<T>)
    ensures done + ([one] + later) == (done + [one]) + later
  {
  }

  lemma KeepOne(done: seq<seq<Command>>, group: seq<Command>)
    requires group != []
    ensures Keep(done + [group], MainGroup) == Keep(done, MainGroup) + if OnMain(group[0]) then [group] else []
    ensures Keep(done + [group], PoolGroup) == Keep(done, PoolGroup) + if OnMain(group[0]) then [] else [group]
  {
    KeepAppend(done, [group], MainGroup);
    KeepAppend(done, [group], PoolGroup);
    assert [group][1..] == [];
  }

  lemma {:induction false} KeepUniform<T>(xs: seq<T>, p: T -> bool, yes: bool)
    requires forall i :: 0 <= i < |xs| ==> p(xs[i]) == yes
    ensures Keep(xs, p) == if yes then xs else []
  {
    if xs != [] {
      KeepUniform(xs[1..], p, yes);
    }
  }

  /** Nothing is lost, repeated or reordered for either executor: the groups it gets are,
      end to end, the frame's commands for it in array order. */
  lemma {:induction false} DispatchConserves(commands: seq<Command>)
    ensures Flatten(Keep(Groups(commands), MainGroup)) == Keep(commands, OnMain)
    ensures Flatten(Keep(Groups(commands), PoolGroup)) == Keep(commands, InBackground)
    decreases |commands|
  {
    if commands != [] {
      var n := RunLength(commands, RawMode);
      var group, tail := commands[..n], commands[n..];
      DispatchConserves(tail);
      assert commands == group + tail;
      KeepAppend(group, tail, OnMain);
      KeepAppend(group, tail, InBackground);
      forall i | 0 <= i < n
        ensures OnMain(group[i]) == OnMain(group[0])
      {
        assert RawMode(commands[i]) == RawMode(commands[0]);
      }
      KeepUniform(group, OnMain, OnMain(group[0]));
      KeepUniform(group, InBackground, InBackground(group[0]));
      KeepAppend([group], Groups(tail), MainGroup);
      KeepAppend([group], Groups(tail), PoolGroup);
      hide Runs, RunLength;
      FirstKept(group, Keep(Groups(tail), MainGroup), Keep(Groups(tail), PoolGroup));
    }
  }

  lemma FirstKept(group: seq<Command>, main: seq<seq<Command>>, pool: seq<seq<Command>>)
    requires group != []
    ensures Keep([group], MainGroup) == if OnMain(group[0]) then [group] else []
    ensures Keep([group], PoolGroup) == if OnMain(group[0]) then [] else [group]
    ensures Flatten([group] + main) == group + Flatten(main)
    ensures Flatten([group] + pool) == group + Flatten(pool)
    ensures [] + main == main && [] + pool == pool
  {
    assert [group][1..] == [];
    assert ([group] + main)[1..] == main && ([group] + pool)[1..] == pool;
  }

  // ---------- the Android server ----------

  datatype ThreadMode = BACKGROUND | MAIN

  const MODES: seq<ThreadMode> := [BACKGROUND, MAIN]

  function Tag(mode: ThreadMode): int
  {
    match mode
    case BACKGROUND => 0
    case MAIN => 1
  }

  /** The constant with this tag, the first one where there is none. */
  function FromTag(tag: int): (mode: ThreadMode)
    ensures mode == MAIN <==> tag == 1
    ensures (exists m <- MODES :: Tag(m) == tag) ==> Tag(mode) == tag
  {
    assert MODES[1..] == [MAIN] && [MAIN][1..] == [];
    assert SearchTag([], tag) == BACKGROUND;
    assert SearchTag([MAIN], tag) == if tag == 1 then MAIN else BACKGROUND;
    SearchTag(MODES, tag)
  }

  function SearchTag(modes: seq<ThreadMode>, tag: int): ThreadMode
  {
    if modes == [] then BACKGROUND
    else if Tag(modes[0]) == tag then modes[0]
    else SearchTag(modes[1..], tag)
  }

  function AndroidMode(c: Command): ThreadMode
  {
    FromTag(c.threadMode)
  }

  predicate AndroidMain(group: seq<Command>) { group != [] && AndroidMode(group[0]) == MAIN }

  predicate AndroidPool(group: seq<Command>) { group != [] && AndroidMode(group[0]) == BACKGROUND }

  function AndroidGroups(commands: seq<Command>): seq<seq<Command>>
  {
    Runs(commands, AndroidMode)
  }

  lemma KeepOneAndroid(done: seq<seq<Command>>, group: seq<Command>)
    requires group != []
    ensures Keep(done + [group], AndroidMain) == Keep(done, AndroidMain) + if AndroidMain(group) then [group] else []
    ensures Keep(done + [group], AndroidPool) == Keep(done, AndroidPool) + if AndroidMain(group) then [] else [group]
  {
    KeepAppend(done, [group], AndroidMain);
    KeepAppend(done, [group], AndroidPool);
    assert [group][1..] == [];
  }

  class ServerHandler {
    var messages: seq<seq<Command>>
    var tasks: seq<seq<Command>>

    method ExeCommand(commands: seq<Command>)
      modifies this
      ensures messages == old(messages) + Keep(AndroidGroups(commands), AndroidMain)
      ensures tasks == old(tasks) + Keep(AndroidGroups(commands), AndroidPool)
    {
      hide Runs, Keep;
      var i := 0;
      ghost var done: seq<seq<Command>> := [];
      ScanStart(commands, AndroidMode, AndroidMain, AndroidPool);
      while i < |commands|
        invariant 0 <= i <= |commands|
        invariant done + AndroidGroups(commands[i..]) == AndroidGroups(commands)
        invariant messages == old(messages) + Keep(done, AndroidMain)
        invariant tasks == old(tasks) + Keep(done, AndroidPool)
      {
        var mode := AndroidMode(commands[i]);
        var j := i;
        while j < |commands| && AndroidMode(commands[j]) == mode
          invariant i <= j <= |commands|
          invariant forall k :: i <= k < j ==> AndroidMode(commands[k]) == mode
        {
          j := j + 1;
        }
        var group := commands[i..j];
        ScanStep(commands, i, j, AndroidMode, done);
        KeepOneAndroid(done, group);
        done := done + [group];
        if mode == MAIN {
          messages := messages + [group];
        } else {
          tasks := tasks + [group];
        }
        i := j;
      }
      ScanEnd(commands, AndroidMode, done);
    }
  }

  /** Android merges neighbouring C++ groups and never splits one; the two agree exactly
      when no two neighbouring commands carry different modes other than 1. */
  lemma AndroidMergesGroups(commands: seq<Command>)
    ensures AndroidGroups(commands)
         == FlattenEach(Runs(Groups(commands), HeadKey(FromTag, RawMode, BACKGROUND)))
    ensures AndroidGroups(commands) == Groups(commands) <==>
              forall i :: 0 < i < |commands| && commands[i - 1].threadMode != commands[i].threadMode
                ==> commands[i - 1].threadMode == 1 || commands[i].threadMode == 1
  {
    hide Runs, FlattenEach, NormKeepsNeighboursApart;
    AndroidRunsAreCoarse(commands);
    Coarsening(commands, RawMode, FromTag, BACKGROUND);
    GroupingsCoincide(commands, RawMode, FromTag);
    NeighbourModes(commands);
  }

  lemma ModeIsCoarse(c: Command)
    ensures AndroidMode(c) == Coarse(FromTag, RawMode)(c)
  {
    var norm, key := FromTag, RawMode;
    assert key(c) == c.threadMode;
    assert norm(c.threadMode) == FromTag(c.threadMode);
  }

  lemma AndroidRunsAreCoarse(commands: seq<Command>)
    ensures AndroidGroups(commands) == Runs(commands, Coarse(FromTag, RawMode))
  {
    forall c: Command
      ensures AndroidMode(c) == Coarse(FromTag, RawMode)(c)
    {
      ModeIsCoarse(c);
    }
    hide Runs;
    SameRuns(commands, AndroidMode, Coarse(FromTag, RawMode));
  }

  lemma NeighbourModes(commands: seq<Command>)
    ensures NormKeepsNeighboursApart(commands, RawMode, FromTag) <==>
              forall i :: 0 < i < |commands| && commands[i - 1].threadMode != commands[i].threadMode
                ==> commands[i - 1].threadMode == 1 || commands[i].threadMode == 1
  {
    forall i | 0 < i < |commands|
      ensures var a, b := RawMode(commands[i - 1]), RawMode(commands[i]);
              (FromTag(a) == FromTag(b) ==> a == b) <==> (a != b ==> a == 1 || b == 1)
    {
    }
  }

  lemma {:induction false} SameRuns<T, K>(xs: seq<T>, f: T -> K, g: T -> K)
    requires forall x :: f(x) == g(x)
    ensures Runs(xs, f) == Runs(xs, g)
    decreases |xs|
  {
    if xs != [] {
      RunLengthIs(xs, g, RunLength(xs, f));
      SameRuns(xs[RunLength(xs, f)..], f, g);
    }
  }

  /** What goes to the main thread is the same on both servers, group by group. */
  lemma {:induction false} MainGroupsAgree(commands: seq<Command>)
    ensures Keep(Groups(commands), MainGroup) == Keep(AndroidGroups(commands), AndroidMain)
    decreases |commands|
  {
    if commands != [] {
      if OnMain(commands[0]) {
        var n := RunLength(commands, RawMode);
        forall i | 0 <= i < n
          ensures AndroidMode(commands[i]) == AndroidMode(commands[0])
        {
          assert RawMode(commands[i]) == RawMode(commands[0]);
        }
        RunLengthIs(commands, AndroidMode, n);
        MainGroupsAgree(commands[n..]);
      } else {
        DropHead(commands, RawMode, MainGroup);
        DropHead(commands, AndroidMode, AndroidMain);
        MainGroupsAgree(commands[1..]);
      }
    }
  }

  /** Dropping an unwanted first element leaves the wanted groups as they are. */
  lemma DropHead<K>(xs: seq<Command>, key: Command -> K, wanted: seq<Command> -> bool)
    requires xs != []
    requires forall g: seq<Command> :: g != [] && key(g[0]) == key(xs[0]) ==> !wanted(g)
    ensures Keep(Runs(xs, key), wanted) == Keep(Runs(xs[1..], key), wanted)
  {
    var n := RunLength(xs, key);
    var tail := xs[1..];
    assert !wanted(xs[..n]);
    if n == 1 {
      assert xs[n..] == tail;
    } else {
      forall i | 0 <= i < n - 1
        ensures key(tail[i]) == key(tail[0])
      {
        assert tail[i] == xs[i + 1] && tail[0] == xs[1];
      }
      RunLengthIs(tail, key, n - 1);
      assert tail[n - 1..] == xs[n..];
      assert key(tail[..n - 1][0]) == key(xs[0]);
    }
  }
}

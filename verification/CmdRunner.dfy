/** The iOS command runner: one serial queue, a stop flag, and groups run in turn. */
module CmdRunner {
  import opened Bytes
  import opened Json
  import opened Commands

  /** What becomes of a frame. */
  datatype Outcome =
    | ParseError
    | Nothing
    | MainQueue(command: Value)
    | WorkQueue(commands: seq<Value>)

  function Routed(commands: seq<Value>, toInt: Truncation): Outcome
  {
    if commands == [] then Nothing
    else if |commands| == 1 && IsMainThreadMode(commands[0], toInt) then MainQueue(commands[0])
    else WorkQueue(commands)
  }

  /** Mode 1 as a number or as text means the main thread. */
  predicate IsMainThreadMode(command: Value, toInt: Truncation)
  {
    var mode := Get(command, THREAD_MODE);
    if mode.String? then Strtol(mode.s) == 1
    else (mode.Int? || mode.Double? || mode.Bool?) && ToInt32(AsInt(mode, toInt)) == 1
  }

  /** A frame, already read as JSON: an object stands for an array of one; an array is
      refused as a whole when some element is not an object. */
  method OnCommandFrame(root: Option<Value>, toInt: Truncation) returns (r: Outcome)
    ensures r.ParseError? <==>
              || root.None?
              || (!root.value.Object? && !root.value.Array?)
              || (root.value.Array? && exists i :: 0 <= i < |root.value.items| && !root.value.items[i].Object?)
    ensures !r.ParseError? ==>
              r == Routed(if root.value.Object? then [root.value] else root.value.items, toInt)
    ensures !r.ParseError? ==>
              var list := if root.value.Object? then [root.value] else root.value.items;
              && (list == [] ==> r == Nothing)
              && (|list| == 1 && IsMainThreadMode(list[0], toInt) ==> r == MainQueue(list[0]))
              && (|list| > 1 || (|list| == 1 && !IsMainThreadMode(list[0], toInt)) ==> r == WorkQueue(list))
  {
    if root.None? {
      return ParseError;
    }
    var commands;
    if root.value.Object? {
      commands := [root.value];
    } else if root.value.Array? {
      var items := root.value.items;
      var valid := [];
      for i := 0 to |items|
        invariant valid == items[..i]
        invariant forall k :: 0 <= k < i ==> items[k].Object?
      {
        if !items[i].Object? {
          return ParseError;
        }
        valid := valid + [items[i]];
      }
      commands := valid;
    } else {
      return ParseError;
    }
    if commands == [] {
      return Nothing;
    }
    if |commands| == 1 {
      var main := IsMainThreadMode(commands[0], toInt);
      if main {
        return MainQueue(commands[0]);
      }
    }
    return WorkQueue(commands);
  }

  /** Where the C++ parser reads a mode, both servers send the command to the same side,
      unless the mode is written as text: C++ reads that as 0. */
  lemma ModesAgree(obj: Value, toInt: Truncation)
    requires ParseItem(obj, toInt).Some?
    ensures (ParseItem(obj, toInt).value.threadMode == 1 <==> IsMainThreadMode(obj, toInt)) <==>
              !(Get(obj, THREAD_MODE).String? && Strtol(Get(obj, THREAD_MODE).s) == 1)
  {
    hide ParamArraysOk, Strtol, Find;
    var command := ParseItem(obj, toInt).value;
    var mode := Get(obj, THREAD_MODE);
    assert command.threadMode == ToInt32(AsInt(mode, toInt));
  }

  /** A frame whose commands C++ accepts is accepted here too, with the same objects. */
  lemma CppAcceptsLess(items: seq<Value>, toInt: Truncation)
    requires ParseItems(items, toInt).Some?
    ensures forall i :: 0 <= i < |items| ==> items[i].Object?
  {
    AllOrNothing(items, toInt);
  }

  /** The stop flag is set by another thread at some point and then stays set: it reads
      as set from the `stopsAt`-th reading on, or never. */
  class Runner {
    const stopsAt: Option<nat>
    var readings: nat
    var executed: seq<Value>

    constructor (stopsAt: Option<nat>)
      ensures this.stopsAt == stopsAt && readings == 0 && executed == []
    {
      this.stopsAt := stopsAt;
      readings, executed := 0, [];
    }

    predicate StoppedAt(reading: int)
    {
      stopsAt.Some? && stopsAt.value <= reading
    }

    method Stopped() returns (b: bool)
      modifies this`readings
      ensures b == StoppedAt(old(readings))
      ensures readings == old(readings) + 1
    {
      b := StoppedAt(readings);
      readings := readings + 1;
    }

    /** From the given start, what ran is a prefix; it falls short only after a reading
        of the flag as set, and every command ran after a reading of it as unset. */
    twostate predicate RanPrefix(commands: seq<Value>)
      reads this
    {
      && |old(executed)| <= |executed| <= |old(executed)| + |commands|
      && executed == old(executed) + commands[..|executed| - |old(executed)|]
      && old(readings) + (|executed| - |old(executed)|) <= readings
      && (|executed| < |old(executed)| + |commands| ==> StoppedAt(readings - 1))
      && (|executed| > |old(executed)| ==> !StoppedAt(old(readings) + |executed| - |old(executed)| - 1))
    }

    method RunGroup(group: seq<Value>)
      modifies this
      ensures RanPrefix(group)
      ensures StoppedAt(old(readings)) ==> executed == old(executed)
    {
      for i := 0 to |group|
        invariant executed == old(executed) + group[..i]
        invariant readings == old(readings) + i
        invariant i > 0 ==> !StoppedAt(readings - 1)
      {
        var stopped := Stopped();
        if stopped {
          return;
        }
        executed := executed + [group[i]];
      }
    }

    /** Group after group, a frame's commands run in array order: all of them, or those
        before the stop. */
    method ExecuteCommandList(commands: seq<Value>, toInt: Truncation)
      modifies this
      ensures RanPrefix(commands)
      ensures StoppedAt(old(readings)) ==> executed == old(executed)
      ensures stopsAt.None? ==> executed == old(executed) + commands
    {
      var index := 0;
      while index < |commands|
        invariant 0 <= index <= |commands|
        invariant |old(executed)| <= |executed| <= |old(executed)| + index
        invariant executed == old(executed) + commands[..|executed| - |old(executed)|]
        invariant readings >= old(readings) + |executed| - |old(executed)|
        invariant |executed| < |old(executed)| + index ==> StoppedAt(readings - 1)
        invariant |executed| > |old(executed)| ==> !StoppedAt(old(readings) + |executed| - |old(executed)| - 1)
        invariant index > 0 ==> !StoppedAt(old(readings))
      {
        var stopped := Stopped();
        if stopped {
          break;
        }
        var mainThreadMode := IsMainThreadMode(commands[index], toInt);
        var end := index;
        while end < |commands| && IsMainThreadMode(commands[end], toInt) == mainThreadMode
          invariant index <= end <= |commands|
          invariant end == index ==> IsMainThreadMode(commands[index], toInt) == mainThreadMode
        {
          end := end + 1;
        }
        label before:
        RunGroup(commands[index..end]);
        ghost var ran := |executed| - |old@before(executed)|;
        assert commands[..index] + commands[index..end][..ran] == commands[..index + ran];
        index := end;
      }
    }
  }
}

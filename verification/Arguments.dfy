/** The arguments of a call: what the client put into an item of a batch is what the
    application receives. */
module Arguments {
  import opened Bytes
  import opened Json
  import opened JsonParse
  import opened Commands
  import opened Client
  import opened ClientForms
  import opened Dispatch
  import opened Manager
  import opened ServerRuns
  import opened ServerCalls

  /** The call carries an empty object, and a name that reads as v. */
  ghost predicate Spells(call: Call, v: Value)
  {
    Parse(call.name) == Some(v) && call.params == Object([])
  }

  /** The call carries the arguments of the item. Under version 2 they are the name and
      the params, in C++ form. Under any other version a text comes in their place: for
      the short form that of an object with the name and the params, for the flat form
      that of the name, for the nested form that of the `api` object, and for a field
      command that of the whole item. */
  ghost predicate Carries(c: Value, call: Call)
    requires GoodItem(c)
  {
    if GoodCall(c) then
      var name, params := Lookup(c, API_NAME).value, OrElse(Lookup(c, PARAMS), Null);
      if Version(c) == 2 then call == Call(name.s, if params.Object? then Norm(params) else Object([]))
      else
        exists v :: Spells(call, v) && Find(v, API_NAME) == Some(name)
                    && Find(v, PARAMS) == Some(if params.Null? then Object([]) else Norm(params))
    else if FieldCall(c) then
      NormalizeCommand(c).Some? && Spells(call, Norm(NormalizeCommand(c).value))
    else if FlatCall(c) then
      var name := Lookup(c, API).value;
      if Version(c) == 2 then call == Call(name.s, Object([])) else Spells(call, name)
    else
      var api := Lookup(c, API).value;
      var name, params := Lookup(api, API_NAME).value, OrElse(Lookup(api, PARAMS), Null);
      if Version(c) == 2 then call == Call(name.s, if params.Object? then Norm(params) else Object([]))
      else Spells(call, Norm(api))
  }

  /** The raw value can be written and read back. */
  predicate RawReads(c: Command)
  {
    Plain(c.apiRaw) && Sorted(c.apiRaw) && Depth(c.apiRaw) <= MAX_DEPTH
  }

  lemma ItemIsCarried(c: Value, command: Command, texts: Texts)
    requires GoodItem(c) && ItemUnderstood(c, command) && RawReads(command)
    ensures Carries(c, CallFor(command, texts))
  {
    CallIsReceived(command);
    hide Lookup, Find, Norm, NormalizeCommand, FlatArrays, NestedArrays, Plain, Sorted, Depth, ParseWithin, CallOf;
    var call := CallFor(command, texts);
    assert Receives(command, call);
    if GoodCall(c) && Version(c) != 2 {
      assert Spells(call, command.apiRaw);
    }
  }

  // ---------- the raw values of a batch ----------

  lemma {:induction false} FoundPlain(members: seq<Member>, key: Bytes)
    requires PlainMembers(members)
    ensures FindMember(members, key).Some? ==> Plain(FindMember(members, key).value)
  {
    if members != [] {
      FoundPlain(members[1..], key);
    }
  }

  lemma {:induction false} ItemPlain(items: seq<Value>, i: nat)
    requires i < |items| && PlainItems(items)
    ensures Plain(items[i])
  {
    if i > 0 {
      ItemPlain(items[1..], i - 1);
    }
  }

  lemma RawOfItem(obj: Value, toInt: Truncation)
    requires ParseItem(obj, toInt).Some? && Sorted(obj) && Plain(obj) && Depth(obj) <= MAX_DEPTH
    ensures RawReads(ParseItem(obj, toInt).value)
  {
    RawIsPartOf(obj, toInt);
    FoundPlain(obj.members, API);
    hide ParseItem, Depth, Sorted, FindMember;
  }

  /** Everything that a batch carries in the place of params can be written and read
      back. */
  lemma RawsOfBatch(sent: seq<Value>, toInt: Truncation, i: nat)
    requires PlainItems(sent) && Depth(Array(sent)) <= MAX_DEPTH
    requires ParseItems(NormItems(sent), toInt).Some? && i < |sent|
    ensures i < |ParseItems(NormItems(sent), toInt).value|
    ensures RawReads(ParseItems(NormItems(sent), toInt).value[i])
  {
    var items := NormItems(sent);
    NormItemsSorted(sent);
    NormItemsLength(sent);
    AllOrNothing(items, toInt);
    ItemForm(items, i);
    ItemPlain(items, i);
    assert ItemsDepth(sent) < MAX_DEPTH;
    hide ParseItem, ParseItems, Depth, ItemsDepth, Sorted, Plain, NormItems, PlainItems, SortedItems;
    RawOfItem(items[i], toInt);
  }

  // ---------- the background items ----------

  lemma ModeIsGiven(c: Value)
    requires GoodItem(c)
    ensures IsInt32(OrElse(Lookup(c, THREAD_MODE), Int(0)))
  {
    hide Lookup, OrElse, IsInt32, FlatArrays, NestedArrays;
  }

  /** The items that are not for the main thread. */
  function BackgroundItems(batch: seq<Value>): seq<Value>
    requires forall c <- batch :: GoodItem(c)
  {
    if batch == [] then []
    else
      ModeIsGiven(batch[0]);
      (if Mode(batch[0]) != 1 then [batch[0]] else []) + BackgroundItems(batch[1..])
  }

  lemma {:induction false} BackgroundGood(batch: seq<Value>)
    requires forall c <- batch :: GoodItem(c)
    ensures forall c <- BackgroundItems(batch) :: GoodItem(c)
  {
    hide GoodItem;
    if batch != [] {
      BackgroundGood(batch[1..]);
    }
  }

  /** One call for each item, in the same order, with the arguments of the item. */
  ghost predicate AllCarried(items: seq<Value>, calls: seq<Call>)
  {
    && |calls| == |items|
    && forall b :: 0 <= b < |items| ==> GoodItem(items[b]) && Carries(items[b], calls[b])
  }

  lemma {:induction false} BackgroundIsCarried(batch: seq<Value>, commands: seq<Command>, texts: Texts)
    requires |commands| == |batch| && forall c <- batch :: GoodItem(c)
    requires forall i :: 0 <= i < |batch| ==> ItemUnderstood(batch[i], commands[i]) && RawReads(commands[i])
    ensures AllCarried(BackgroundItems(batch), CallsFor(Keep(commands, InBackground), texts))
  {
    hide GoodItem, ItemUnderstood, Carries, CallFor, RawReads, AllCarried, Mode;
    if batch == [] {
      NoneCarried(texts);
    } else {
      BackgroundIsCarried(batch[1..], commands[1..], texts);
      ItemIsCarried(batch[0], commands[0], texts);
      ModeIsMeant(batch[0], commands[0]);
      var items, later := BackgroundItems(batch[1..]), Keep(commands[1..], InBackground);
      if InBackground(commands[0]) {
        CallsForAppend([commands[0]], later, texts);
        assert CallsFor([commands[0]], texts) == [CallFor(commands[0], texts)];
        OneMoreCarried(batch[0], CallFor(commands[0], texts), items, CallsFor(later, texts));
      } else {
        assert [] + items == items;
      }
    }
  }

  lemma NoneCarried(texts: Texts)
    ensures AllCarried([], CallsFor([], texts))
  {
  }

  lemma OneMoreCarried(c: Value, call: Call, items: seq<Value>, calls: seq<Call>)
    requires GoodItem(c) && Carries(c, call) && AllCarried(items, calls)
    ensures AllCarried([c] + items, [call] + calls)
  {
    hide GoodItem, Carries;
  }

  lemma ModeIsMeant(c: Value, command: Command)
    requires GoodItem(c) && ItemUnderstood(c, command)
    ensures command.threadMode == Mode(c)
  {
    hide Lookup, Find, Norm, NormalizeCommand, FlatArrays, NestedArrays;
  }
}

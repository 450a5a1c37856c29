/** The manager: special frames, command frames, and the text it sends and passes on. */
module Manager {
  import opened Bytes
  import opened Framing
  import opened Json
  import opened JsonGrammar
  import opened JsonParse
  import opened JsonSound
  import opened JsonText
  import opened Commands
  import opened Dispatch

  const PING: Bytes := [80, 73, 78, 71]                              // PING
  const PONG: Bytes := [80, 79, 78, 71]                              // PONG
  const GET_API: Bytes := [71, 69, 84, 95, 65, 80, 73, 58]           // GET_API:
  const NO_APIS: Bytes := [91, 93]                                   // []
  const TYPE: Bytes := [116, 121, 112, 101]                          // type
  const KEY: Bytes := [107, 101, 121]                                // key
  const VALUE: Bytes := [118, 97, 108, 117, 101]                     // value
  const ERROR: Bytes := [101, 114, 114, 111, 114]                    // error
  const CALLBACK: Bytes := [99, 97, 108, 108, 98, 97, 99, 107]       // callback
  const PARSE_ERROR: Bytes := [112, 97, 114, 115, 101, 69, 114, 114, 111, 114]  // parseError

  /** The reply object, its members stored one after the other. */
  function TypedJson(kind: Bytes, key: Bytes, value: Bytes): Value
  {
    Object(Put(Put(Put([], TYPE, String(kind)), KEY, String(key)), VALUE, String(value)))
  }

  lemma TypedJsonForm(kind: Bytes, key: Bytes, value: Bytes)
    ensures var json := TypedJson(kind, key, value);
            && Plain(json) && Sorted(json) && Depth(json) == 2
            && Find(json, TYPE) == Some(String(kind))
            && Find(json, KEY) == Some(String(key))
            && Find(json, VALUE) == Some(String(value))
  {
    var first := Member(KEY, String(key));
    var second := Member(TYPE, String(kind));
    var third := Member(VALUE, String(value));
    assert Less(KEY, TYPE) && Less(TYPE, VALUE) && !Less(TYPE, KEY) && !Less(VALUE, KEY) && !Less(VALUE, TYPE);
    assert Put([], TYPE, second.value) == [second];
    assert Put([second], KEY, first.value) == [first, second];
    assert [first, second][1..] == [second] && [second][1..] == [];
    assert Put([second], VALUE, third.value) == [second, third];
    var members := [first, second, third];
    assert Put([first, second], VALUE, third.value) == members;
    assert members == [first] + ([second] + ([third] + []));
    assert SortedKeys(members) by {
      assert members[1..] == [second, third] && [second, third][1..] == [third];
      assert SortedKeys([third]) && SortedKeys([second, third]);
    }
    hide Put, Less, SortedKeys;
    TextMember(third, []);
    TextMember(second, [third] + []);
    TextMember(first, [second] + ([third] + []));
  }

  lemma TextMember(m: Member, others: seq<Member>)
    requires m.value.String?
    ensures PlainMembers([m] + others) == PlainMembers(others)
    ensures SortedMembers([m] + others) == SortedMembers(others)
    ensures MembersDepth([m] + others) == Max(1, MembersDepth(others))
    ensures forall key ::
              FindMember([m] + others, key) == if key == m.key then Some(m.value) else FindMember(others, key)
  {
    assert ([m] + others)[1..] == others;
  }

  function ReplyText(kind: Bytes, key: Bytes, value: Bytes): Bytes
  {
    TypedJsonForm(kind, key, value);
    Text(TypedJson(kind, key, value))
  }

  /** Whatever bytes a reply carries, the peer reads its three fields back. */
  lemma ReplyArrives(kind: Bytes, key: Bytes, value: Bytes)
    requires |ReplyText(kind, key, value)| <= MAX_PAYLOAD
    ensures var payload := ReplyText(kind, key, value);
            && Decode(Encode(payload)) == Decoded([payload], [], false)
            && Parse(payload).Some?
            && Find(Parse(payload).value, TYPE) == Some(String(kind))
            && Find(Parse(payload).value, KEY) == Some(String(key))
            && Find(Parse(payload).value, VALUE) == Some(String(value))
  {
    var payload := ReplyText(kind, key, value);
    TypedJsonForm(kind, key, value);
    hide Plain, Sorted, Depth, TypedJson, Text, Find, ParseWithin, Decode, Encode;
    ParseText(TypedJson(kind, key, value));
    DecodeFrame(payload, []);
    DecodeEmpty();
    assert Encode(payload) + [] == Encode(payload);
  }

  /** The text of a callback: a value that is not an object is replaced by an empty one. */
  function CallbackValue(json: Value): Value
  {
    if json.Object? then json else EMPTY_OBJECT
  }

  /** Text nested in text: decode the frame, parse it, parse its value field, and the
      object is back; exactly when it is nested at most 200 deep. */
  lemma CallbackObjectArrives(key: Bytes, json: Value)
    requires json.Object? && Plain(json) && Sorted(json)
    requires |ReplyText(CALLBACK, key, Text(json))| <= MAX_PAYLOAD
    ensures var frames := Decode(Encode(ReplyText(CALLBACK, key, Text(json)))).frames;
            && |frames| == 1
            && Parse(frames[0]).Some?
            && var field := Find(Parse(frames[0]).value, VALUE);
            && field.Some? && field.value.String?
            && Parse(field.value.s) == if Depth(json) <= MAX_DEPTH then Some(json) else None
  {
    hide Plain, Sorted, Depth, TypedJson, Text, Find, ParseWithin, Decode, Encode, ReplyText;
    ReplyArrives(CALLBACK, key, Text(json));
    ParseText(json);
  }

  // ---------- what is passed on to the application ----------

  /** Whatever parses is kept as the C++ tables keep it, within the depth limit. */
  lemma ParsedForm(text: Bytes)
    requires Parse(text).Some?
    ensures Sorted(Parse(text).value) && Depth(Parse(text).value) <= MAX_DEPTH
  {
    hide ParseWithin, Sorted, Depth, TreeOk, TreeValue, TreeDepth;
    var d := DocSound(text, MAX_DEPTH);
    TreeValueForm(d.tree);
  }

  lemma {:induction false} FoundForm(members: seq<Member>, key: Bytes)
    requires SortedMembers(members)
    ensures FindMember(members, key).Some? ==>
              Sorted(FindMember(members, key).value) && Depth(FindMember(members, key).value) <= MembersDepth(members)
  {
    if members != [] {
      FoundForm(members[1..], key);
    }
  }

  lemma {:induction false} ItemForm(items: seq<Value>, i: nat)
    requires i < |items| && SortedItems(items)
    ensures Sorted(items[i]) && Depth(items[i]) <= ItemsDepth(items)
  {
    if i > 0 {
      ItemForm(items[1..], i - 1);
    }
  }

  /** The raw value kept with a command is the whole object for a field command and its
      `api` member otherwise. */
  lemma RawIsPartOf(obj: Value, toInt: Truncation)
    requires ParseItem(obj, toInt).Some? && Sorted(obj)
    ensures var raw := ParseItem(obj, toInt).value.apiRaw;
            && Some(raw) == (if Find(obj, FIELD).Some? then Some(obj) else Find(obj, API))
            && Sorted(raw) && Depth(raw) <= Depth(obj)
  {
    hide ParamArraysOk, ToInt32, AsInt, FindMember;
    FoundForm(obj.members, API);
  }

  /** For a command not of version 2 the application gets the text of the raw value, and
      reading that text gives the value back, for every command of every frame. */
  lemma PassedOnTextReparses(payload: Bytes, toInt: Truncation, i: nat)
    requires ParseFrame(payload, toInt).Some? && i < |ParseFrame(payload, toInt).value|
    requires Plain(ParseFrame(payload, toInt).value[i].apiRaw)
    ensures var raw := ParseFrame(payload, toInt).value[i].apiRaw;
            Parse(Text(raw)) == Some(raw)
  {
    var raw := ParseFrame(payload, toInt).value[i].apiRaw;
    ParsedForm(payload);
    var root := Parse(payload).value;
    if root.Array? {
      AllOrNothing(root.items, toInt);
      ItemForm(root.items, i);
      hide ParseItem, ParseWithin, Text, Plain;
      RawIsPartOf(root.items[i], toInt);
    } else {
      hide ParseItem, ParseWithin, Text, Plain;
      RawIsPartOf(root, toInt);
    }
    hide ParseFrame, Depth, Sorted;
    ParseText(raw);
  }

  // ---------- the object ----------

  datatype Send = Send(id: nat, payload: Bytes)

  datatype Call = Call(name: Bytes, params: Value)

  predicate IsApiQuery(payload: Bytes)
  {
    |payload| >= |GET_API| && payload[..|GET_API|] == GET_API
  }

  predicate IsSpecial(payload: Bytes)
  {
    payload == PING || payload == PONG || IsApiQuery(payload)
  }

  /** The commands that a payload makes the manager dispatch, if any. */
  function DispatchedBy(payload: Bytes, toInt: Truncation): Option<seq<Command>>
  {
    if IsSpecial(payload) then None else ParseFrame(payload, toInt)
  }

  /** What the connection gets back at once, if anything; `what` is the text of the parse
      error. */
  function AnswerTo(payload: Bytes, toInt: Truncation, what: Bytes): Option<Bytes>
  {
    if payload == PING then Some(PONG)
    else if payload == PONG then None
    else if IsApiQuery(payload) then Some(NO_APIS)
    else if ParseFrame(payload, toInt).None? then Some(ReplyText(ERROR, PARSE_ERROR, what))
    else None
  }

  function CallOf(c: Command): Call
    requires c.isVer2 || Plain(c.apiRaw)
  {
    if c.isVer2 then Call(c.apiName, c.params) else Call(Text(c.apiRaw), EMPTY_OBJECT)
  }

  /** What the application gets for a command: under version 2 its name and its params,
      otherwise a text that reads as the raw value, and an empty object. */
  ghost predicate Receives(c: Command, call: Call)
  {
    if c.isVer2 then call.name == c.apiName && call.params == c.params
    else Parse(call.name) == Some(c.apiRaw) && call.params == Object([])
  }

  lemma CallIsReceived(c: Command)
    requires c.isVer2 || (Plain(c.apiRaw) && Sorted(c.apiRaw) && Depth(c.apiRaw) <= MAX_DEPTH)
    ensures Receives(c, CallOf(c))
  {
    if !c.isVer2 {
      hide Text, Plain, Sorted, Depth, ParseWithin;
      ParseText(c.apiRaw);
    }
  }

  /** A reply goes to the latest connection; without one it is dropped. */
  function Addressed(latest: nat, kind: Bytes, key: Bytes, value: Bytes): seq<Send>
  {
    if latest == 0 then [] else [Send(latest, ReplyText(kind, key, value))]
  }

  class AutoTestMgr {
    var latestConnId: nat
    var sends: seq<Send>
    var calls: seq<Call>
    const dispatcher: Dispatcher

    constructor (dispatcher: Dispatcher)
      ensures this.dispatcher == dispatcher && latestConnId == 0 && sends == [] && calls == []
    {
      this.dispatcher := dispatcher;
      latestConnId := 0;
      sends, calls := [], [];
    }

    method SendTypedJson(kind: Bytes, key: Bytes, value: Bytes)
      modifies this`sends
      ensures sends == old(sends) + Addressed(latestConnId, kind, key, value)
      ensures latestConnId == 0 ==> sends == old(sends)
      ensures latestConnId != 0 ==>
                && |sends| == |old(sends)| + 1 && sends[|old(sends)|].id == latestConnId
                && var payload := sends[|old(sends)|].payload;
                   |payload| <= MAX_PAYLOAD ==>
                     && Parse(payload).Some?
                     && Find(Parse(payload).value, TYPE) == Some(String(kind))
                     && Find(Parse(payload).value, KEY) == Some(String(key))
                     && Find(Parse(payload).value, VALUE) == Some(String(value))
    {
      if |ReplyText(kind, key, value)| <= MAX_PAYLOAD {
        ReplyArrives(kind, key, value);
      }
      hide Find, ParseWithin;
      TypedJsonForm(kind, key, value);
      var json := TypedJson(kind, key, value);
      if latestConnId != 0 {
        sends := sends + [Send(latestConnId, Text(json))];
      }
    }

    method SendCallbackJson(key: Bytes, json: Value)
      requires Plain(json)
      modifies this`sends
      ensures Plain(CallbackValue(json))
      ensures sends == old(sends) + Addressed(latestConnId, CALLBACK, key, Text(CallbackValue(json)))
      ensures json.Object? ==> sends == old(sends) + Addressed(latestConnId, CALLBACK, key, Text(json))
      ensures !json.Object? ==> sends == old(sends) + Addressed(latestConnId, CALLBACK, key, [123, 125])
    {
      if !json.Object? {
        assert Text(EMPTY_OBJECT) == [OPEN_BRACE, CLOSE_BRACE];
        SendTypedJson(CALLBACK, key, [OPEN_BRACE, CLOSE_BRACE]);
        return;
      }
      SendTypedJson(CALLBACK, key, Text(json));
    }

    /** The entry for every payload. An ill-formed frame, or one with a single ill-formed
        element, is answered by one error and dispatches nothing. */
    method HandlePayload(id: nat, payload: Bytes, toInt: Truncation, what: Bytes)
      modifies this`latestConnId, this`sends, dispatcher
      ensures latestConnId == id
      ensures var answer := AnswerTo(payload, toInt, what);
              sends == old(sends) + if answer.Some? && (id != 0 || IsSpecial(payload))
                                    then [Send(id, answer.value)] else []
      ensures var commands := DispatchedBy(payload, toInt);
              && (commands.None? ==>
                    dispatcher.posted == old(dispatcher.posted) && dispatcher.submitted == old(dispatcher.submitted))
              && (commands.Some? ==>
                    && dispatcher.posted == old(dispatcher.posted) + Keep(Groups(commands.value), MainGroup)
                    && dispatcher.submitted == old(dispatcher.submitted)
                         + if dispatcher.hasPool then Keep(Groups(commands.value), PoolGroup) else [])
    {
      hide ParseFrame, Keep, Groups, ReplyText;
      latestConnId := id;
      if payload == PING {
        sends := sends + [Send(id, PONG)];
        return;
      }
      if payload == PONG {
        return;
      }
      if IsApiQuery(payload) {
        sends := sends + [Send(id, NO_APIS)];
        return;
      }
      var commands := ParseImpl(payload, toInt);
      if commands.None? {
        SendTypedJson(ERROR, PARSE_ERROR, what);
        return;
      }
      dispatcher.DispatchCommands(commands.value);
    }

    /** One command: a call of the registered invocation if there is one, and an error
        reply under the command's name if that throws. */
    method ExecuteCommand(c: Command, registered: bool, thrown: Option<Bytes>)
      requires c.isVer2 || Plain(c.apiRaw)
      modifies this`sends, this`calls
      ensures calls == old(calls) + if registered then [CallOf(c)] else []
      ensures registered && (c.isVer2 || (Sorted(c.apiRaw) && Depth(c.apiRaw) <= MAX_DEPTH)) ==>
                |calls| == |old(calls)| + 1 && Receives(c, calls[|old(calls)|])
      ensures sends == old(sends) + if registered && thrown.Some?
                                    then Addressed(latestConnId, ERROR, c.commandName, thrown.value) else []
    {
      if !registered {
        return;
      }
      if c.isVer2 || (Sorted(c.apiRaw) && Depth(c.apiRaw) <= MAX_DEPTH) {
        CallIsReceived(c);
      }
      hide Receives, Text, Plain, Sorted, Depth;
      if c.isVer2 {
        calls := calls + [Call(c.apiName, c.params)];
      } else {
        calls := calls + [Call(Text(c.apiRaw), EMPTY_OBJECT)];
      }
      if thrown.Some? {
        SendTypedJson(ERROR, c.commandName, thrown.value);
      }
    }
  }
}

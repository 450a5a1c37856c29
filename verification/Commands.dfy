/** Command frames: what the server makes of a payload. */
module Commands {
  import opened Bytes
  import opened Json
  import opened JsonGrammar
  import opened JsonParse
  import JsonParser

  // The protocol's key names, as bytes.
  const FIELD: Bytes := [102, 105, 101, 108, 100]                                  // field
  const API: Bytes := [97, 112, 105]                                               // api
  const API_NAME: Bytes := [97, 112, 105, 78, 97, 109, 101]                        // apiName
  const PARAMS: Bytes := [112, 97, 114, 97, 109, 115]                              // params
  const THREAD_MODE: Bytes := [116, 104, 114, 101, 97, 100, 77, 111, 100, 101]     // threadMode
  const VER: Bytes := [118, 101, 114]                                              // ver
  const PARAM_NAME: Bytes := [112, 97, 114, 97, 109, 78, 97, 109, 101]             // paramName
  const PARAM_TYPE: Bytes := [112, 97, 114, 97, 109, 84, 121, 112, 101]            // paramType
  const PARAM_VALUE: Bytes := [112, 97, 114, 97, 109, 86, 97, 108, 117, 101]       // paramValue
  const FLAT_NAME: Bytes := [112, 97, 114, 97, 109, 95, 110, 97, 109, 101]         // param_name
  const FLAT_TYPE: Bytes := [112, 97, 114, 97, 109, 95, 116, 121, 112, 101]        // param_type
  const FLAT_VALUE: Bytes := [112, 97, 114, 97, 109, 95, 118, 97, 108, 117, 101]   // param_value

  const EMPTY_OBJECT: Value := Object([])

  datatype CmdType = Method | Field

  datatype Command = Command(
    cmdType: CmdType,
    apiName: Bytes,
    params: Value,
    threadMode: int,
    ver: int,
    isVer2: bool,
    apiRaw: Value,
    commandName: Bytes)

  function FindMember(members: seq<Member>, key: Bytes): Option<Value>
  {
    if members == [] then None
    else if members[0].key == key then Some(members[0].value)
    else FindMember(members[1..], key)
  }

  /** A member of an object, if v is an object and has it. */
  function Find(v: Value, key: Bytes): Option<Value>
  {
    if v.Object? then FindMember(v.members, key) else None
  }

  /** Reading access by key: a missing member reads as null. */
  function Get(v: Value, key: Bytes): Value
  {
    var found := Find(v, key);
    if found.Some? then found.value else Null
  }

  /** In a table kept in key order the search finds what the map holds. */
  lemma {:induction false} FindIsLookup(members: seq<Member>, key: Bytes)
    requires SortedKeys(members)
    ensures FindMember(members, key) == if key in AsMap(members) then Some(AsMap(members)[key]) else None
  {
    if members == [] {
      AsMapEmpty();
    } else {
      FirstMember(members);
      hide AsMap, SortedKeys;
      FindIsLookup(members[1..], key);
    }
  }

  /** The cast from int64 to a 32-bit int. */
  function ToInt32(n: int): (r: int)
    ensures -0x8000_0000 <= r < 0x8000_0000
    ensures -0x8000_0000 <= n < 0x8000_0000 ==> r == n
    ensures (r - n) % 0x1_0000_0000 == 0
  {
    (n + 0x8000_0000) % 0x1_0000_0000 - 0x8000_0000
  }

  /** What the cast from double to int64 makes of a literal is a parameter. */
  type Truncation = Bytes -> int

  function AsInt(v: Value, toInt: Truncation): int
  {
    match v
    case Int(n) => n
    case Double(literal) => toInt(literal)
    case Bool(b) => if b then 1 else 0
    case _ => 0
  }

  predicate IsCSpace(b: Byte)
  {
    b == 32 || 9 <= b <= 13
  }

  function SkipCSpace(s: Bytes): Bytes
  {
    if s != [] && IsCSpace(s[0]) then SkipCSpace(s[1..]) else s
  }

  /** `strtol` in base 10: leading space, a sign, digits; clamped to 64 bits. */
  function Strtol(s: Bytes): int
  {
    var t := SkipCSpace(s);
    var sign := if t != [] && (t[0] == MINUS || t[0] == 43) then 1 else 0;
    var n := IntValue(sign == 1 && t[0] == MINUS, TakeDigits(t[sign..]));
    if n < -0x8000_0000_0000_0000 then -0x8000_0000_0000_0000
    else if n > 0x7FFF_FFFF_FFFF_FFFF then 0x7FFF_FFFF_FFFF_FFFF
    else n
  }

  /** The three parameter arrays are all absent, or all arrays of one length. */
  predicate ParamArraysOk(host: Value, nested: bool)
  {
    var names := Find(host, if nested then PARAM_NAME else FLAT_NAME);
    var types := Find(host, if nested then PARAM_TYPE else FLAT_TYPE);
    var values := Find(host, if nested then PARAM_VALUE else FLAT_VALUE);
    || (names.None? && types.None? && values.None?)
    || (names.Some? && types.Some? && values.Some?
        && names.value.Array? && types.value.Array? && values.value.Array?
        && |names.value.items| == |types.value.items| == |values.value.items|)
  }

  /** The version number, or nothing when the member has a wrong type. */
  function ParseVer(obj: Value, toInt: Truncation): Option<int>
  {
    match Find(obj, VER)
    case None => Some(0)
    case Some(v) =>
      if v.String? then Some(ToInt32(Strtol(v.s)))
      else if v.Int? || v.Double? then Some(ToInt32(AsInt(v, toInt)))
      else None
  }

  function ParseFieldCommand(obj: Value, toInt: Truncation): Option<Command>
  {
    var field := Get(obj, FIELD);
    if !field.String? || !ParamArraysOk(obj, false) then None
    else
      var mode := ToInt32(AsInt(Get(obj, THREAD_MODE), toInt));
      Some(Command(CmdType.Field, field.s, EMPTY_OBJECT, mode, 0, false, obj, field.s))
  }

  function ParseMethodCommand(obj: Value, toInt: Truncation): Option<Command>
  {
    var api, ver := Get(obj, API), ParseVer(obj, toInt);
    var mode := ToInt32(AsInt(Get(obj, THREAD_MODE), toInt));
    if ver.None? then None
    else if api.String? then
      if !ParamArraysOk(obj, false) then None
      else Some(Command(CmdType.Method, api.s, EMPTY_OBJECT, mode, ver.value, ver.value == 2, api, api.s))
    else if api.Object? then
      var name := Get(api, API_NAME);
      if !name.String? || name.s == [] then None
      else if ver.value == 2 then
        var p := Get(api, PARAMS);
        Some(Command(CmdType.Method, name.s, if p.Object? then p else EMPTY_OBJECT, mode, 2, true, api, name.s))
      else if !ParamArraysOk(api, true) then None
      else Some(Command(CmdType.Method, name.s, EMPTY_OBJECT, mode, ver.value, false, api, name.s))
    else None
  }

  /** One command object; nothing stands for the parse exception. */
  function ParseOne(obj: Value, toInt: Truncation): Option<Command>
  {
    if Find(obj, FIELD).Some? then ParseFieldCommand(obj, toInt)
    else if Find(obj, API).Some? then ParseMethodCommand(obj, toInt)
    else None
  }

  function ParseItem(item: Value, toInt: Truncation): Option<Command>
  {
    if item.Object? then ParseOne(item, toInt) else None
  }

  /** The commands of an array frame: every element, or none at all. */
  function ParseItems(items: seq<Value>, toInt: Truncation): Option<seq<Command>>
  {
    if items == [] then Some([])
    else
      var first, later := ParseItem(items[0], toInt), ParseItems(items[1..], toInt);
      if first.None? || later.None? then None else Some([first.value] + later.value)
  }

  function ParseFrame(payload: Bytes, toInt: Truncation): Option<seq<Command>>
  {
    match Parse(payload)
    case None => None
    case Some(root) =>
      if root.Array? then ParseItems(root.items, toInt)
      else
        var one := ParseItem(root, toInt);
        if one.None? then None else Some([one.value])
  }

  /** All or nothing: a frame yields commands if and only if every element is a
      well-formed command, and then one command per element in the same order. */
  lemma {:induction false} AllOrNothing(items: seq<Value>, toInt: Truncation)
    ensures ParseItems(items, toInt).Some? <==> forall i :: 0 <= i < |items| ==> ParseItem(items[i], toInt).Some?
    ensures ParseItems(items, toInt).Some? ==>
              var commands := ParseItems(items, toInt).value;
              && |commands| == |items|
              && forall i :: 0 <= i < |items| ==> Some(commands[i]) == ParseItem(items[i], toInt)
  {
    hide ParseItem;
    if items != [] {
      AllOrNothing(items[1..], toInt);
      if ParseItems(items[1..], toInt).Some? && ParseItem(items[0], toInt).Some? {
        var commands := ParseItems(items, toInt).value;
        forall i | 0 <= i < |items|
          ensures Some(commands[i]) == ParseItem(items[i], toInt)
        {
          if i > 0 {
            assert items[i] == items[1..][i - 1];
          }
        }
      } else if ParseItem(items[0], toInt).Some? {
        var i :| 0 <= i < |items[1..]| && ParseItem(items[1..][i], toInt).None?;
        assert items[i + 1] == items[1..][i];
      }
    }
  }

  lemma {:induction false} ParseItemsSnoc(items: seq<Value>, last: Value, toInt: Truncation)
    ensures ParseItems(items + [last], toInt) ==
              var before, one := ParseItems(items, toInt), ParseItem(last, toInt);
              if before.None? || one.None? then None else Some(before.value + [one.value])
  {
    hide ParseItem;
    if items == [] {
      assert items + [last] == [last] && [last][1..] == [];
      assert ParseItems([last][1..], toInt) == Some([]);
      var one := ParseItem(last, toInt);
      if one.Some? {
        assert [one.value] + [] == [] + [one.value];
      }
    } else {
      assert (items + [last])[1..] == items[1..] + [last];
      ParseItemsSnoc(items[1..], last, toInt);
      assert (items + [last])[0] == items[0];
      var first, later, one := ParseItem(items[0], toInt), ParseItems(items[1..], toInt), ParseItem(last, toInt);
      if first.Some? && later.Some? && one.Some? {
        assert [first.value] + later.value + [one.value] == [first.value] + (later.value + [one.value]);
      }
    }
  }

  lemma {:induction false} FailsFrom(items: seq<Value>, i: nat, toInt: Truncation)
    requires i <= |items| && ParseItems(items[..i], toInt).None?
    ensures ParseItems(items, toInt).None?
    decreases |items| - i
  {
    hide ParseItems, ParseItem;
    if i < |items| {
      assert items[..i + 1] == items[..i] + [items[i]];
      ParseItemsSnoc(items[..i], items[i], toInt);
      FailsFrom(items, i + 1, toInt);
    } else {
      assert items[..i] == items;
    }
  }

  /** The length the check works with: -1 for a missing array, -2 for something else. */
  function LenOf(v: Option<Value>): int
  {
    if v.None? then -1 else if v.value.Array? then |v.value.items| else -2
  }

  /** The check on the parameter arrays; `ok` is false where it throws. For the nested
      form they are looked up in the `api` object. */
  method CheckParamArrayLength(obj: Value, apiObj: Value, nested: bool) returns (ok: bool)
    ensures ok == ParamArraysOk(if nested then apiObj else obj, nested)
  {
    hide FindMember;
    var host := if nested then apiObj else obj;
    var names := Find(host, if nested then PARAM_NAME else FLAT_NAME);
    var types := Find(host, if nested then PARAM_TYPE else FLAT_TYPE);
    var values := Find(host, if nested then PARAM_VALUE else FLAT_VALUE);
    if names.None? && types.None? && values.None? {
      return true;
    }
    var ln, lt, lv := LenOf(names), LenOf(types), LenOf(values);
    if ln < 0 || lt < 0 || lv < 0 || ln != lt || lt != lv {
      return false;
    }
    return true;
  }

  /** One command object: a command is filled in step by step and given up at the first
      check that fails. */
  method FillCommand(obj: Value, toInt: Truncation) returns (r: Option<Command>)
    ensures r == ParseOne(obj, toInt)
  {
    hide ParamArraysOk, FindMember, Strtol, ToInt32, AsInt;
    var cmd := Command(CmdType.Method, [], EMPTY_OBJECT, 0, 0, false, Null, []);
    if Find(obj, FIELD).Some? {
      var field := Get(obj, FIELD);
      if !field.String? {
        return None;
      }
      cmd := cmd.(cmdType := CmdType.Field, apiName := field.s, commandName := field.s, apiRaw := obj);
      cmd := cmd.(threadMode := ToInt32(AsInt(Get(obj, THREAD_MODE), toInt)));
      var ok := CheckParamArrayLength(obj, obj, false);
      return if ok then Some(cmd) else None;
    }
    if Find(obj, API).None? {
      return None;
    }
    var api := Get(obj, API);
    if !api.String? && !api.Object? {
      return None;
    }
    cmd := cmd.(apiRaw := api, threadMode := ToInt32(AsInt(Get(obj, THREAD_MODE), toInt)));
    var found := Find(obj, VER);
    if found.Some? {
      var ver := found.value;
      if ver.String? {
        cmd := cmd.(ver := ToInt32(Strtol(ver.s)));
      } else if ver.Int? || ver.Double? {
        cmd := cmd.(ver := ToInt32(AsInt(ver, toInt)));
      } else {
        return None;
      }
    }
    cmd := cmd.(isVer2 := cmd.ver == 2);
    var ok := true;
    if api.String? {
      cmd := cmd.(apiName := api.s, commandName := api.s);
      ok := CheckParamArrayLength(obj, obj, false);
    } else {
      var name := Get(api, API_NAME);
      if !name.String? || name.s == [] {
        return None;
      }
      cmd := cmd.(apiName := name.s, commandName := name.s);
      if cmd.isVer2 {
        var p := Get(api, PARAMS);
        cmd := cmd.(params := if p.Object? then p else EMPTY_OBJECT);
      } else {
        ok := CheckParamArrayLength(obj, api, true);
      }
    }
    return if ok then Some(cmd) else None;
  }

  /** The server's parser: the JSON text, then the elements one after the other. */
  method ParseImpl(payload: Bytes, toInt: Truncation) returns (r: Option<seq<Command>>)
    ensures r == ParseFrame(payload, toInt)
  {
    hide Parse, ParseOne;
    var root := JsonParser.ParseJson(payload);
    if root.None? {
      return None;
    }
    if root.value.Array? {
      var items := root.value.items;
      var commands := [];
      for i := 0 to |items|
        invariant ParseItems(items[..i], toInt) == Some(commands)
      {
        assert items[..i + 1] == items[..i] + [items[i]];
        ParseItemsSnoc(items[..i], items[i], toInt);
        if !items[i].Object? {
          FailsFrom(items, i + 1, toInt);
          return None;
        }
        var one := FillCommand(items[i], toInt);
        if one.None? {
          FailsFrom(items, i + 1, toInt);
          return None;
        }
        commands := commands + [one.value];
      }
      assert items[..|items|] == items;
      return Some(commands);
    }
    if root.value.Object? {
      var one := FillCommand(root.value, toInt);
      if one.None? {
        return None;
      }
      return Some([one.value]);
    }
    return None;
  }
}

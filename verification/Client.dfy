/** The client's side of a command frame, and the agreement with the server's parser. */
module Client {
  import opened Bytes
  import opened Json
  import opened JsonGrammar
  import opened JsonParse
  import opened JsonLexical
  import opened JsonText
  import opened Commands

  /** `key in d` and `d[key]` for a dict: the value stored last under the key. */
  function Lookup(v: Value, key: Bytes): Option<Value>
  {
    if v.Object? && key in AsMap(v.members) then Some(AsMap(v.members)[key]) else None
  }

  function OrElse(found: Option<Value>, default: Value): Value
  {
    if found.Some? then found.value else default
  }

  function BuildCommand(apiName: Value, params: Option<Value>, threadMode: Value, ver: Value): Value
  {
    var given := if params.None? || params.value.Null? then EMPTY_OBJECT else params.value;
    var api := Object([Member(API_NAME, apiName), Member(PARAMS, given)]);
    Object([Member(API, api), Member(THREAD_MODE, threadMode), Member(VER, ver)])
  }

  /** `d.setdefault(key, value)` */
  function SetDefault(v: Value, key: Bytes, value: Value): Value
    requires v.Object?
  {
    if Lookup(v, key).Some? then v else Object(v.members + [Member(key, value)])
  }

  /** One item of a batch as it is sent; nothing stands for the exceptions. */
  function NormalizeCommand(c: Value): Option<Value>
  {
    if !c.Object? then None
    else if Lookup(c, API_NAME).Some? then
      Some(BuildCommand(Lookup(c, API_NAME).value, Lookup(c, PARAMS),
                        OrElse(Lookup(c, THREAD_MODE), Int(0)), OrElse(Lookup(c, VER), Int(2))))
    else if Lookup(c, API).Some? || Lookup(c, FIELD).Some? then
      var merged := SetDefault(c, THREAD_MODE, Int(0));
      Some(if Lookup(merged, API).Some? then SetDefault(merged, VER, Int(2)) else merged)
    else None
  }

  function NormalizeAll(batch: seq<Value>): Option<seq<Value>>
  {
    if batch == [] then Some([])
    else
      var first, later := NormalizeCommand(batch[0]), NormalizeAll(batch[1..]);
      if first.None? || later.None? then None else Some([first.value] + later.value)
  }

  /** The command object of `set_field`. */
  function SetFieldCommand(className: Bytes, names: seq<Value>, types: seq<Value>, values: seq<Value>): Value
  {
    Object([Member(FIELD, String(className)), Member(FLAT_NAME, Array(names)),
            Member(FLAT_TYPE, Array(types)), Member(FLAT_VALUE, Array(values))])
  }

  // ---------- what the server finds in an object it has read ----------

  /** A member the client stored is the member the server finds, in C++ form. */
  lemma FindAfterNorm(v: Value, key: Bytes)
    ensures Find(Norm(v), key) ==
              var sent := Lookup(v, key);
              if sent.None? then None else Some(Norm(sent.value))
  {
    if v.Object? {
      hide AsMap, NormMembers;
      AsMapEmpty();
      LastWins([], v.members);
      NormMembersSorted([], v.members);
      FindIsLookup(NormMembers([], v.members), key);
    }
  }

  lemma SetDefaultIsLookup(v: Value, key: Bytes, value: Value, other: Bytes)
    requires v.Object?
    ensures Lookup(SetDefault(v, key, value), other) ==
              if other == key then Some(OrElse(Lookup(v, key), value)) else Lookup(v, other)
  {
    var member := [Member(key, value)];
    AsMapAppend(v.members, member);
    AsMapCons(member[0], []);
    AsMapEmpty();
    assert member + [] == member;
    hide AsMap;
  }

  lemma BuiltLookup(apiName: Value, params: Option<Value>, threadMode: Value, ver: Value)
    ensures var built := BuildCommand(apiName, params, threadMode, ver);
            var api := Object([Member(API_NAME, apiName),
                               Member(PARAMS, if params.None? || params.value.Null? then EMPTY_OBJECT
                                              else params.value)]);
            && Lookup(built, FIELD).None?
            && Lookup(built, API) == Some(api)
            && Lookup(built, THREAD_MODE) == Some(threadMode)
            && Lookup(built, VER) == Some(ver)
            && Lookup(api, API_NAME) == Some(apiName)
            && Lookup(api, PARAMS) == Some(api.members[1].value)
  {
    var built := BuildCommand(apiName, params, threadMode, ver);
    var api := built.members[0].value;
    assert api.members[..1] == [api.members[0]] && api.members[..0] == [];
    assert AsMap(api.members[..1]) == map[API_NAME := apiName];
    var m := built.members;
    assert m[..2][..1] == m[..1] && m[..1][..0] == [];
    assert AsMap(m[..1]) == map[API := api];
    assert AsMap(m[..2]) == map[API := api, THREAD_MODE := threadMode];
    assert |API| == 3 && |FIELD| == 5 && |VER| == 3 && |THREAD_MODE| == 10 && |API_NAME| == 7 && |PARAMS| == 6;
    assert API[0] == 97 && VER[0] == 118;
  }

  // ---------- the three forms of a batch item ----------

  predicate IsInt32(v: Value)
  {
    v.Int? && -0x8000_0000 <= v.n < 0x8000_0000
  }

  /** A call in the short form: a non-empty name, and small integers where given. */
  predicate GoodCall(c: Value)
  {
    && Lookup(c, API_NAME).Some? && Lookup(c, API_NAME).value.String? && Lookup(c, API_NAME).value.s != []
    && IsInt32(OrElse(Lookup(c, THREAD_MODE), Int(0)))
    && IsInt32(OrElse(Lookup(c, VER), Int(2)))
  }

  /** What a call asks for. Parameters travel for version 2 and when they are a dict. */
  predicate Understood(c: Value, command: Command)
    requires GoodCall(c)
  {
    var params := OrElse(Lookup(c, PARAMS), Null);
    && command.cmdType == CmdType.Method
    && command.apiName == command.commandName == Lookup(c, API_NAME).value.s
    && command.threadMode == OrElse(Lookup(c, THREAD_MODE), Int(0)).n
    && command.ver == OrElse(Lookup(c, VER), Int(2)).n
    && command.isVer2 == (command.ver == 2)
    && command.params == (if command.ver == 2 && params.Object? then Norm(params) else EMPTY_OBJECT)
    && command.apiRaw.Object?
    && Find(command.apiRaw, API_NAME) == Some(Lookup(c, API_NAME).value)
    && Find(command.apiRaw, PARAMS) == Some(if params.Null? then EMPTY_OBJECT else Norm(params))
  }

  lemma NestedHasNoArrays(apiName: Value, given: Value)
    ensures ParamArraysOk(Norm(Object([Member(API_NAME, apiName), Member(PARAMS, given)])), true)
  {
    var api := Object([Member(API_NAME, apiName), Member(PARAMS, given)]);
    FindAfterNorm(api, PARAM_NAME);
    FindAfterNorm(api, PARAM_TYPE);
    FindAfterNorm(api, PARAM_VALUE);
    hide Norm, Find;
    assert api.members[..1] == [api.members[0]] && api.members[..0] == [];
    assert AsMap(api.members[..1]) == map[API_NAME := apiName];
    assert AsMap(api.members) == map[API_NAME := apiName][PARAMS := given];
    assert |PARAMS| == 6 && |API_NAME| == 7;
    assert |PARAM_NAME| == |PARAM_TYPE| == 9 && |PARAM_VALUE| == 10;
  }

  /** The server understands a good call as the client meant it. */
  lemma CallIsUnderstood(c: Value, toInt: Truncation)
    requires GoodCall(c)
    ensures NormalizeCommand(c).Some?
    ensures var command := ParseItem(Norm(NormalizeCommand(c).value), toInt);
            command.Some? && Understood(c, command.value)
  {
    var name, params := Lookup(c, API_NAME).value, Lookup(c, PARAMS);
    var threadMode, ver := OrElse(Lookup(c, THREAD_MODE), Int(0)), OrElse(Lookup(c, VER), Int(2));
    var given := if params.None? || params.value.Null? then EMPTY_OBJECT else params.value;
    var built := BuildCommand(name, params, threadMode, ver);
    var api := Object([Member(API_NAME, name), Member(PARAMS, given)]);
    BuiltLookup(name, params, threadMode, ver);
    FindAfterNorm(built, FIELD);
    FindAfterNorm(built, API);
    FindAfterNorm(built, THREAD_MODE);
    FindAfterNorm(built, VER);
    FindAfterNorm(api, API_NAME);
    FindAfterNorm(api, PARAMS);
    NestedHasNoArrays(name, given);
    NormKeepsKind(given);
    NormKeepsKind(built);
    NormKeepsKind(api);
    hide Lookup, Find, Norm, ParamArraysOk, ToInt32;
    assert NormalizeCommand(c) == Some(built);
  }

  lemma NormKeepsKind(v: Value)
    ensures Norm(v).Object? == v.Object?
    ensures Norm(EMPTY_OBJECT) == EMPTY_OBJECT
    ensures !v.Array? && !v.Object? ==> Norm(v) == v
  {
  }

  /** The object form keeps its `api` member and gets mode 0 and version 2 unless it
      says otherwise; a field form gets mode 0 only. */
  lemma CompleteFormIsKept(c: Value, key: Bytes)
    requires c.Object? && Lookup(c, API_NAME).None?
    requires Lookup(c, API).Some? || Lookup(c, FIELD).Some?
    ensures NormalizeCommand(c).Some?
    ensures var isCall := Lookup(c, API).Some?;
            Lookup(NormalizeCommand(c).value, key) ==
              if key == THREAD_MODE then Some(OrElse(Lookup(c, key), Int(0)))
              else if key == VER && isCall then Some(OrElse(Lookup(c, key), Int(2)))
              else Lookup(c, key)
  {
    hide Lookup;
    var merged := SetDefault(c, THREAD_MODE, Int(0));
    SetDefaultIsLookup(c, THREAD_MODE, Int(0), API);
    SetDefaultIsLookup(c, THREAD_MODE, Int(0), VER);
    SetDefaultIsLookup(c, THREAD_MODE, Int(0), key);
    SetDefaultIsLookup(merged, VER, Int(2), key);
    assert |API| == 3 && |VER| == 3 && |THREAD_MODE| == 10;
    assert API[0] == 97 && VER[0] == 118;
  }

  /** A field command is understood as one on the named class, in the background,
      carrying the whole command object, exactly when its three lists are equally long. */
  lemma SetFieldIsUnderstood(
      className: Bytes, names: seq<Value>, types: seq<Value>, values: seq<Value>, toInt: Truncation)
    ensures var sent := SetFieldCommand(className, names, types, values);
            ParseItem(Norm(sent), toInt)
            == if |names| == |types| == |values|
               then Some(Command(CmdType.Field, className, EMPTY_OBJECT, 0, 0, false, Norm(sent), className))
               else None
  {
    var sent := SetFieldCommand(className, names, types, values);
    SetFieldLookup(className, names, types, values);
    FindAfterNorm(sent, FIELD);
    FindAfterNorm(sent, THREAD_MODE);
    FindAfterNorm(sent, FLAT_NAME);
    FindAfterNorm(sent, FLAT_TYPE);
    FindAfterNorm(sent, FLAT_VALUE);
    NormKeepsKind(sent);
    NormItemsLength(names);
    NormItemsLength(types);
    NormItemsLength(values);
    ArrayNorm(names);
    ArrayNorm(types);
    ArrayNorm(values);
    assert Norm(String(className)) == String(className);
    hide Lookup, Find, Norm, NormItems;
  }

  lemma ArrayNorm(items: seq<Value>)
    ensures Norm(Array(items)) == Array(NormItems(items))
  {
  }

  lemma {:induction false} NormItemsLength(items: seq<Value>)
    ensures |NormItems(items)| == |items|
    ensures forall i :: 0 <= i < |items| ==> NormItems(items)[i] == Norm(items[i])
  {
    hide Norm;
    if items != [] {
      NormItemsLength(items[1..]);
    }
  }

  lemma SetFieldLookup(className: Bytes, names: seq<Value>, types: seq<Value>, values: seq<Value>)
    ensures var sent := SetFieldCommand(className, names, types, values);
            && Lookup(sent, FIELD) == Some(String(className))
            && Lookup(sent, FLAT_NAME) == Some(Array(names))
            && Lookup(sent, FLAT_TYPE) == Some(Array(types))
            && Lookup(sent, FLAT_VALUE) == Some(Array(values))
            && Lookup(sent, THREAD_MODE).None?
  {
    FieldKeysDiffer();
    FourMembers(Member(FIELD, String(className)), Member(FLAT_NAME, Array(names)),
                Member(FLAT_TYPE, Array(types)), Member(FLAT_VALUE, Array(values)), THREAD_MODE);
    hide Lookup;
  }

  lemma FieldKeysDiffer()
    ensures THREAD_MODE !in [FIELD, FLAT_NAME, FLAT_TYPE, FLAT_VALUE]
    ensures FIELD !in [FLAT_NAME, FLAT_TYPE, FLAT_VALUE]
    ensures FLAT_VALUE !in [FLAT_NAME, FLAT_TYPE] && FLAT_TYPE != FLAT_NAME
  {
    assert |FIELD| == 5 && |THREAD_MODE| == |FLAT_NAME| == |FLAT_TYPE| == 10 && |FLAT_VALUE| == 11;
    assert FLAT_NAME[6] == 110 && FLAT_TYPE[6] == 116 && FLAT_NAME[0] == FLAT_TYPE[0] == 112 && THREAD_MODE[0] == 116;
  }

  /** An object with four different keys, looked up under each of them and another. */
  lemma FourMembers(a: Member, b: Member, c: Member, d: Member, other: Bytes)
    requires a.key !in [b.key, c.key, d.key] && d.key !in [b.key, c.key] && b.key != c.key
    requires other !in [a.key, b.key, c.key, d.key]
    ensures var v := Object([a, b, c, d]);
            && Lookup(v, a.key) == Some(a.value) && Lookup(v, b.key) == Some(b.value)
            && Lookup(v, c.key) == Some(c.value) && Lookup(v, d.key) == Some(d.value)
            && Lookup(v, other).None?
  {
    AsMapEmpty();
    AsMapSnoc([], a);
    AsMapSnoc([a], b);
    AsMapSnoc([a, b], c);
    AsMapSnoc([a, b, c], d);
    hide AsMap;
    assert [] + [a] == [a] && [a] + [b] == [a, b] && [a, b] + [c] == [a, b, c] && [a, b, c] + [d] == [a, b, c, d];
  }

  /** A version written as text is the version it spells. */
  lemma VersionAsText(n: int)
    requires InInt64(n)
    ensures Strtol(IntText(n)) == n
  {
    var magnitude := if n < 0 then -n else n;
    var ds := Digits(magnitude);
    DigitsRoundTrip(magnitude);
    TakeAllDigits(ds);
    hide Digits, TakeDigits, DigitsValue;
    assert IsDigit(ds[0]);
    var t := IntText(n);
    assert SkipCSpace(t) == t;
    assert t[(if n < 0 then 1 else 0)..] == ds;
  }

  /** Both spellings of a version give the same command. */
  lemma VersionSpellings(obj: Value, other: Value, n: int, toInt: Truncation)
    requires obj.Object? && other.Object? && InInt64(n)
    requires Find(obj, VER) == Some(Int(n)) && Find(other, VER) == Some(String(IntText(n)))
    requires forall key: Bytes :: key != VER ==> Find(obj, key) == Find(other, key)
    requires Find(obj, FIELD).None?
    ensures ParseItem(obj, toInt) == ParseItem(other, toInt)
  {
    hide Find, Strtol, IntText, AsInt, ToInt32, ParamArraysOk, ParseVer, ParseItem;
    VersionKeyIsSpecial();
    SameVersion(obj, other, n, toInt);
    SameArrays(obj, other);
    SameCommand(obj, other, toInt);
  }

  lemma SameVersion(obj: Value, other: Value, n: int, toInt: Truncation)
    requires InInt64(n)
    requires Find(obj, VER) == Some(Int(n)) && Find(other, VER) == Some(String(IntText(n)))
    ensures ParseVer(obj, toInt) == ParseVer(other, toInt)
  {
    VersionAsText(n);
    hide Find, Strtol, IntText, ToInt32;
  }

  lemma SameArrays(obj: Value, other: Value)
    requires forall key <- [FLAT_NAME, FLAT_TYPE, FLAT_VALUE] :: Find(obj, key) == Find(other, key)
    ensures ParamArraysOk(obj, false) == ParamArraysOk(other, false)
  {
    hide Find;
    var keys := [FLAT_NAME, FLAT_TYPE, FLAT_VALUE];
    assert keys[0] in keys && keys[1] in keys && keys[2] in keys;
  }

  lemma SameCommand(obj: Value, other: Value, toInt: Truncation)
    requires obj.Object? && other.Object? && Find(obj, FIELD).None? && Find(other, FIELD).None?
    requires Find(obj, API) == Find(other, API) && Find(obj, THREAD_MODE) == Find(other, THREAD_MODE)
    requires ParseVer(obj, toInt) == ParseVer(other, toInt)
    requires ParamArraysOk(obj, false) == ParamArraysOk(other, false)
    ensures ParseItem(obj, toInt) == ParseItem(other, toInt)
  {
    hide Find, AsInt, ToInt32, ParamArraysOk, ParseVer;
    assert ParseMethodCommand(obj, toInt) == ParseMethodCommand(other, toInt);
  }

  lemma VersionKeyIsSpecial()
    ensures VER != API && VER != FIELD && VER != THREAD_MODE
    ensures VER != FLAT_NAME && VER != FLAT_TYPE && VER != FLAT_VALUE
  {
    assert |FIELD| == 5 && |API| == 3 && |VER| == 3;
    assert |THREAD_MODE| == |FLAT_NAME| == |FLAT_TYPE| == 10 && |FLAT_VALUE| == 11;
    assert API[0] == 97 && VER[0] == 118;
  }

  // ---------- a batch, end to end ----------

  /** Whatever batch is sent, the server parses the elements it was given, or refuses
      the frame as a whole when it is nested too deeply. */
  lemma BatchArrives(sent: seq<Value>, toInt: Truncation)
    requires PlainItems(sent)
    ensures ParseFrame(Text(Array(sent)), toInt) ==
              if Depth(Array(sent)) <= MAX_DEPTH then ParseItems(NormItems(sent), toInt) else None
  {
    ArrayNorm(sent);
    hide Norm, NormItems, Text, Depth, ParseWithin, ParseItems;
    ParseTextWithin(Array(sent), MAX_DEPTH);
  }

  lemma {:induction false} NormalizeAllItems(batch: seq<Value>)
    ensures NormalizeAll(batch).Some? <==> forall i :: 0 <= i < |batch| ==> NormalizeCommand(batch[i]).Some?
    ensures NormalizeAll(batch).Some? ==>
              && |NormalizeAll(batch).value| == |batch|
              && forall i :: 0 <= i < |batch| ==> Some(NormalizeAll(batch).value[i]) == NormalizeCommand(batch[i])
  {
    hide NormalizeCommand;
    if batch != [] {
      NormalizeAllItems(batch[1..]);
      if NormalizeAll(batch[1..]).Some? {
        forall i | 0 <= i < |batch| && NormalizeAll(batch).Some?
          ensures Some(NormalizeAll(batch).value[i]) == NormalizeCommand(batch[i])
        {
          if i > 0 {
            assert batch[i] == batch[1..][i - 1];
          }
        }
        forall i | 0 <= i < |batch|
          ensures NormalizeCommand(batch[0]).Some? ==> NormalizeCommand(batch[i]).Some?
        {
          if i > 0 {
            assert batch[i] == batch[1..][i - 1];
          }
        }
      } else {
        var i :| 0 <= i < |batch[1..]| && NormalizeCommand(batch[1..][i]).None?;
        assert batch[i + 1] == batch[1..][i];
      }
    }
  }
}

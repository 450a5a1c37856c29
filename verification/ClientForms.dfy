/** Every item that a client may put into a batch, and what the server makes of it. */
module ClientForms {
  import opened Bytes
  import opened Json
  import opened JsonParse
  import opened JsonText
  import opened Commands
  import opened Client
  import opened Forms

  /** The numbers of a call, where it gives them, are small. */
  predicate SmallNumbers(c: Value)
  {
    IsInt32(OrElse(Lookup(c, THREAD_MODE), Int(0))) && IsInt32(OrElse(Lookup(c, VER), Int(2)))
  }

  /** A call in the flat form: `api` is a name, the three arrays stand beside it. */
  predicate FlatCall(c: Value)
  {
    && c.Object? && Lookup(c, API_NAME).None? && Lookup(c, FIELD).None?
    && Lookup(c, API).Some? && Lookup(c, API).value.String?
    && SmallNumbers(c)
  }

  /** A call in the nested form: `api` is an object with a name. */
  predicate NestedCall(c: Value)
  {
    && c.Object? && Lookup(c, API_NAME).None? && Lookup(c, FIELD).None?
    && Lookup(c, API).Some? && Lookup(c, API).value.Object?
    && Lookup(Lookup(c, API).value, API_NAME).Some?
    && Lookup(Lookup(c, API).value, API_NAME).value.String?
    && Lookup(Lookup(c, API).value, API_NAME).value.s != []
    && SmallNumbers(c)
  }

  /** A field command with a class name. */
  predicate FieldCall(c: Value)
  {
    && c.Object? && Lookup(c, API_NAME).None?
    && Lookup(c, FIELD).Some? && Lookup(c, FIELD).value.String?
    && IsInt32(OrElse(Lookup(c, THREAD_MODE), Int(0)))
  }

  predicate FlatArrays(c: Value)
  {
    EquallyLong(Lookup(c, FLAT_NAME), Lookup(c, FLAT_TYPE), Lookup(c, FLAT_VALUE))
  }

  predicate NestedArrays(api: Value)
  {
    EquallyLong(Lookup(api, PARAM_NAME), Lookup(api, PARAM_TYPE), Lookup(api, PARAM_VALUE))
  }

  function Mode(c: Value): int
    requires IsInt32(OrElse(Lookup(c, THREAD_MODE), Int(0)))
  {
    OrElse(Lookup(c, THREAD_MODE), Int(0)).n
  }

  function Version(c: Value): int
    requires IsInt32(OrElse(Lookup(c, VER), Int(2)))
  {
    OrElse(Lookup(c, VER), Int(2)).n
  }

  // ---------- what the server finds in a complete item ----------

  function Normed(v: Option<Value>): Option<Value>
  {
    if v.None? then None else Some(Norm(v.value))
  }

  /** A complete item reaches the server as it was given, with the missing numbers. */
  lemma FoundInItem(c: Value, key: Bytes)
    requires c.Object? && Lookup(c, API_NAME).None? && (Lookup(c, API).Some? || Lookup(c, FIELD).Some?)
    ensures NormalizeCommand(c).Some?
    ensures var obj := Norm(NormalizeCommand(c).value);
            && obj.Object?
            && Find(obj, key) ==
                 if key == THREAD_MODE then Some(Norm(OrElse(Lookup(c, key), Int(0))))
                 else if key == VER && Lookup(c, API).Some? then Some(Norm(OrElse(Lookup(c, key), Int(2))))
                 else Normed(Lookup(c, key))
  {
    CompleteFormIsKept(c, key);
    var sent := NormalizeCommand(c).value;
    assert sent.Object? by {
      hide Lookup;
    }
    FindAfterNorm(sent, key);
    NormKeepsKind(sent);
    hide Lookup, Find, Norm, NormalizeCommand;
  }

  lemma NormKeepsLengths(a: Option<Value>, b: Option<Value>, c: Option<Value>)
    ensures EquallyLong(Normed(a), Normed(b), Normed(c)) == EquallyLong(a, b, c)
  {
    SameLength(a);
    SameLength(b);
    SameLength(c);
    hide Norm;
  }

  lemma SameLength(a: Option<Value>)
    ensures a.Some? ==> Norm(a.value).Array? == a.value.Array?
    ensures a.Some? && a.value.Array? ==> |Norm(a.value).items| == |a.value.items|
  {
    if a.Some? && a.value.Array? {
      NormItemsLength(a.value.items);
    }
  }

  /** The keys of the protocol are all different. */
  lemma KeysDiffer()
    ensures THREAD_MODE !in [FIELD, API, API_NAME, PARAMS, VER, FLAT_NAME, FLAT_TYPE, FLAT_VALUE]
    ensures VER !in [FIELD, API, API_NAME, PARAMS, FLAT_NAME, FLAT_TYPE, FLAT_VALUE]
  {
    VersionKeyIsSpecial();
    assert |FIELD| == 5 && |API| == 3 && |VER| == 3 && |API_NAME| == 7 && |PARAMS| == 6;
    assert |THREAD_MODE| == |FLAT_NAME| == |FLAT_TYPE| == 10 && |FLAT_VALUE| == 11;
    assert THREAD_MODE[0] == 116 && FLAT_NAME[0] == FLAT_TYPE[0] == 112;
  }

  lemma SmallIsItself(v: Value, toInt: Truncation)
    requires IsInt32(v)
    ensures Norm(v) == v
    ensures forall r :: ModeIs(Some(v), r, toInt) ==> r == v.n
    ensures VersionIs(Some(v), v.n, toInt)
  {
    forall r | Wraps(r, v.n)
      ensures r == v.n
    {
      WrapsIs(r, v.n);
    }
  }

  /** A flat call is understood exactly when its arrays are equally long or all missing. */
  lemma FlatIsUnderstood(c: Value, toInt: Truncation)
    requires FlatCall(c)
    ensures NormalizeCommand(c).Some?
    ensures var name := Lookup(c, API).value;
            ParseItem(Norm(NormalizeCommand(c).value), toInt)
            == if FlatArrays(c)
               then Some(Command(CmdType.Method, name.s, Object([]), Mode(c), Version(c), Version(c) == 2,
                                 name, name.s))
               else None
  {
    KeysDiffer();
    FoundInItem(c, FIELD);
    FoundInItem(c, API);
    FoundInItem(c, THREAD_MODE);
    FoundInItem(c, VER);
    FoundInItem(c, FLAT_NAME);
    FoundInItem(c, FLAT_TYPE);
    FoundInItem(c, FLAT_VALUE);
    NormKeepsLengths(Lookup(c, FLAT_NAME), Lookup(c, FLAT_TYPE), Lookup(c, FLAT_VALUE));
    NormKeepsKind(Lookup(c, API).value);
    SmallIsItself(OrElse(Lookup(c, THREAD_MODE), Int(0)), toInt);
    SmallIsItself(OrElse(Lookup(c, VER), Int(2)), toInt);
    var obj := Norm(NormalizeCommand(c).value);
    hide Lookup, Find, Norm, NormalizeCommand, EquallyLong, ParseItem, ModeIs;
    FlatForm(obj, toInt);
    NumbersAgree(obj, Version(c), toInt);
  }

  /** A version is determined by the member that gives it. */
  lemma NumbersAgree(obj: Value, ver: int, toInt: Truncation)
    requires VersionIs(Find(obj, VER), ver, toInt)
    ensures forall r :: VersionIs(Find(obj, VER), r, toInt) ==> r == ver
  {
    forall r | VersionIs(Find(obj, VER), r, toInt)
      ensures r == ver
    {
      VersionIsRead(obj, r, toInt);
      VersionIsRead(obj, ver, toInt);
    }
  }

  /** A nested call is understood when it is of version 2, which takes its params if they
      are a dict, or when its arrays are equally long or all missing. */
  lemma NestedIsUnderstood(c: Value, toInt: Truncation)
    requires NestedCall(c)
    ensures NormalizeCommand(c).Some?
    ensures var api := Lookup(c, API).value;
            var name, params := Lookup(api, API_NAME).value, OrElse(Lookup(api, PARAMS), Null);
            ParseItem(Norm(NormalizeCommand(c).value), toInt)
            == if Version(c) == 2 || NestedArrays(api)
               then Some(Command(CmdType.Method, name.s,
                                 if Version(c) == 2 && params.Object? then Norm(params) else Object([]),
                                 Mode(c), Version(c), Version(c) == 2, Norm(api), name.s))
               else None
  {
    var api := Lookup(c, API).value;
    KeysDiffer();
    FoundInItem(c, FIELD);
    FoundInItem(c, API);
    FoundInItem(c, THREAD_MODE);
    FoundInItem(c, VER);
    FindAfterNorm(api, API_NAME);
    FindAfterNorm(api, PARAMS);
    FindAfterNorm(api, PARAM_NAME);
    FindAfterNorm(api, PARAM_TYPE);
    FindAfterNorm(api, PARAM_VALUE);
    NormKeepsLengths(Lookup(api, PARAM_NAME), Lookup(api, PARAM_TYPE), Lookup(api, PARAM_VALUE));
    NormKeepsKind(api);
    NormKeepsKind(Lookup(api, API_NAME).value);
    NormKeepsKind(OrElse(Lookup(api, PARAMS), Null));
    SmallIsItself(OrElse(Lookup(c, THREAD_MODE), Int(0)), toInt);
    SmallIsItself(OrElse(Lookup(c, VER), Int(2)), toInt);
    var obj := Norm(NormalizeCommand(c).value);
    hide Lookup, Find, Norm, NormalizeCommand, EquallyLong, ParseItem, ModeIs, VersionIs;
    NestedForm(obj, Version(c), toInt);
  }

  /** A field command is understood exactly when its arrays are equally long or all
      missing; it carries the whole object. */
  lemma FieldIsUnderstood(c: Value, toInt: Truncation)
    requires FieldCall(c)
    ensures NormalizeCommand(c).Some?
    ensures var name, obj := Lookup(c, FIELD).value, Norm(NormalizeCommand(c).value);
            ParseItem(obj, toInt)
            == if FlatArrays(c)
               then Some(Command(CmdType.Field, name.s, Object([]), Mode(c), 0, false, obj, name.s))
               else None
  {
    KeysDiffer();
    FoundInItem(c, FIELD);
    FoundInItem(c, THREAD_MODE);
    FoundInItem(c, FLAT_NAME);
    FoundInItem(c, FLAT_TYPE);
    FoundInItem(c, FLAT_VALUE);
    NormKeepsLengths(Lookup(c, FLAT_NAME), Lookup(c, FLAT_TYPE), Lookup(c, FLAT_VALUE));
    NormKeepsKind(Lookup(c, FIELD).value);
    SmallIsItself(OrElse(Lookup(c, THREAD_MODE), Int(0)), toInt);
    var obj := Norm(NormalizeCommand(c).value);
    hide Lookup, Find, Norm, NormalizeCommand, EquallyLong, ParseItem, ModeIs;
    FieldForm(obj, toInt);
  }

  // ---------- any item ----------

  /** An item of one of the four forms that the server accepts. */
  predicate GoodItem(c: Value)
  {
    || GoodCall(c)
    || (FlatCall(c) && FlatArrays(c))
    || (NestedCall(c) && (Version(c) == 2 || NestedArrays(Lookup(c, API).value)))
    || (FieldCall(c) && FlatArrays(c))
  }

  /** The command is what the item asks for. */
  ghost predicate ItemUnderstood(c: Value, command: Command)
    requires GoodItem(c)
  {
    if GoodCall(c) then Understood(c, command)
    else if FieldCall(c) then
      var name := Lookup(c, FIELD).value.s;
      NormalizeCommand(c).Some?
      && command == Command(CmdType.Field, name, Object([]), Mode(c), 0, false, Norm(NormalizeCommand(c).value), name)
    else if FlatCall(c) then
      var api := Lookup(c, API).value;
      command == Command(CmdType.Method, api.s, Object([]), Mode(c), Version(c), Version(c) == 2, api, api.s)
    else
      var api := Lookup(c, API).value;
      var name, params := Lookup(api, API_NAME).value.s, OrElse(Lookup(api, PARAMS), Null);
      command == Command(CmdType.Method, name,
                         if Version(c) == 2 && params.Object? then Norm(params) else Object([]),
                         Mode(c), Version(c), Version(c) == 2, Norm(api), name)
  }

  lemma ItemIsUnderstood(c: Value, toInt: Truncation)
    requires GoodItem(c)
    ensures NormalizeCommand(c).Some?
    ensures var command := ParseItem(Norm(NormalizeCommand(c).value), toInt);
            command.Some? && ItemUnderstood(c, command.value)
  {
    if GoodCall(c) {
      hide Lookup, Understood, ParseItem, NormalizeCommand;
      CallIsUnderstood(c, toInt);
    } else if FieldCall(c) {
      hide Lookup, ParseItem, NormalizeCommand, FlatArrays, NestedArrays;
      FieldIsUnderstood(c, toInt);
    } else if FlatCall(c) {
      hide Lookup, ParseItem, NormalizeCommand, FlatArrays, NestedArrays;
      FlatIsUnderstood(c, toInt);
    } else {
      hide Lookup, ParseItem, NormalizeCommand, FlatArrays, NestedArrays;
      NestedIsUnderstood(c, toInt);
    }
  }

  /** Every batch of such items within the depth limit reaches the server as one command
      per item, in order, each as the client meant it. */
  lemma ItemsAreUnderstood(batch: seq<Value>, toInt: Truncation)
    requires forall c <- batch :: GoodItem(c)
    requires NormalizeAll(batch).Some? ==>
               PlainItems(NormalizeAll(batch).value) && Depth(Array(NormalizeAll(batch).value)) <= MAX_DEPTH
    ensures NormalizeAll(batch).Some?
    ensures var parsed := ParseFrame(Text(Array(NormalizeAll(batch).value)), toInt);
            && parsed.Some?
            && |parsed.value| == |batch|
            && forall i :: 0 <= i < |batch| ==> ItemUnderstood(batch[i], parsed.value[i])
  {
    hide NormalizeCommand, NormalizeAll, Norm, NormItems, Text, Depth, ParseFrame, ParseItems, ParseItem;
    hide PlainItems, GoodItem, ItemUnderstood;
    NormalizeAllItems(batch);
    forall i | 0 <= i < |batch|
      ensures NormalizeCommand(batch[i]).Some?
      ensures var command := ParseItem(Norm(NormalizeCommand(batch[i]).value), toInt);
              command.Some? && ItemUnderstood(batch[i], command.value)
    {
      ItemIsUnderstood(batch[i], toInt);
    }
    var sent := NormalizeAll(batch).value;
    NormItemsLength(sent);
    BatchArrives(sent, toInt);
    AllOrNothing(NormItems(sent), toInt);
    var parsed := ParseFrame(Text(Array(sent)), toInt);
    assert parsed == ParseItems(NormItems(sent), toInt);
    forall i | 0 <= i < |batch|
      ensures NormItems(sent)[i] == Norm(NormalizeCommand(batch[i]).value)
    {
      assert Some(sent[i]) == NormalizeCommand(batch[i]);
    }
  }
}

/** The forms of a command object, one by one: when each is accepted and what every field
    of the command is, said with the members of the object alone. */
module Forms {
  import opened Bytes
  import opened Json
  import opened JsonGrammar
  import opened JsonParse
  import opened JsonLexical
  import opened Commands

  // ---------- numbers ----------

  /** The 32-bit number that agrees with n modulo 2^32. */
  predicate Wraps(r: int, n: int)
  {
    -0x8000_0000 <= r < 0x8000_0000 && (r - n) % 0x1_0000_0000 == 0
  }

  lemma WrapsIs(r: int, n: int)
    ensures Wraps(r, n) <==> r == ToInt32(n)
  {
    var k := (ToInt32(n) - n) / 0x1_0000_0000;
    var j := (r - n) / 0x1_0000_0000;
    if Wraps(r, n) {
      assert r - ToInt32(n) == 0x1_0000_0000 * (j - k);
    }
  }

  /** The mode of a command: a number, true as 1, anything else as 0. */
  predicate ModeIs(found: Option<Value>, mode: int, toInt: Truncation)
  {
    if found.None? then mode == 0
    else if found.value.Int? then Wraps(mode, found.value.n)
    else if found.value.Double? then Wraps(mode, toInt(found.value.literal))
    else mode == if found.value == Bool(true) then 1 else 0
  }

  /** The version of a command: a number or a text that spells one, 0 if there is none;
      no version fits a member of another kind. */
  predicate VersionIs(found: Option<Value>, ver: int, toInt: Truncation)
  {
    if found.None? then ver == 0
    else if found.value.Int? then Wraps(ver, found.value.n)
    else if found.value.Double? then Wraps(ver, toInt(found.value.literal))
    else found.value.String? && Wraps(ver, Strtol(found.value.s))
  }

  lemma ModeIsRead(obj: Value, mode: int, toInt: Truncation)
    ensures ModeIs(Find(obj, THREAD_MODE), mode, toInt) <==> mode == ToInt32(AsInt(Get(obj, THREAD_MODE), toInt))
  {
    hide FindMember;
    var found := Find(obj, THREAD_MODE);
    if found.Some? {
      WrapsIs(mode, AsInt(found.value, toInt));
    }
  }

  lemma VersionIsRead(obj: Value, ver: int, toInt: Truncation)
    ensures VersionIs(Find(obj, VER), ver, toInt) <==> ParseVer(obj, toInt) == Some(ver)
  {
    hide FindMember, Strtol;
    var found := Find(obj, VER);
    if found.Some? {
      WrapsIs(ver, AsInt(found.value, toInt));
      if found.value.String? {
        WrapsIs(ver, Strtol(found.value.s));
      }
    }
  }

  // ---------- text as a number ----------

  predicate AllBlank(s: Bytes)
  {
    forall i :: 0 <= i < |s| ==> s[i] in [9, 10, 11, 12, 13, 32]
  }

  lemma {:induction false} BlanksSkipped(blanks: Bytes, s: Bytes)
    requires AllBlank(blanks) && (s == [] || s[0] !in [9, 10, 11, 12, 13, 32])
    ensures SkipCSpace(blanks + s) == s
  {
    if blanks == [] {
      assert blanks + s == s;
    } else {
      assert (blanks + s)[1..] == blanks[1..] + s;
      BlanksSkipped(blanks[1..], s);
    }
  }

  function Clamped(n: int): int
  {
    if n < -0x8000_0000_0000_0000 then -0x8000_0000_0000_0000
    else if n > 0x7FFF_FFFF_FFFF_FFFF then 0x7FFF_FFFF_FFFF_FFFF
    else n
  }

  /** A text is read as blanks, perhaps a sign, and digits, and what follows them does not
      matter; without digits it is 0, and what is too large is clamped to 64 bits. */
  lemma StrtolIs(blanks: Bytes, sign: Bytes, digits: Bytes, rest: Bytes)
    requires AllBlank(blanks) && sign in [[], [43], [45]] && AllDigits(digits)
    requires rest == [] || !IsDigit(rest[0])
    requires sign == digits == [] && rest != [] ==> rest[0] !in [9, 10, 11, 12, 13, 32, 43, 45]
    ensures Strtol(blanks + (sign + (digits + rest)))
         == Clamped(if sign == [45] then -DigitsValue(digits) else DigitsValue(digits))
  {
    hide Strtol, TakeDigits, DigitsValue;
    var t := sign + (digits + rest);
    assert digits == [] ==> digits + rest == rest;
    BlanksSkipped(blanks, t);
    hide SkipCSpace;
    TakeDigitsAppend(digits, rest);
    TakeAllDigits(digits);
    var n := if t != [] && (t[0] == MINUS || t[0] == 43) then 1 else 0;
    assert n == |sign| && t[n..] == digits + rest;
    StrtolFrom(blanks + t, t, n);
  }

  lemma StrtolFrom(s: Bytes, t: Bytes, n: nat)
    requires SkipCSpace(s) == t && n == if t != [] && (t[0] == MINUS || t[0] == 43) then 1 else 0
    ensures Strtol(s) == Clamped(IntValue(n == 1 && t[0] == MINUS, TakeDigits(t[n..])))
  {
    hide SkipCSpace, TakeDigits, IntValue;
  }

  // ---------- the forms ----------

  /** All three absent, or all three arrays of one length. */
  predicate EquallyLong(a: Option<Value>, b: Option<Value>, c: Option<Value>)
  {
    || (a.None? && b.None? && c.None?)
    || (a.Some? && a.value.Array? && b.Some? && b.value.Array? && c.Some? && c.value.Array?
        && |a.value.items| == |b.value.items| && |b.value.items| == |c.value.items|)
  }

  lemma ArraysAre(host: Value)
    ensures ParamArraysOk(host, false)
         == EquallyLong(Find(host, FLAT_NAME), Find(host, FLAT_TYPE), Find(host, FLAT_VALUE))
    ensures ParamArraysOk(host, true)
         == EquallyLong(Find(host, PARAM_NAME), Find(host, PARAM_TYPE), Find(host, PARAM_VALUE))
  {
    hide Find;
  }

  /** A field command: any object with the member `field`, which must be a text. */
  lemma FieldForm(obj: Value, toInt: Truncation)
    requires obj.Object? && Find(obj, FIELD).Some?
    ensures var r, field := ParseItem(obj, toInt), Find(obj, FIELD).value;
            && r.Some? == (field.String?
                           && EquallyLong(Find(obj, FLAT_NAME), Find(obj, FLAT_TYPE), Find(obj, FLAT_VALUE)))
            && (r.Some? ==>
                  var c := r.value;
                  && c.cmdType == CmdType.Field && c.apiName == c.commandName == field.s
                  && ModeIs(Find(obj, THREAD_MODE), c.threadMode, toInt) && c.ver == 0 && !c.isVer2
                  && c.params == Object([]) && c.apiRaw == obj)
  {
    ArraysAre(obj);
    hide FindMember, ParamArraysOk, ToInt32, AsInt;
    if ParseItem(obj, toInt).Some? {
      ModeIsRead(obj, ParseItem(obj, toInt).value.threadMode, toInt);
    }
  }

  /** The flat form: the member `api` is a text, and the three arrays stand beside it. */
  lemma FlatForm(obj: Value, toInt: Truncation)
    requires obj.Object? && Find(obj, FIELD).None? && Find(obj, API).Some? && Find(obj, API).value.String?
    ensures var r, api := ParseItem(obj, toInt), Find(obj, API).value;
            && r.Some? == ((exists ver :: VersionIs(Find(obj, VER), ver, toInt))
                           && EquallyLong(Find(obj, FLAT_NAME), Find(obj, FLAT_TYPE), Find(obj, FLAT_VALUE)))
            && (r.Some? ==>
                  var c := r.value;
                  && c.cmdType == CmdType.Method && c.apiName == c.commandName == api.s
                  && ModeIs(Find(obj, THREAD_MODE), c.threadMode, toInt)
                  && VersionIs(Find(obj, VER), c.ver, toInt) && c.isVer2 == (c.ver == 2)
                  && c.params == Object([]) && c.apiRaw == api)
  {
    ArraysAre(obj);
    VersionExists(obj, toInt);
    hide FindMember, ParamArraysOk, ToInt32, AsInt, ParseVer, ModeIs, VersionIs;
    if ParseItem(obj, toInt).Some? {
      ModeIsRead(obj, ParseItem(obj, toInt).value.threadMode, toInt);
      VersionIsRead(obj, ParseItem(obj, toInt).value.ver, toInt);
    }
  }

  lemma VersionExists(obj: Value, toInt: Truncation)
    ensures (exists ver :: VersionIs(Find(obj, VER), ver, toInt)) <==> ParseVer(obj, toInt).Some?
  {
    hide VersionIs, ParseVer, Find;
    if ParseVer(obj, toInt).Some? {
      VersionIsRead(obj, ParseVer(obj, toInt).value, toInt);
    }
    forall ver: int | VersionIs(Find(obj, VER), ver, toInt)
      ensures ParseVer(obj, toInt).Some?
    {
      VersionIsRead(obj, ver, toInt);
    }
  }

  /** The nested form: the member `api` is an object with a name. Version 2 takes its
      params, if they are an object; any other version needs its three arrays. */
  lemma NestedForm(obj: Value, ver: int, toInt: Truncation)
    requires obj.Object? && Find(obj, FIELD).None? && Find(obj, API).Some? && Find(obj, API).value.Object?
    requires VersionIs(Find(obj, VER), ver, toInt)
    ensures var r, api := ParseItem(obj, toInt), Find(obj, API).value;
            var name, params := Find(api, API_NAME), Find(api, PARAMS);
            && r.Some? == (name.Some? && name.value.String? && name.value.s != []
                           && (ver == 2 || EquallyLong(Find(api, PARAM_NAME), Find(api, PARAM_TYPE),
                                                       Find(api, PARAM_VALUE))))
            && (r.Some? ==>
                  var c := r.value;
                  && c.cmdType == CmdType.Method && c.apiName == c.commandName == name.value.s
                  && ModeIs(Find(obj, THREAD_MODE), c.threadMode, toInt)
                  && c.ver == ver && c.isVer2 == (ver == 2) && c.apiRaw == api
                  && c.params == if ver == 2 && params.Some? && params.value.Object? then params.value else Object([]))
  {
    ArraysAre(Find(obj, API).value);
    VersionIsRead(obj, ver, toInt);
    hide FindMember, ParamArraysOk, ToInt32, AsInt, ParseVer, ModeIs, VersionIs;
    if ParseItem(obj, toInt).Some? {
      ModeIsRead(obj, ParseItem(obj, toInt).value.threadMode, toInt);
    }
  }

  /** Nothing else is a command: not an object, neither member, an `api` of another kind,
      or a version of another kind. */
  lemma NoOtherForm(obj: Value, toInt: Truncation)
    requires !obj.Object? || (Find(obj, FIELD).None?
               && (Find(obj, API).None? || !(Find(obj, API).value.String? || Find(obj, API).value.Object?)
                   || !exists ver :: VersionIs(Find(obj, VER), ver, toInt)))
    ensures ParseItem(obj, toInt).None?
  {
    VersionExists(obj, toInt);
    hide FindMember, ParamArraysOk, ToInt32, AsInt, ParseVer, VersionIs;
  }

  /** A frame is one object or an array; it is accepted when each of its elements is, and
      gives one command for each, in their order. A command is of version 2 exactly when it
      is a method command whose version is 2. */
  lemma FrameForm(payload: Bytes, toInt: Truncation)
    ensures var root := Parse(payload);
            var items := if root.Some? && root.value.Array? then root.value.items
                         else if root.Some? then [root.value] else [];
            var r := ParseFrame(payload, toInt);
            && r.Some? == (root.Some? && forall i :: 0 <= i < |items| ==> ParseItem(items[i], toInt).Some?)
            && (r.Some? ==>
                  && |r.value| == |items|
                  && forall i :: 0 <= i < |items| ==>
                       var c := r.value[i];
                       ParseItem(items[i], toInt) == Some(c)
                       && (c.isVer2 <==> c.cmdType == CmdType.Method && c.ver == 2))
  {
    hide ParseItem, ParseItems, ParseWithin;
    var root, r := Parse(payload), ParseFrame(payload, toInt);
    if root.Some? {
      var items := if root.value.Array? then root.value.items else [root.value];
      AllOrNothing(items, toInt);
      OneItem(root.value, toInt);
      assert r == ParseItems(items, toInt);
      forall i | 0 <= i < |items| && r.Some?
        ensures r.value[i].isVer2 <==> r.value[i].cmdType == CmdType.Method && r.value[i].ver == 2
      {
        assert Some(r.value[i]) == ParseItem(items[i], toInt);
        VersionTwo(items[i], toInt);
      }
    }
  }

  lemma OneItem(item: Value, toInt: Truncation)
    ensures var one := ParseItem(item, toInt);
            ParseItems([item], toInt) == if one.None? then None else Some([one.value])
  {
    hide ParseItem;
    var one := ParseItem(item, toInt);
    assert [item][1..] == [] && ParseItems([], toInt) == Some([]);
    if one.Some? {
      assert [one.value] + [] == [one.value];
    }
  }

  lemma VersionTwo(obj: Value, toInt: Truncation)
    ensures var r := ParseItem(obj, toInt);
            r.Some? ==> (r.value.isVer2 <==> r.value.cmdType == CmdType.Method && r.value.ver == 2)
  {
    hide FindMember, ParamArraysOk, ToInt32, AsInt, ParseVer;
  }
}

/** The serializer writes nothing that could be left out: among all spellings of a value
    its text is a shortest one. */
module JsonShortest {
  import opened Bytes
  import opened Json
  import opened JsonGrammar
  import opened JsonParse
  import opened JsonSound
  import opened JsonText

  /** The length of the text of any value; a double is as long as its literal. */
  function Length(v: Value): nat
  {
    match v
    case Null => 4
    case Bool(b) => if b then 4 else 5
    case Int(n) => |IntText(n)|
    case Double(literal) => |literal|
    case String(s) => |StringText(s)|
    case Array(items) => 2 + ItemsLength(items)
    case Object(members) => 2 + MembersLength(members)
  }

  /** Each item with a comma, except that the last has none. */
  function ItemsLength(items: seq<Value>): nat
  {
    if items == [] then 0
    else Length(items[0]) + (if |items| == 1 then 0 else 1 + ItemsLength(items[1..]))
  }

  function MembersLength(members: seq<Member>): nat
  {
    if members == [] then 0
    else
      |StringText(members[0].key)| + 1 + Length(members[0].value)
      + (if |members| == 1 then 0 else 1 + MembersLength(members[1..]))
  }

  lemma {:induction false} LengthIs(v: Value)
    requires Plain(v)
    ensures Length(v) == |Text(v)|
    decreases v, 1
  {
    match v
    case Array(items) => ItemsLengthIs(items);
    case Object(members) => MembersLengthIs(members);
    case _ =>
  }

  lemma {:induction false} ItemsLengthIs(items: seq<Value>)
    requires PlainItems(items)
    ensures |ItemsText(items, false)| == ItemsLength(items)
    ensures |ItemsText(items, true)| == if items == [] then 0 else 1 + ItemsLength(items)
    decreases items, 0
  {
    if items != [] {
      LengthIs(items[0]);
      ItemsLengthIs(items[1..]);
      hide Text, Length, Plain;
    }
  }

  lemma {:induction false} MembersLengthIs(members: seq<Member>)
    requires PlainMembers(members)
    ensures |MembersText(members, false)| == MembersLength(members)
    ensures |MembersText(members, true)| == if members == [] then 0 else 1 + MembersLength(members)
    decreases members, 0
  {
    if members != [] {
      LengthIs(members[0].value);
      MembersLengthIs(members[1..]);
      hide Text, Length, Plain, StringText;
    }
  }

  // ---------- strings and numbers ----------

  lemma {:induction false} EscapedAppend(s: Bytes, t: Bytes)
    ensures EscapedText(s + t) == EscapedText(s) + EscapedText(t)
  {
    hide EscapeText;
    if s == [] {
      assert s + t == t;
    } else {
      assert (s + t)[1..] == s[1..] + t;
      EscapedAppend(s[1..], t);
    }
  }

  /** Bytes from 0x80 on are written as they are. */
  lemma {:induction false} HighBytes(s: Bytes)
    requires forall i :: 0 <= i < |s| ==> s[i] >= 0x80
    ensures EscapedText(s) == s
  {
    if s != [] {
      HighBytes(s[1..]);
    }
  }

  lemma CharShortest(c: Char)
    requires CharOk(c)
    ensures |EscapedText(CharBytes(c))| <= |RenderChar(c)|
  {
    hide AllHex, HexValue;
    var bytes := CharBytes(c);
    if |bytes| == 1 {
      assert bytes[1..] == [];
    } else {
      HighBytes(bytes);
    }
  }

  lemma {:induction false} CharsShortest(cs: seq<Char>)
    requires CharsOk(cs)
    ensures |EscapedText(CharsBytes(cs))| <= |RenderChars(cs)|
  {
    hide CharOk, CharBytes, RenderChar, EscapeText;
    if cs != [] {
      CharShortest(cs[0]);
      CharsShortest(cs[1..]);
      EscapedAppend(CharBytes(cs[0]), CharsBytes(cs[1..]));
    }
  }

  lemma {:induction false} DigitsShortest(ds: Bytes)
    requires ds != [] && AllDigits(ds)
    ensures DigitsValue(ds) >= 0 && |Digits(DigitsValue(ds))| <= |ds|
    decreases |ds|
  {
    var front, last := ds[..|ds| - 1], ds[|ds| - 1];
    assert ds == front + [last];
    SplitDigits(front, last);
    DigitsFromAppend(0, front, last);
    if front != [] {
      DigitsShortest(front);
    }
  }

  lemma {:induction false} SplitDigits(front: Bytes, last: Byte)
    requires AllDigits(front + [last])
    ensures AllDigits(front) && IsDigit(last)
  {
    if front != [] {
      assert (front + [last])[1..] == front[1..] + [last];
      SplitDigits(front[1..], last);
    } else {
      assert front + [last] == [last];
    }
  }

  lemma NumberShortest(negative: bool, digits: Bytes)
    requires digits != [] && AllDigits(digits)
    ensures |IntText(IntValue(negative, digits))| <= |digits| + if negative then 1 else 0
  {
    DigitsShortest(digits);
    hide Digits, DigitsFrom;
  }

  // ---------- member tables ----------

  /** Storing a member costs at most its own text and a comma. */
  lemma {:induction false} PutShortest(table: seq<Member>, key: Bytes, value: Value)
    ensures var one := |StringText(key)| + 1 + Length(value);
            MembersLength(Put(table, key, value)) <= one + if table == [] then 0 else 1 + MembersLength(table)
  {
    PutCases(table, key, value);
    hide Length, StringText, Put, Less;
    if table != [] {
      PutShortest(table[1..], key, value);
    }
  }

  // ---------- trees ----------

  lemma {:induction false} TreeShortest(t: Tree, k: Bytes)
    requires TreeOk(t)
    ensures Length(TreeValue(t)) + |k| <= |WriteTree(t, k)|
    decreases t, 1
  {
    match t
    case TInt(negative, digits) => NumberShortest(negative, digits);
    case TString(chars) => CharsShortest(chars);
    case TArray(pad, elems) => ElemsShortest(elems, [CLOSE_BRACKET] + k);
    case TObject(pad, fields) => FieldsShortest([], fields, [CLOSE_BRACE] + k);
    case _ =>
  }

  lemma {:induction false} ElemsShortest(elems: seq<Elem>, k: Bytes)
    requires ElemsOk(elems)
    ensures ItemsLength(ElemValues(elems)) + |k| <= |WriteElems(elems, k)|
    decreases elems, 0
  {
    if elems != [] {
      var e := elems[0];
      var next := if |elems| == 1 then k else [COMMA] + WriteElems(elems[1..], k);
      TreeShortest(e.tree, e.after + next);
      ElemsShortest(elems[1..], k);
      hide TreeValue, WriteTree, Length, TreeOk;
      var vs := ElemValues(elems);
      assert vs[1..] == ElemValues(elems[1..]);
    }
  }

  lemma {:induction false} FieldsShortest(table: seq<Member>, fields: seq<Field>, k: Bytes)
    requires FieldsOk(fields)
    ensures MembersLength(StoreFields(table, fields)) + |k|
         <= MembersLength(table) + (if table == [] || fields == [] then 0 else 1) + |WriteFields(fields, k)|
    decreases fields, 0
  {
    if fields != [] {
      var f := fields[0];
      assert FieldOk(f);
      var key, value := CharsBytes(f.key), TreeValue(f.tree);
      var next := if |fields| == 1 then k else [COMMA] + WriteFields(fields[1..], k);
      TreeShortest(f.tree, f.after + next);
      CharsShortest(f.key);
      PutShortest(table, key, value);
      FieldsShortest(Put(table, key, value), fields[1..], k);
      hide TreeValue, WriteTree, Length, TreeOk, Put, CharsBytes, RenderChars, EscapedText, CharsOk, MembersLength;
    }
  }

  /** No text that parses to a value is shorter than the text the serializer writes. */
  lemma TextIsShortest(text: Bytes)
    requires Parse(text).Some? && Plain(Parse(text).value)
    ensures |Text(Parse(text).value)| <= |text|
  {
    hide ParseWithin, Plain, Text, TreeValue, TreeOk, WriteTree, Length;
    var d := DocSound(text, MAX_DEPTH);
    TreeShortest(d.tree, d.after);
    LengthIs(TreeValue(d.tree));
  }
}

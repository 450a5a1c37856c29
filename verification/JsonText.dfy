/** The compact serializer, and the round trips between values and texts. */
module JsonText {
  import opened Bytes
  import opened Json
  import opened JsonGrammar
  import opened JsonParse
  import opened JsonLexical
  import opened JsonComplete
  import opened JsonSound

  // ---------- the serializer ----------

  function HexChar(d: nat): (b: Byte)
    requires d < 16
    ensures IsHex(b) && HexDigit(b) == d
  {
    if d < 10 then 48 + d else 87 + d
  }

  /** A byte inside a string literal. Bytes from 0x80 on pass through. */
  function EscapeText(b: Byte): Bytes
  {
    if b == QUOTE || b == BACKSLASH then [BACKSLASH, b]
    else if b == 8 then [BACKSLASH, 98]
    else if b == 12 then [BACKSLASH, 102]
    else if b == 10 then [BACKSLASH, 110]
    else if b == 13 then [BACKSLASH, 114]
    else if b == 9 then [BACKSLASH, 116]
    else if b < 32 then [BACKSLASH, LETTER_U, ZERO, ZERO, HexChar(b / 16), HexChar(b % 16)]
    else [b]
  }

  function EscapedText(s: Bytes): Bytes
  {
    if s == [] then [] else EscapeText(s[0]) + EscapedText(s[1..])
  }

  function StringText(s: Bytes): Bytes
  {
    [QUOTE] + EscapedText(s) + [QUOTE]
  }

  function Digits(n: nat): Bytes
  {
    if n < 10 then [48 + n] else Digits(n / 10) + [48 + n % 10]
  }

  function IntText(n: int): Bytes
  {
    if n < 0 then [MINUS] + Digits(-n) else Digits(n)
  }

  function Text(v: Value): Bytes
    requires Plain(v)
  {
    match v
    case Null => NULL_TEXT
    case Bool(b) => if b then TRUE_TEXT else FALSE_TEXT
    case Int(n) => IntText(n)
    case String(s) => StringText(s)
    case Array(items) => [OPEN_BRACKET] + (ItemsText(items, false) + [CLOSE_BRACKET])
    case Object(members) => [OPEN_BRACE] + (MembersText(members, false) + [CLOSE_BRACE])
  }

  function Comma(later: bool): Bytes
  {
    if later then [COMMA] else []
  }

  /** The elements from here on; all but the first have a comma in front. */
  function ItemsText(items: seq<Value>, later: bool): Bytes
    requires PlainItems(items)
  {
    if items == [] then []
    else Comma(later) + (Text(items[0]) + ItemsText(items[1..], true))
  }

  function MembersText(members: seq<Member>, later: bool): Bytes
    requires PlainMembers(members)
  {
    if members == [] then []
    else Comma(later) + (MemberText(members[0]) + MembersText(members[1..], true))
  }

  function MemberText(m: Member): Bytes
    requires Plain(m.value)
  {
    StringText(m.key) + ([COLON] + Text(m.value))
  }

  // ---------- the tree behind a compact text ----------

  function CharOf(b: Byte): Char
  {
    if b == QUOTE || b == BACKSLASH then Escaped(b)
    else if b == 8 then Escaped(98)
    else if b == 12 then Escaped(102)
    else if b == 10 then Escaped(110)
    else if b == 13 then Escaped(114)
    else if b == 9 then Escaped(116)
    else if b < 32 then Unit([ZERO, ZERO, HexChar(b / 16), HexChar(b % 16)])
    else Raw(b)
  }

  function CharsOf(s: Bytes): seq<Char>
  {
    if s == [] then [] else [CharOf(s[0])] + CharsOf(s[1..])
  }

  function TreeOf(v: Value): Tree
    requires Plain(v)
  {
    match v
    case Null => TNull
    case Bool(b) => TBool(b)
    case Int(n) => TInt(n < 0, Digits(if n < 0 then -n else n))
    case String(s) => TString(CharsOf(s))
    case Array(items) => TArray([], ElemsOf(items))
    case Object(members) => TObject([], FieldsOf(members))
  }

  function ElemsOf(items: seq<Value>): (elems: seq<Elem>)
    requires PlainItems(items)
    ensures |elems| == |items|
  {
    if items == [] then [] else [Elem([], TreeOf(items[0]), [])] + ElemsOf(items[1..])
  }

  function FieldsOf(members: seq<Member>): (fields: seq<Field>)
    requires PlainMembers(members)
    ensures |fields| == |members|
  {
    if members == [] then []
    else [Field([], CharsOf(members[0].key), [], [], TreeOf(members[0].value), [])] + FieldsOf(members[1..])
  }

  lemma {:induction false} DigitsFromAppend(n: int, a: Bytes, d: Byte)
    requires AllDigits(a) && IsDigit(d)
    ensures AllDigits(a + [d]) && DigitsFrom(n, a + [d]) == DigitsFrom(n, a) * 10 + (d as int - 48)
    decreases a
  {
    if a == [] {
      assert a + [d] == [d];
    } else {
      assert (a + [d])[1..] == a[1..] + [d];
      DigitsFromAppend(n * 10 + (a[0] as int - 48), a[1..], d);
    }
  }

  lemma {:induction false} DigitsRoundTrip(n: nat)
    ensures Digits(n) != [] && AllDigits(Digits(n)) && DigitsValue(Digits(n)) == n
  {
    if n >= 10 {
      DigitsRoundTrip(n / 10);
      DigitsFromAppend(0, Digits(n / 10), 48 + n % 10);
    } else {
      var d: Byte := 48 + n;
      assert DigitsFrom(0, [d]) == DigitsFrom(n, [d][1..]);
    }
  }

  /** Four hexadecimal digits of which the first two are zero. */
  lemma ControlHex(high: nat, low: nat)
    requires high < 16 && low < 16
    ensures var hex := [ZERO, ZERO, HexChar(high), HexChar(low)];
            AllHex(hex) && HexValue(hex) == high * 16 + low
  {
    var h1: Bytes := [ZERO];
    var h2: Bytes := [ZERO, ZERO];
    var h3: Bytes := [ZERO, ZERO, HexChar(high)];
    var hex: Bytes := [ZERO, ZERO, HexChar(high), HexChar(low)];
    assert h1[..0] == [] && h2[..1] == h1 && h3[..2] == h2 && hex[..3] == h3;
    assert AllHex(h1) && HexValue(h1) == 0;
    assert AllHex(h2) && HexValue(h2) == 0;
    assert AllHex(h3) && HexValue(h3) == high;
  }

  lemma CharRoundTrip(b: Byte)
    ensures RenderChar(CharOf(b)) == EscapeText(b)
    ensures CharOk(CharOf(b)) && CharBytes(CharOf(b)) == [b]
  {
    if CharOf(b).Unit? {
      ControlHex(b / 16, b % 16);
    }
    hide AllHex, HexValue, HexChar;
  }

  lemma {:induction false} CharsRoundTrip(s: Bytes)
    ensures CharsOk(CharsOf(s)) && CharsBytes(CharsOf(s)) == s
    ensures RenderChars(CharsOf(s)) == EscapedText(s)
  {
    if s != [] {
      CharRoundTrip(s[0]);
      CharsRoundTrip(s[1..]);
      hide CharOk, CharBytes, RenderChar, EscapeText, CharOf;
      CharsCons(CharOf(s[0]), CharsOf(s[1..]));
      assert s == [s[0]] + s[1..];
    }
  }

  lemma QuotedText(s: Bytes, k: Bytes)
    ensures WriteQuoted(CharsOf(s), k) == StringText(s) + k
  {
    hide CharsOf, EscapedText, RenderChars;
    CharsRoundTrip(s);
  }

  lemma CompactElems(items: seq<Value>, k: Bytes)
    requires PlainItems(items) && items != []
    ensures WriteElems(ElemsOf(items), k)
         == WriteTree(TreeOf(items[0]), if |items| == 1 then k else [COMMA] + WriteElems(ElemsOf(items[1..]), k))
  {
    hide WriteTree, TreeOf, Plain;
    var next := if |items| == 1 then k else [COMMA] + WriteElems(ElemsOf(items[1..]), k);
    assert ElemsOf(items)[1..] == ElemsOf(items[1..]);
    assert [] + next == next;
    assert [] + WriteTree(TreeOf(items[0]), next) == WriteTree(TreeOf(items[0]), next);
  }

  lemma CompactFields(members: seq<Member>, k: Bytes)
    requires PlainMembers(members) && members != []
    ensures WriteFields(FieldsOf(members), k)
         == WriteQuoted(CharsOf(members[0].key), [COLON] + WriteTree(TreeOf(members[0].value),
              if |members| == 1 then k else [COMMA] + WriteFields(FieldsOf(members[1..]), k)))
  {
    hide WriteTree, TreeOf, Plain, WriteQuoted, CharsOf;
    var next := if |members| == 1 then k else [COMMA] + WriteFields(FieldsOf(members[1..]), k);
    var value := WriteTree(TreeOf(members[0].value), next);
    assert FieldsOf(members)[1..] == FieldsOf(members[1..]);
    assert [] + next == next && [] + value == value && [] + ([COLON] + value) == [COLON] + value;
    var quoted := WriteQuoted(CharsOf(members[0].key), [COLON] + value);
    assert [] + quoted == quoted;
  }

  /** The compact text of a value is one of its spellings. */
  lemma {:induction false} TreeOfText(v: Value, k: Bytes)
    requires Plain(v)
    ensures WriteTree(TreeOf(v), k) == Text(v) + k
    decreases v, 1
  {
    match v
    case Array(items) =>
      hide ElemsOf, WriteElems, ItemsText, PlainItems;
      ElemsOfText(items, [CLOSE_BRACKET] + k);
      Associate(ItemsText(items, false), [CLOSE_BRACKET], k);
      Associate([OPEN_BRACKET], ItemsText(items, false) + [CLOSE_BRACKET], k);
      assert [] + (ItemsText(items, false) + ([CLOSE_BRACKET] + k)) == ItemsText(items, false) + ([CLOSE_BRACKET] + k);
    case Object(members) =>
      hide FieldsOf, WriteFields, MembersText, PlainMembers;
      FieldsOfText(members, [CLOSE_BRACE] + k);
      Associate(MembersText(members, false), [CLOSE_BRACE], k);
      Associate([OPEN_BRACE], MembersText(members, false) + [CLOSE_BRACE], k);
      var inside := MembersText(members, false) + ([CLOSE_BRACE] + k);
      assert [] + inside == inside;
    case String(s) => QuotedText(s, k);
    case _ =>
  }

  lemma LaterItems(items: seq<Value>)
    requires PlainItems(items)
    ensures ItemsText(items, true) == (if items == [] then [] else [COMMA] + ItemsText(items, false))
  {
    hide Text;
    if items != [] {
      var first := Text(items[0]) + ItemsText(items[1..], true);
      assert [] + first == first;
    }
  }

  lemma LaterMembers(members: seq<Member>)
    requires PlainMembers(members)
    ensures MembersText(members, true) == (if members == [] then [] else [COMMA] + MembersText(members, false))
  {
    hide MemberText;
    if members != [] {
      var first := MemberText(members[0]) + MembersText(members[1..], true);
      assert [] + first == first;
    }
  }

  lemma {:induction false} ElemsOfText(items: seq<Value>, k: Bytes)
    requires PlainItems(items)
    ensures WriteElems(ElemsOf(items), k) == ItemsText(items, false) + k
    decreases items, 0
  {
    if items == [] {
      assert ItemsText(items, false) + k == k;
    } else {
      var tail := items[1..];
      var next := if |items| == 1 then k else [COMMA] + WriteElems(ElemsOf(tail), k);
      CompactElems(items, k);
      TreeOfText(items[0], next);
      ElemsOfText(tail, k);
      LaterItems(tail);
      var first, rest := Text(items[0]), ItemsText(tail, true);
      assert ItemsText(items, false) == Comma(false) + (first + rest) == first + rest;
      hide WriteTree, Text, TreeOf, Plain, ElemsOf, WriteElems, ItemsText, PlainItems;
      Associate(first, rest, k);
      if tail == [] {
        assert [] + k == k;
      } else {
        Associate([COMMA], ItemsText(tail, false), k);
      }
    }
  }

  lemma {:induction false} FieldsOfText(members: seq<Member>, k: Bytes)
    requires PlainMembers(members)
    ensures WriteFields(FieldsOf(members), k) == MembersText(members, false) + k
    decreases members, 0
  {
    if members == [] {
      assert MembersText(members, false) + k == k;
    } else {
      var m, tail := members[0], members[1..];
      var next := if |members| == 1 then k else [COMMA] + WriteFields(FieldsOf(tail), k);
      CompactFields(members, k);
      TreeOfText(m.value, next);
      QuotedText(m.key, [COLON] + (Text(m.value) + next));
      FieldsOfText(tail, k);
      LaterMembers(tail);
      var first, rest := MemberText(m), MembersText(tail, true);
      assert MembersText(members, false) == Comma(false) + (first + rest) == first + rest;
      hide WriteTree, TreeOf, FieldsOf, WriteFields, WriteQuoted, CharsOf;
      hide Text, MembersText, StringText, Plain, PlainMembers;
      Associate(first, rest, k);
      Associate(StringText(m.key), [COLON] + Text(m.value), next);
      Associate([COLON], Text(m.value), next);
      if tail == [] {
        assert [] + k == k;
      } else {
        Associate([COMMA], MembersText(tail, false), k);
      }
    }
  }

  lemma {:induction false} TreeOfIsOk(v: Value)
    requires Plain(v)
    ensures TreeOk(TreeOf(v)) && TreeValue(TreeOf(v)) == Norm(v) && TreeDepth(TreeOf(v)) == Depth(v)
    decreases v, 1
  {
    match v
    case Null =>
    case Bool(b) =>
    case Int(n) => DigitsRoundTrip(if n < 0 then -n else n);
    case String(s) => CharsRoundTrip(s);
    case Array(items) => ElemsOfIsOk(items);
    case Object(members) => FieldsOfIsOk([], members);
  }

  lemma {:induction false} ElemsOfIsOk(items: seq<Value>)
    requires PlainItems(items)
    ensures ElemsOk(ElemsOf(items)) && ElemValues(ElemsOf(items)) == NormItems(items)
    ensures ElemsDepth(ElemsOf(items)) == ItemsDepth(items)
    decreases items, 0
  {
    if items != [] {
      TreeOfIsOk(items[0]);
      ElemsOfIsOk(items[1..]);
      assert ElemsOf(items)[1..] == ElemsOf(items[1..]);
    }
  }

  lemma {:induction false} FieldsOfIsOk(table: seq<Member>, members: seq<Member>)
    requires PlainMembers(members)
    ensures FieldsOk(FieldsOf(members)) && StoreFields(table, FieldsOf(members)) == NormMembers(table, members)
    ensures FieldsDepth(FieldsOf(members)) == MembersDepth(members)
    decreases members, 0
  {
    if members != [] {
      var m := members[0];
      TreeOfIsOk(m.value);
      CharsRoundTrip(m.key);
      hide Put, CharsOk, CharsBytes, CharsOf, TreeOk, TreeOf, TreeValue, TreeDepth;
      FieldsOfIsOk(Put(table, m.key, Norm(m.value)), members[1..]);
      assert FieldsOf(members)[1..] == FieldsOf(members[1..]);
      assert FieldOk(FieldsOf(members)[0]);
    }
  }

  // ---------- round trips ----------

  /** Reading back what was written: the value in C++ form when it is nested within
      the limit, a refusal otherwise. */
  lemma ParseTextWithin(v: Value, limit: nat)
    requires Plain(v)
    ensures ParseWithin(Text(v), limit) == if Depth(v) <= limit then Some(Norm(v)) else None
  {
    hide TreeOk, TreeOf, TreeValue, TreeDepth, WriteTree, Text, ParseWithin, Norm, Depth, Plain;
    TreeOfIsOk(v);
    TreeOfText(v, []);
    var d := Doc([], TreeOf(v), []);
    assert RenderDoc(d) == Text(v);
    DocComplete(d, limit);
  }

  /** Parsing the serialization of a C++ value gives that very value back exactly when
      it is nested at most 200 deep, and fails otherwise. */
  lemma ParseText(v: Value)
    requires Plain(v) && Sorted(v)
    ensures Parse(Text(v)) == if Depth(v) <= MAX_DEPTH then Some(v) else None
  {
    hide Text, ParseWithin, Norm, Depth, Plain, Sorted;
    ParseTextWithin(v, MAX_DEPTH);
    NormOfSorted(v);
  }

  /** Equal texts mean equal values, at any depth. */
  lemma TextIsInjective(v: Value, w: Value)
    requires Plain(v) && Sorted(v) && Plain(w) && Sorted(w)
    ensures Text(v) == Text(w) <==> v == w
  {
    hide Text, ParseWithin, Norm, Depth, Plain, Sorted;
    if Text(v) == Text(w) {
      var limit := Max(Depth(v), Depth(w));
      ParseTextWithin(v, limit);
      ParseTextWithin(w, limit);
      NormOfSorted(v);
      NormOfSorted(w);
    }
  }

  lemma {:induction false} TreeValueForm(t: Tree)
    requires TreeOk(t)
    ensures Sorted(TreeValue(t)) && Depth(TreeValue(t)) <= TreeDepth(t)
    decreases t, 1
  {
    match t
    case TArray(_, elems) => ElemValuesForm(elems);
    case TObject(_, fields) => StoreFieldsForm([], fields);
    case _ =>
  }

  lemma {:induction false} ElemValuesForm(elems: seq<Elem>)
    requires ElemsOk(elems)
    ensures SortedItems(ElemValues(elems)) && ItemsDepth(ElemValues(elems)) <= ElemsDepth(elems)
    decreases elems, 0
  {
    if elems != [] {
      TreeValueForm(elems[0].tree);
      ElemValuesForm(elems[1..]);
      assert ElemValues(elems)[1..] == ElemValues(elems[1..]);
    }
  }

  lemma {:induction false} StoreFieldsForm(table: seq<Member>, fields: seq<Field>)
    requires FieldsOk(fields) && SortedKeys(table) && SortedMembers(table)
    ensures var r := StoreFields(table, fields);
            && SortedKeys(r) && SortedMembers(r)
            && MembersDepth(r) <= Max(MembersDepth(table), FieldsDepth(fields))
    decreases fields, 0
  {
    if fields != [] {
      assert FieldOk(fields[0]);
      hide Put, SortedKeys, Sorted, CharsOk, CharsBytes, TreeOk, TreeValue, TreeDepth;
      var key, value := CharsBytes(fields[0].key), TreeValue(fields[0].tree);
      TreeValueForm(fields[0].tree);
      PutKeepsOrder(table, key, value);
      PutKeeps(table, key, value);
      StoreFieldsForm(Put(table, key, value), fields[1..]);
    }
  }

  /** The members an object spelling lists, as they are written. */
  function Listed(fields: seq<Field>): seq<Member>
    requires FieldsOk(fields)
  {
    if fields == [] then []
    else
      assert FieldOk(fields[0]);
      [Member(CharsBytes(fields[0].key), TreeValue(fields[0].tree))] + Listed(fields[1..])
  }

  lemma {:induction false} StoredIsLastWins(table: seq<Member>, fields: seq<Field>)
    requires FieldsOk(fields) && SortedKeys(table)
    ensures SortedKeys(StoreFields(table, fields))
    ensures AsMap(StoreFields(table, fields)) == AsMap(table) + AsMap(Listed(fields))
    decreases fields
  {
    if fields == [] {
      AsMapEmpty();
      assert AsMap(table) + map[] == AsMap(table);
    } else {
      ListedStep(fields);
      hide Put, SortedKeys, AsMap, CharsOk, CharsBytes, TreeOk, TreeValue, Listed;
      var key, value := CharsBytes(fields[0].key), TreeValue(fields[0].tree);
      PutIsAssignment(table, key, value);
      StoredIsLastWins(Put(table, key, value), fields[1..]);
      AsMapCons(Member(key, value), Listed(fields[1..]));
      UpdateThenMerge(AsMap(table), key, value, AsMap(Listed(fields[1..])));
    }
  }

  lemma ListedStep(fields: seq<Field>)
    requires fields != [] && FieldsOk(fields)
    ensures FieldOk(fields[0]) && FieldsOk(fields[1..])
    ensures Listed(fields) == [Member(CharsBytes(fields[0].key), TreeValue(fields[0].tree))] + Listed(fields[1..])
  {
    hide CharsOk, CharsBytes, TreeOk, TreeValue;
  }

  lemma UpdateThenMerge(m: map<Bytes, Value>, key: Bytes, value: Value, later: map<Bytes, Value>)
    ensures m[key := value] + later == m + (map[key := value] + later)
  {
  }

  /** An object means the value written last under each key, and nothing else about its
      spelling matters: neither the order of the members nor repeated keys. */
  lemma ObjectMeaning(fields: seq<Field>, other: seq<Field>)
    requires FieldsOk(fields) && FieldsOk(other)
    ensures AsMap(StoreFields([], fields)) == AsMap(Listed(fields))
    ensures StoreFields([], fields) == StoreFields([], other) <==> AsMap(Listed(fields)) == AsMap(Listed(other))
  {
    hide AsMap, StoreFields, Listed, FieldsOk;
    AsMapEmpty();
    StoredIsLastWins([], fields);
    StoredIsLastWins([], other);
    if AsMap(Listed(fields)) == AsMap(Listed(other)) {
      SortedTableUnique(StoreFields([], fields), StoreFields([], other));
    }
  }

  /** Whatever parses is in C++ form, and serializing it gives the one canonical text
      of that value: two texts parse to the same value if and only if their canonical
      texts are the same, and a canonical text is its own. */
  lemma CanonicalText(text: Bytes, other: Bytes)
    requires Parse(text).Some? && Plain(Parse(text).value)
    requires Parse(other).Some? && Plain(Parse(other).value)
    ensures Sorted(Parse(text).value) && Depth(Parse(text).value) <= MAX_DEPTH
    ensures Parse(Text(Parse(text).value)) == Parse(text)
    ensures Text(Parse(text).value) == Text(Parse(other).value) <==> Parse(text) == Parse(other)
  {
    hide Text, ParseWithin, Norm, Depth, Plain, Sorted, TreeOk, TreeValue, TreeDepth;
    var c := DocSound(text, MAX_DEPTH);
    var d := DocSound(other, MAX_DEPTH);
    TreeValueForm(c.tree);
    TreeValueForm(d.tree);
    ParseText(Parse(text).value);
    TextIsInjective(Parse(text).value, Parse(other).value);
  }
}

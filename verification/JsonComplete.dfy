/** Everything the grammar writes is read back, exactly up to the nesting limit. */
module JsonComplete {
  import opened Bytes
  import opened Json
  import opened JsonGrammar
  import opened JsonParse
  import opened JsonLexical

  /** No text of a value starts with white space or with a closing bracket. */
  lemma WriteTreeStart(t: Tree, k: Bytes)
    requires TreeOk(t)
    ensures var s := WriteTree(t, k);
            s != [] && !IsSpace(s[0]) && s[0] != CLOSE_BRACKET && SkipSpace(s) == s
  {
    hide FloatLength, DigitsFrom, TakeDigits;
    match t
    case TInt(negative, digits) =>
    case _ =>
  }

  lemma SkipTwice(s: Bytes)
    ensures SkipSpace(SkipSpace(s)) == SkipSpace(s)
  {
  }

  lemma SkipNothing(c: Byte, rest: Bytes)
    requires !IsSpace(c)
    ensures SkipSpace([c] + rest) == [c] + rest
    ensures ([c] + rest)[1..] == rest
  {
  }

  lemma SpaceDelimits(ws: Bytes, c: Byte, rest: Bytes)
    requires AllSpace(ws) && (c == COMMA || c == CLOSE_BRACKET || c == CLOSE_BRACE)
    ensures Delimited(ws + ([c] + rest))
    ensures SkipSpace(ws + ([c] + rest)) == [c] + rest
  {
    SkipSpaceOver(ws, [c] + rest);
  }

  lemma ScalarComplete(t: Tree, rest: Bytes, budget: nat)
    requires TreeOk(t) && Delimited(rest) && !t.TArray? && !t.TObject?
    ensures ParseValue(WriteTree(t, rest), budget) == if budget >= 1 then Ok(TreeValue(t), rest) else Fail
  {
    hide FloatLength, DigitsFrom, TakeDigits, IsIntLiteral, CharsOk, CharsBytes, RenderChars;
    hide ParseString, ParseNumber, ParseElems, ParseFields;
    var s := WriteTree(t, rest);
    match t
    case TNull => assert s[..4] == NULL_TEXT && s[4..] == rest;
    case TBool(b) =>
      var n := if b then 4 else 5;
      assert s[..n] == (if b then TRUE_TEXT else FALSE_TEXT) && s[n..] == rest;
    case TInt(negative, digits) => IntComplete(negative, digits, rest);
    case TFloat(literal) => FloatComplete(literal, rest);
    case TString(chars) =>
      StringComplete(chars, rest);
      assert s[1..] == RenderChars(chars) + ([QUOTE] + rest);
  }

  lemma {:induction false} ValueComplete(t: Tree, rest: Bytes, budget: nat)
    requires TreeOk(t) && Delimited(rest)
    ensures ParseValue(WriteTree(t, rest), budget)
         == if TreeDepth(t) <= budget then Ok(TreeValue(t), rest) else Fail
    decreases t, 1
  {
    match t
    case TArray(pad, elems) => ArrayComplete(pad, elems, rest, budget);
    case TObject(pad, fields) => ObjectComplete(pad, fields, rest, budget);
    case _ => ScalarComplete(t, rest, budget);
  }

  lemma ParseArrayStep(s: Bytes, budget: nat)
    ensures ParseValue([OPEN_BRACKET] + s, budget) ==
              if budget == 0 then Fail
              else
                var u := SkipSpace(s);
                if u != [] && u[0] == CLOSE_BRACKET then Ok(Array([]), u[1..]) else ParseElems(u, budget - 1, [])
  {
    assert ([OPEN_BRACKET] + s)[1..] == s;
  }

  lemma ParseObjectStep(s: Bytes, budget: nat)
    ensures ParseValue([OPEN_BRACE] + s, budget) ==
              if budget == 0 then Fail
              else
                var u := SkipSpace(s);
                if u != [] && u[0] == CLOSE_BRACE then Ok(Object([]), u[1..]) else ParseFields(u, budget - 1, [])
  {
    assert ([OPEN_BRACE] + s)[1..] == s;
  }

  lemma {:induction false} ArrayComplete(pad: Bytes, elems: seq<Elem>, rest: Bytes, budget: nat)
    requires AllSpace(pad) && ElemsOk(elems)
    ensures ParseValue(WriteTree(TArray(pad, elems), rest), budget)
         == if 1 + ElemsDepth(elems) <= budget then Ok(Array(ElemValues(elems)), rest) else Fail
    decreases elems, 1
  {
    hide ParseValue, ParseElems, SkipSpace;
    var body := WriteElems(elems, [CLOSE_BRACKET] + rest);
    assert WriteTree(TArray(pad, elems), rest) == [OPEN_BRACKET] + (pad + body);
    ParseArrayStep(pad + body, budget);
    SkipSpaceOver(pad, body);
    if elems == [] {
      SkipNothing(CLOSE_BRACKET, rest);
    } else if budget >= 1 {
      ElemsComplete(elems, rest, budget - 1, []);
      ElemsStart(elems, [CLOSE_BRACKET] + rest);
      hide WriteTree, WriteElems, ElemsOk, ElemValues, ElemsDepth;
      SkipBeforeElems(body, budget - 1, []);
      assert [] + ElemValues(elems) == ElemValues(elems);
    }
  }

  lemma SkipBeforeElems(s: Bytes, budget: nat, items: seq<Value>)
    ensures ParseElems(SkipSpace(s), budget, items) == ParseElems(s, budget, items)
  {
    SkipTwice(s);
  }

  lemma ElemsStart(elems: seq<Elem>, k: Bytes)
    requires ElemsOk(elems) && elems != []
    ensures var s := SkipSpace(WriteElems(elems, k)); s != [] && s[0] != CLOSE_BRACKET
  {
    var e := elems[0];
    var next := e.after + if |elems| == 1 then k else [COMMA] + WriteElems(elems[1..], k);
    SkipSpaceOver(e.before, WriteTree(e.tree, next));
    WriteTreeStart(e.tree, next);
  }

  /** A value between white space, with a comma or a closing bracket after it. */
  lemma {:induction false} SpacedComplete(before: Bytes, t: Tree, after: Bytes, next: Bytes, budget: nat)
    requires AllSpace(before) && TreeOk(t) && AllSpace(after)
    requires next != [] && (next[0] == COMMA || next[0] == CLOSE_BRACKET || next[0] == CLOSE_BRACE)
    ensures SkipSpace(after + next) == next
    ensures ParseValue(SkipSpace(before + WriteTree(t, after + next)), budget)
         == if TreeDepth(t) <= budget then Ok(TreeValue(t), after + next) else Fail
    decreases t, 2
  {
    SpaceDelimits(after, next[0], next[1..]);
    assert next == [next[0]] + next[1..];
    WriteTreeStart(t, after + next);
    SkipSpaceOver(before, WriteTree(t, after + next));
    ValueComplete(t, after + next, budget);
  }

  lemma ParseElemsStep(s: Bytes, budget: nat, items: seq<Value>)
    ensures ParseElems(s, budget, items) ==
              var p := ParseValue(SkipSpace(s), budget);
              if p.Fail? then Fail
              else
                var r := SkipSpace(p.rest);
                if r == [] then Fail
                else if r[0] == COMMA then ParseElems(r[1..], budget, items + [p.value])
                else if r[0] == CLOSE_BRACKET then Ok(Array(items + [p.value]), r[1..])
                else Fail
  {
  }

  lemma ParseFieldsStep(s: Bytes, budget: nat, table: seq<Member>)
    ensures ParseKey(s).Fail? ==> ParseFields(s, budget, table) == Fail
    ensures ParseKey(s).Ok? ==>
              ParseFields(s, budget, table) ==
                var p := ParseValue(SkipSpace(ParseKey(s).rest), budget);
                if p.Fail? then Fail
                else
                  var r := SkipSpace(p.rest);
                  if r == [] then Fail
                  else if r[0] == COMMA then ParseFields(r[1..], budget, Put(table, ParseKey(s).value, p.value))
                  else if r[0] == CLOSE_BRACE then Ok(Object(Put(table, ParseKey(s).value, p.value)), r[1..])
                  else Fail
  {
  }

  lemma FirstElem(elems: seq<Elem>, k: Bytes)
    requires ElemsOk(elems) && elems != []
    ensures var e, tail := elems[0], elems[1..];
            && AllSpace(e.before) && TreeOk(e.tree) && AllSpace(e.after) && ElemsOk(tail)
            && ElemsDepth(elems) == Max(TreeDepth(e.tree), ElemsDepth(tail))
            && ElemValues(elems) == [TreeValue(e.tree)] + ElemValues(tail)
            && WriteElems(elems, k)
               == e.before + WriteTree(e.tree, e.after + if |elems| == 1 then k else [COMMA] + WriteElems(tail, k))
    ensures ElemsDepth([]) == 0 && ElemValues([]) == []
  {
    hide WriteTree, TreeOk, TreeValue, TreeDepth, AllSpace;
  }

  lemma {:induction false} ElemsComplete(elems: seq<Elem>, rest: Bytes, budget: nat, items: seq<Value>)
    requires ElemsOk(elems) && elems != []
    ensures ParseElems(WriteElems(elems, [CLOSE_BRACKET] + rest), budget, items)
         == if ElemsDepth(elems) <= budget then Ok(Array(items + ElemValues(elems)), rest) else Fail
    decreases elems, 0
  {
    var e := elems[0];
    var k := [CLOSE_BRACKET] + rest;
    var next := if |elems| == 1 then k else [COMMA] + WriteElems(elems[1..], k);
    FirstElem(elems, k);
    SpacedComplete(e.before, e.tree, e.after, next, budget);
    ParseElemsStep(WriteElems(elems, k), budget, items);
    hide WriteTree, TreeOk, TreeValue, TreeDepth, ParseValue, SkipSpace, ParseElems;
    hide ElemsOk, ElemsDepth, ElemValues, WriteElems, AllSpace;
    var more := items + [TreeValue(e.tree)];
    assert items + ([TreeValue(e.tree)] + ElemValues(elems[1..])) == more + ElemValues(elems[1..]);
    if |elems| == 1 {
      assert next[1..] == rest && elems[1..] == [] && more + [] == more;
    } else {
      assert next[1..] == WriteElems(elems[1..], k);
      ElemsComplete(elems[1..], rest, budget, more);
    }
  }

  lemma {:induction false} ObjectComplete(pad: Bytes, fields: seq<Field>, rest: Bytes, budget: nat)
    requires AllSpace(pad) && FieldsOk(fields)
    ensures ParseValue(WriteTree(TObject(pad, fields), rest), budget)
         == if 1 + FieldsDepth(fields) <= budget then Ok(Object(StoreFields([], fields)), rest) else Fail
    decreases fields, 1
  {
    hide ParseValue, ParseFields, SkipSpace;
    var body := WriteFields(fields, [CLOSE_BRACE] + rest);
    assert WriteTree(TObject(pad, fields), rest) == [OPEN_BRACE] + (pad + body);
    ParseObjectStep(pad + body, budget);
    SkipSpaceOver(pad, body);
    if fields == [] {
      SkipNothing(CLOSE_BRACE, rest);
    } else if budget >= 1 {
      FieldsComplete(fields, rest, budget - 1, []);
      FieldsStart(fields, [CLOSE_BRACE] + rest);
      hide WriteTree, WriteFields, FieldsOk, StoreFields, FieldsDepth;
      SkipBeforeFields(body, budget - 1, []);
    }
  }

  lemma SkipBeforeFields(s: Bytes, budget: nat, table: seq<Member>)
    ensures ParseFields(SkipSpace(s), budget, table) == ParseFields(s, budget, table)
  {
    SkipTwice(s);
    assert ParseKey(SkipSpace(s)) == ParseKey(s);
  }

  lemma FieldsStart(fields: seq<Field>, k: Bytes)
    requires FieldsOk(fields) && fields != []
    ensures var s := SkipSpace(WriteFields(fields, k)); s != [] && s[0] == QUOTE
  {
    var f := fields[0];
    assert FieldOk(f);
    var next := if |fields| == 1 then k else [COMMA] + WriteFields(fields[1..], k);
    var value := f.before + WriteTree(f.tree, f.after + next);
    SkipSpaceOver(f.beforeKey, WriteQuoted(f.key, f.afterKey + ([COLON] + value)));
  }

  lemma KeyComplete(before: Bytes, key: seq<Char>, after: Bytes, rest: Bytes)
    requires AllSpace(before) && CharsOk(key) && AllSpace(after)
    ensures ParseKey(before + WriteQuoted(key, after + ([COLON] + rest))) == Ok(CharsBytes(key), rest)
  {
    hide CharsOk, CharsBytes, RenderChars, ParseString;
    var quoted := WriteQuoted(key, after + ([COLON] + rest));
    SkipSpaceOver(before, quoted);
    StringComplete(key, after + ([COLON] + rest));
    assert quoted[1..] == RenderChars(key) + ([QUOTE] + (after + ([COLON] + rest)));
    SkipSpaceOver(after, [COLON] + rest);
    assert ([COLON] + rest)[1..] == rest;
  }

  lemma {:induction false} FieldsComplete(fields: seq<Field>, rest: Bytes, budget: nat, table: seq<Member>)
    requires FieldsOk(fields) && fields != []
    ensures ParseFields(WriteFields(fields, [CLOSE_BRACE] + rest), budget, table)
         == if FieldsDepth(fields) <= budget then Ok(Object(StoreFields(table, fields)), rest) else Fail
    decreases fields, 0
  {
    var f := fields[0];
    assert FieldOk(f);
    var k := [CLOSE_BRACE] + rest;
    var next := if |fields| == 1 then k else [COMMA] + WriteFields(fields[1..], k);
    var value := WriteTree(f.tree, f.after + next);
    KeyComplete(f.beforeKey, f.key, f.afterKey, f.before + value);
    SpacedComplete(f.before, f.tree, f.after, next, budget);
    ParseFieldsStep(WriteFields(fields, k), budget, table);
    hide WriteTree, WriteQuoted, TreeOk, TreeValue, TreeDepth, CharsOk, CharsBytes;
    hide ParseValue, ParseKey, ParseFields, Put, SkipSpace;
    if |fields| == 1 {
      assert next[1..] == rest && fields[1..] == [];
    } else {
      assert next[1..] == WriteFields(fields[1..], k);
      FieldsComplete(fields[1..], rest, budget, Put(table, CharsBytes(f.key), TreeValue(f.tree)));
    }
  }

  /** Any text the grammar writes, white space, member order and repeated keys
      included, parses to its last-wins value when it is nested at most `limit` deep
      and is refused otherwise. */
  lemma DocComplete(d: Doc, limit: nat)
    requires DocOk(d)
    ensures ParseWithin(RenderDoc(d), limit) == if TreeDepth(d.tree) <= limit then Some(TreeValue(d.tree)) else None
  {
    hide TreeOk, TreeValue, TreeDepth, WriteTree;
    SkipSpaceOver(d.after, []);
    assert d.after + [] == d.after;
    assert Delimited(d.after);
    SkipSpaceOver(d.before, WriteTree(d.tree, d.after));
    SkipTwice(WriteTree(d.tree, d.after));
    WriteTreeStart(d.tree, d.after);
    SkipBeforeValue(RenderDoc(d), limit);
    ValueComplete(d.tree, d.after, limit);
  }

  lemma SkipBeforeValue(s: Bytes, budget: nat)
    ensures ParseValue(SkipSpace(s), budget) == ParseValue(s, budget)
  {
    SkipTwice(s);
  }
}

/** Everything the parser accepts was written by the grammar, with the value and the
    nesting the parser found. */
module JsonSound {
  import opened Bytes
  import opened Json
  import opened JsonGrammar
  import opened JsonParse
  import opened JsonLexical
  import opened JsonComplete

  lemma LiteralSound(s: Bytes, text: Bytes, value: Value)
    requires text != [] && ParseLiteral(s, text, value).Ok?
    ensures ParseLiteral(s, text, value).value == value
    ensures s == text + ParseLiteral(s, text, value).rest
  {
  }

  lemma ScalarSound(s: Bytes, budget: nat) returns (t: Tree)
    requires s != [] && !IsSpace(s[0]) && s[0] != OPEN_BRACE && s[0] != OPEN_BRACKET
    requires ParseValue(s, budget).Ok? && Delimited(ParseValue(s, budget).rest)
    ensures TreeOk(t) && TreeValue(t) == ParseValue(s, budget).value && TreeDepth(t) <= budget
    ensures s == WriteTree(t, ParseValue(s, budget).rest)
  {
    hide ParseNumber, ParseString, CharsOk, CharsBytes, RenderChars, FloatLength, DigitsFrom, TakeDigits, IsIntLiteral;
    var rest := ParseValue(s, budget).rest;
    if s[0] == QUOTE {
      var chars := StringSound(s[1..]);
      t := TString(chars);
      assert s == [QUOTE] + s[1..];
    } else if s[0] == 116 {
      LiteralSound(s, TRUE_TEXT, Bool(true));
      t := TBool(true);
    } else if s[0] == 102 {
      LiteralSound(s, FALSE_TEXT, Bool(false));
      t := TBool(false);
    } else if s[0] == 110 {
      LiteralSound(s, NULL_TEXT, Null);
      t := TNull;
    } else {
      t := NumberSound(s);
    }
  }

  lemma {:induction false} ValueSound(s: Bytes, budget: nat) returns (ws: Bytes, t: Tree)
    requires ParseValue(s, budget).Ok? && Delimited(ParseValue(s, budget).rest)
    ensures AllSpace(ws) && TreeOk(t)
    ensures TreeValue(t) == ParseValue(s, budget).value && TreeDepth(t) <= budget
    ensures s == ws + WriteTree(t, ParseValue(s, budget).rest)
    decreases |s|, 1
  {
    ws := SkippedSpace(s);
    SkipBeforeValue(s, budget);
    var u := SkipSpace(s);
    assert u != [] by { assert ParseValue(u, budget).Ok?; }
    if u[0] == OPEN_BRACE {
      t := ObjectSound(u[1..], budget);
      assert u == [OPEN_BRACE] + u[1..];
    } else if u[0] == OPEN_BRACKET {
      t := ArraySound(u[1..], budget);
      assert u == [OPEN_BRACKET] + u[1..];
    } else {
      t := ScalarSound(u, budget);
    }
  }

  lemma {:induction false} ArraySound(s: Bytes, budget: nat) returns (t: Tree)
    requires ParseValue([OPEN_BRACKET] + s, budget).Ok?
    ensures var p := ParseValue([OPEN_BRACKET] + s, budget);
            && TreeOk(t) && TreeValue(t) == p.value && TreeDepth(t) <= budget
            && [OPEN_BRACKET] + s == WriteTree(t, p.rest)
    decreases |s|, 4
  {
    hide ParseValue, ParseElems, SkipSpace;
    ParseArrayStep(s, budget);
    var pad := SkippedSpace(s);
    var u := SkipSpace(s);
    var elems: seq<Elem> := [];
    if u != [] && u[0] == CLOSE_BRACKET {
      assert u == [CLOSE_BRACKET] + u[1..];
    } else {
      elems := ElemsSound(u, budget - 1, []);
      assert [] + ElemValues(elems) == ElemValues(elems);
    }
    t := TArray(pad, elems);
  }

  /** The value at the front of s with the white space around it, up to what follows. */
  lemma {:induction false} SpacedSound(s: Bytes, budget: nat) returns (before: Bytes, t: Tree, after: Bytes)
    requires var p := ParseValue(SkipSpace(s), budget);
             p.Ok? && SkipSpace(p.rest) != [] && SkipSpace(p.rest)[0] in {COMMA, CLOSE_BRACKET, CLOSE_BRACE}
    ensures AllSpace(before) && TreeOk(t) && AllSpace(after)
    ensures var p := ParseValue(SkipSpace(s), budget);
            && TreeValue(t) == p.value && TreeDepth(t) <= budget
            && s == before + WriteTree(t, after + SkipSpace(p.rest))
    decreases |s|, 2
  {
    SkipBeforeValue(s, budget);
    var rest := ParseValue(s, budget).rest;
    after := SkippedSpace(rest);
    var next := SkipSpace(rest);
    assert next == [next[0]] + next[1..];
    SpaceDelimits(after, next[0], next[1..]);
    before, t := ValueSound(s, budget);
  }

  lemma {:induction false} ElemsSound(s: Bytes, budget: nat, items: seq<Value>) returns (elems: seq<Elem>)
    requires ParseElems(s, budget, items).Ok?
    ensures elems != [] && ElemsOk(elems) && ElemsDepth(elems) <= budget
    ensures var p := ParseElems(s, budget, items);
            p.value == Array(items + ElemValues(elems)) && s == WriteElems(elems, [CLOSE_BRACKET] + p.rest)
    decreases |s|, 3
  {
    ParseElemsStep(s, budget, items);
    hide ParseValue, ParseElems, SkipSpace;
    var p := ParseValue(SkipSpace(s), budget);
    var r := SkipSpace(p.rest);
    assert r == [r[0]] + r[1..];
    var before, t, after := SpacedSound(s, budget);
    var e := Elem(before, t, after);
    hide WriteTree, TreeOk, TreeValue, TreeDepth;
    if r[0] == COMMA {
      var tail := ElemsSound(r[1..], budget, items + [p.value]);
      elems := [e] + tail;
      assert elems[1..] == tail;
      assert items + ([p.value] + ElemValues(tail)) == items + [p.value] + ElemValues(tail);
    } else {
      elems := [e];
      assert elems[1..] == [];
      assert ElemValues(elems) == [p.value] + ElemValues([]);
    }
  }

  lemma {:induction false} ObjectSound(s: Bytes, budget: nat) returns (t: Tree)
    requires ParseValue([OPEN_BRACE] + s, budget).Ok?
    ensures var p := ParseValue([OPEN_BRACE] + s, budget);
            && TreeOk(t) && TreeValue(t) == p.value && TreeDepth(t) <= budget
            && [OPEN_BRACE] + s == WriteTree(t, p.rest)
    decreases |s|, 4
  {
    hide ParseValue, ParseFields, SkipSpace;
    ParseObjectStep(s, budget);
    var pad := SkippedSpace(s);
    var u := SkipSpace(s);
    var fields: seq<Field> := [];
    if u != [] && u[0] == CLOSE_BRACE {
      assert u == [CLOSE_BRACE] + u[1..];
    } else {
      fields := FieldsSound(u, budget - 1, []);
    }
    t := TObject(pad, fields);
  }

  lemma Uncons(s: Bytes, c: Byte)
    requires s != [] && s[0] == c
    ensures s == [c] + s[1..]
  {
  }

  lemma KeySound(s: Bytes) returns (before: Bytes, key: seq<Char>, after: Bytes)
    requires ParseKey(s).Ok?
    ensures AllSpace(before) && CharsOk(key) && AllSpace(after) && CharsBytes(key) == ParseKey(s).value
    ensures s == before + WriteQuoted(key, after + ([COLON] + ParseKey(s).rest))
  {
    hide ParseString, CharsOk, CharsBytes, RenderChars, SkipSpace;
    before := SkippedSpace(s);
    var t := SkipSpace(s);
    key := StringSound(t[1..]);
    var rest := ParseString(t[1..]).rest;
    after := SkippedSpace(rest);
    var r := SkipSpace(rest);
    assert ParseKey(s) == Ok(CharsBytes(key), r[1..]);
    hide ParseKey;
    Uncons(t, QUOTE);
    Uncons(r, COLON);
  }

  lemma {:induction false} FieldsSound(s: Bytes, budget: nat, table: seq<Member>) returns (fields: seq<Field>)
    requires ParseFields(s, budget, table).Ok?
    ensures fields != [] && FieldsOk(fields) && FieldsDepth(fields) <= budget
    ensures var p := ParseFields(s, budget, table);
            p.value == Object(StoreFields(table, fields)) && s == WriteFields(fields, [CLOSE_BRACE] + p.rest)
    decreases |s|, 3
  {
    assert ParseKey(s).Ok?;
    ParseFieldsStep(s, budget, table);
    hide ParseValue, ParseFields, ParseKey, SkipSpace, Put;
    var key, afterColon := ParseKey(s).value, ParseKey(s).rest;
    var p := ParseValue(SkipSpace(afterColon), budget);
    var r := SkipSpace(p.rest);
    assert r == [r[0]] + r[1..];
    var beforeKey, chars, afterKey := KeySound(s);
    var before, t, after := SpacedSound(afterColon, budget);
    var f := Field(beforeKey, chars, afterKey, before, t, after);
    hide WriteTree, WriteQuoted, TreeOk, TreeValue, TreeDepth, CharsOk, CharsBytes;
    assert FieldOk(f);
    hide FieldsOk, FieldsDepth, StoreFields, WriteFields;
    var tail: seq<Field> := [];
    if r[0] == COMMA {
      tail := FieldsSound(r[1..], budget, Put(table, key, p.value));
    }
    fields := [f] + tail;
    FieldsCons(f, tail, table, [CLOSE_BRACE] + ParseFields(s, budget, table).rest);
  }

  lemma FieldsCons(f: Field, tail: seq<Field>, table: seq<Member>, k: Bytes)
    requires FieldOk(f) && (tail != [] ==> FieldsOk(tail))
    ensures FieldsOk([]) && FieldsOk([f] + tail) && FieldsDepth([f] + tail) == Max(TreeDepth(f.tree), FieldsDepth(tail))
    ensures FieldsDepth([]) == 0
    ensures StoreFields(table, [f] + tail) == StoreFields(Put(table, CharsBytes(f.key), TreeValue(f.tree)), tail)
    ensures forall t :: StoreFields(t, []) == t
    ensures WriteFields([f] + tail, k) ==
              var next := if tail == [] then k else [COMMA] + WriteFields(tail, k);
              f.beforeKey + WriteQuoted(f.key, f.afterKey + ([COLON] + (f.before + WriteTree(f.tree, f.after + next))))
  {
    hide WriteTree, WriteQuoted, TreeOk, TreeValue, TreeDepth, CharsOk, CharsBytes, Put;
    assert ([f] + tail)[1..] == tail;
    if tail == [] {
      assert FieldsOk(tail);
    }
  }

  lemma DocSound(text: Bytes, limit: nat) returns (d: Doc)
    requires ParseWithin(text, limit).Some?
    ensures DocOk(d) && RenderDoc(d) == text && TreeDepth(d.tree) <= limit
    ensures Some(TreeValue(d.tree)) == ParseWithin(text, limit)
  {
    hide ParseValue, TreeOk, TreeValue, TreeDepth, WriteTree;
    var rest := ParseValue(text, limit).rest;
    var after := SkippedSpace(rest);
    assert after == rest && Delimited(rest);
    var before, t := ValueSound(text, limit);
    d := Doc(before, t, after);
  }

  ghost predicate Spells(d: Doc, text: Bytes, v: Value)
  {
    DocOk(d) && RenderDoc(d) == text && TreeValue(d.tree) == v
  }

  /** The language of the parser, exactly: a text parses to a value if and only if the
      grammar writes that text, with that value, nested at most 200 deep. */
  lemma ParseIffSpelled(text: Bytes, v: Value)
    ensures Parse(text) == Some(v) <==> exists d :: Spells(d, text, v) && TreeDepth(d.tree) <= MAX_DEPTH
  {
    hide DocOk, RenderDoc, TreeValue, TreeDepth, ParseWithin;
    if Parse(text) == Some(v) {
      var d := DocSound(text, MAX_DEPTH);
      assert Spells(d, text, v);
    }
    forall d | Spells(d, text, v) && TreeDepth(d.tree) <= MAX_DEPTH
      ensures Parse(text) == Some(v)
    {
      DocComplete(d, MAX_DEPTH);
    }
  }

  /** A text has at most one value, however it is taken apart, and the nesting that
      decides its acceptance is the same for every way of taking it apart. */
  lemma SpellingIsUnambiguous(text: Bytes, c: Doc, v: Value, d: Doc, w: Value)
    requires Spells(c, text, v) && Spells(d, text, w)
    ensures v == w && TreeDepth(c.tree) == TreeDepth(d.tree)
  {
    hide DocOk, RenderDoc, TreeValue, TreeDepth, ParseWithin;
    DocComplete(c, TreeDepth(c.tree));
    DocComplete(d, TreeDepth(c.tree));
    DocComplete(c, TreeDepth(d.tree));
    DocComplete(d, TreeDepth(d.tree));
  }

  /** Spellings of numbers that section 6 of RFC 8259 does not allow and the parser does:
      a leading zero, nothing after the point, nothing before it. A NUL byte ends an
      integer for the scanner, but not the text. */
  lemma BeyondTheStandard()
    ensures Parse([48, 49]) == Some(Int(1))
    ensures Parse([49, 46]) == Some(Double([49, 46]))
    ensures Parse([45, 46, 53]) == Some(Double([45, 46, 53]))
    ensures Parse([49, 0]) == None
  {
    hide ParseWithin;
    LeadingZero();
    BarePoint([49, 46]);
    BarePoint([45, 46, 53]);
    NulAfterInteger();
  }

  lemma LeadingZero()
    ensures Parse([48, 49]) == Some(Int(1))
  {
    Spelled(TInt(false, [48, 49]), [48, 49]);
  }

  lemma BarePoint(text: Bytes)
    requires text == [49, 46] || text == [45, 46, 53]
    ensures Parse(text) == Some(Double(text))
  {
    hide ParseWithin;
    Spelled(TFloat(text), text);
  }

  lemma NulAfterInteger()
    ensures Parse([49, 0]) == None
  {
  }

  lemma Spelled(t: Tree, text: Bytes)
    requires TreeOk(t) && TreeDepth(t) == 1 && WriteTree(t, []) == text
    ensures Parse(text) == Some(TreeValue(t))
  {
    hide TreeOk, WriteTree, ParseWithin, TreeValue;
    DocComplete(Doc([], t, []), MAX_DEPTH);
    assert [] + text == text;
  }
}

/** Texts that are not JSON, whatever values and bytes stand in them. */
module JsonRefused {
  import opened Bytes
  import opened Json
  import opened JsonGrammar
  import opened JsonParse
  import opened JsonLexical
  import opened JsonComplete
  import opened JsonText

  lemma {:induction false} OnlySpace(s: Bytes)
    ensures SkipSpace(s) == [] <==> AllSpace(s)
  {
    if s != [] {
      OnlySpace(s[1..]);
    }
  }

  /** A text of white space alone. */
  lemma NothingRefused(ws: Bytes)
    requires AllSpace(ws)
    ensures Parse(ws).None?
  {
    OnlySpace(ws);
  }

  /** Reading a written value in front of a delimiter. */
  lemma WrittenIsRead(v: Value, tail: Bytes, budget: nat)
    requires Plain(v) && Delimited(tail)
    ensures ParseValue(Text(v) + tail, budget) == if Depth(v) <= budget then Ok(Norm(v), tail) else Fail
  {
    hide Plain, Text, Depth, Norm, TreeOf, TreeOk, TreeValue, TreeDepth, WriteTree, ParseValue, Delimited;
    TreeOfText(v, tail);
    TreeOfIsOk(v);
    ValueComplete(TreeOf(v), tail, budget);
  }

  /** Anything but white space after the value. */
  lemma MoreRefused(v: Value, tail: Bytes)
    requires Plain(v) && Delimited(tail) && !AllSpace(tail)
    ensures Parse(Text(v) + tail).None?
  {
    hide Plain, Text, Depth, Norm, ParseValue;
    WrittenIsRead(v, tail, MAX_DEPTH);
    OnlySpace(tail);
  }

  /** A text does not begin with white space. */
  lemma TextStart(v: Value, tail: Bytes)
    requires Plain(v)
    ensures SkipSpace(Text(v) + tail) == Text(v) + tail
    ensures Text(v) != [] && Text(v)[0] != CLOSE_BRACKET
  {
    TreeOfText(v, tail);
    TreeOfIsOk(v);
    WriteTreeStart(TreeOf(v), tail);
    TreeOfText(v, []);
    WriteTreeStart(TreeOf(v), []);
    hide Plain, Text, TreeOf, TreeOk, WriteTree;
    assert Text(v) + [] == Text(v);
  }

  /** An array after its first value. */
  lemma AfterFirst(v: Value, tail: Bytes)
    requires Plain(v) && Delimited(tail)
    ensures var p := ParseValue([OPEN_BRACKET] + (Text(v) + tail), MAX_DEPTH);
            || p.Fail?
            || (var r := SkipSpace(tail);
                && r != []
                && (r[0] == COMMA ==> p == ParseElems(r[1..], MAX_DEPTH - 1, [Norm(v)]))
                && (r[0] != COMMA ==> r[0] == CLOSE_BRACKET))
  {
    hide Plain, Text, Depth, Norm, ParseValue, ParseElems, Delimited;
    TextStart(v, tail);
    ParseArrayStep(Text(v) + tail, MAX_DEPTH);
    WrittenIsRead(v, tail, MAX_DEPTH - 1);
    ParseElemsStep(Text(v) + tail, MAX_DEPTH - 1, []);
    assert [] + [Norm(v)] == [Norm(v)];
    hide SkipSpace;
    assert (Text(v) + tail)[0] == Text(v)[0];
  }

  /** No value begins with a comma, a colon or a closing bracket. */
  lemma NoValue(s: Bytes, budget: nat)
    requires s != [] && s[0] in [COMMA, COLON, CLOSE_BRACKET, CLOSE_BRACE]
    ensures ParseValue(s, budget).Fail?
  {
    assert SkipSpace(s) == s;
  }

  lemma OutsideFails(s: Bytes)
    requires ParseValue(s, MAX_DEPTH).Fail?
    ensures Parse(s).None?
  {
    hide ParseValue;
  }

  /** An array that is not closed, or closed like an object. */
  lemma UnclosedRefused(v: Value, tail: Bytes)
    requires Plain(v) && (AllSpace(tail) || (tail != [] && tail[0] == CLOSE_BRACE))
    ensures Parse([OPEN_BRACKET] + (Text(v) + tail)).None?
  {
    OnlySpace(tail);
    assert tail != [] && tail[0] == CLOSE_BRACE ==> SkipSpace(tail) == tail;
    hide Plain, Text, Norm, ParseValue, ParseElems, SkipSpace, ParseWithin;
    AfterFirst(v, tail);
    OutsideFails([OPEN_BRACKET] + (Text(v) + tail));
  }

  /** A comma with no value after it, or none in front of it. */
  lemma LooseCommaRefused(v: Value, tail: Bytes)
    requires Plain(v)
    ensures Parse([OPEN_BRACKET] + (Text(v) + ([COMMA, CLOSE_BRACKET] + tail))).None?
    ensures Parse([OPEN_BRACKET] + ([COMMA] + tail)).None?
  {
    var after, before := [COMMA, CLOSE_BRACKET] + tail, [COMMA] + tail;
    assert SkipSpace(after) == after && after[1..] == [CLOSE_BRACKET] + tail;
    assert SkipSpace(before) == before && SkipSpace([CLOSE_BRACKET] + tail) == [CLOSE_BRACKET] + tail;
    hide Plain, Text, Norm, ParseValue, ParseElems, SkipSpace, ParseWithin;
    AfterFirst(v, after);
    NoValue([CLOSE_BRACKET] + tail, MAX_DEPTH - 1);
    ParseElemsStep([CLOSE_BRACKET] + tail, MAX_DEPTH - 1, [Norm(v)]);
    OutsideFails([OPEN_BRACKET] + (Text(v) + after));
    ParseArrayStep(before, MAX_DEPTH);
    NoValue(before, MAX_DEPTH - 1);
    ParseElemsStep(before, MAX_DEPTH - 1, []);
    OutsideFails([OPEN_BRACKET] + before);
  }

  /** A member that does not begin with a string, or has no colon after its key. */
  lemma KeyRefused(key: Bytes, b: Byte, tail: Bytes)
    requires !IsSpace(b)
    ensures b != QUOTE && b != CLOSE_BRACE ==> Parse([OPEN_BRACE] + ([b] + tail)).None?
    ensures b != COLON ==> Parse([OPEN_BRACE] + (Text(String(key)) + ([b] + tail))).None?
  {
    var first, quoted := [b] + tail, Text(String(key)) + ([b] + tail);
    assert SkipSpace(first) == first && SkipSpace(quoted) == quoted && quoted[0] == QUOTE;
    KeyIsRead(key, b, tail);
    hide Text, ParseValue, ParseFields, ParseKey, SkipSpace, ParseWithin;
    ParseObjectStep(first, MAX_DEPTH);
    ParseObjectStep(quoted, MAX_DEPTH);
    ParseFieldsStep(first, MAX_DEPTH - 1, []);
    ParseFieldsStep(quoted, MAX_DEPTH - 1, []);
    if b != QUOTE && b != CLOSE_BRACE {
      OutsideFails([OPEN_BRACE] + first);
    }
    if b != COLON {
      OutsideFails([OPEN_BRACE] + quoted);
    }
  }

  lemma KeyIsRead(key: Bytes, b: Byte, tail: Bytes)
    requires !IsSpace(b)
    ensures b != QUOTE ==> ParseKey([b] + tail).Fail?
    ensures b != COLON ==> ParseKey(Text(String(key)) + ([b] + tail)).Fail?
  {
    var rest := [b] + tail;
    var quoted := Text(String(key)) + rest;
    QuotedIsRead(key, rest);
    hide Text, ParseString;
    assert SkipSpace(rest) == rest && SkipSpace(quoted) == quoted;
  }

  lemma QuotedIsRead(key: Bytes, rest: Bytes)
    ensures var s := Text(String(key)) + rest;
            s[0] == QUOTE && ParseString(s[1..]) == Ok(key, rest)
  {
    CharsRoundTrip(key);
    StringComplete(CharsOf(key), rest);
    QuotedText(key, rest);
    assert Text(String(key)) == StringText(key);
    hide StringText, EscapedText, ParseString, CharsOf, CharsOk, CharsBytes, RenderChars, Text;
    var inside := RenderChars(CharsOf(key)) + ([QUOTE] + rest);
    assert ([QUOTE] + inside)[1..] == inside;
  }
}

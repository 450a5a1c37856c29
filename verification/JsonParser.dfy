/** The C++ parser itself: one position and one depth counter moved along the text. */
module JsonParser {
  import opened Bytes
  import opened Json
  import opened JsonGrammar
  import opened JsonParse
  import opened JsonLexical
  import opened JsonComplete

  class ParseContext {
    const data: Bytes
    var pos: nat
    var depth: nat

    constructor (text: Bytes)
      ensures data == text && pos == 0 && depth == 0
    {
      data := text;
      pos, depth := 0, 0;
    }

    ghost predicate Valid()
      reads this
    {
      pos <= |data|
    }

    /** The text from the position on. */
    ghost function Rest(): Bytes
      reads this
      requires Valid()
    {
      data[pos..]
    }

    /** The outcome of a method is the outcome p of the specification: success with
        the same value and the same text left over, or failure. */
    ghost predicate Agrees<T>(p: Parsed<T>, ok: bool, value: T)
      reads this
    {
      Valid() && ok == p.Ok? && (ok ==> value == p.value && Rest() == p.rest)
    }

    method SkipWhitespace()
      requires Valid()
      modifies this`pos
      ensures Valid() && pos >= old(pos) && Rest() == SkipSpace(old(Rest()))
    {
      while pos < |data| && IsSpace(data[pos])
        invariant Valid() && pos >= old(pos)
        invariant SkipSpace(Rest()) == SkipSpace(old(Rest()))
      {
        assert data[pos + 1..] == Rest()[1..];
        pos := pos + 1;
      }
    }

    /** Takes one byte. */
    method Advance() returns (c: Byte)
      requires pos < |data|
      modifies this`pos
      ensures Valid() && pos == old(pos) + 1
      ensures c == old(Rest())[0] && Rest() == old(Rest())[1..]
    {
      c := data[pos];
      pos := pos + 1;
    }

    method Skip(n: nat)
      requires pos + n <= |data|
      modifies this`pos
      ensures Valid() && pos == old(pos) + n && Rest() == old(Rest())[n..]
    {
      pos := pos + n;
    }

    method ParseHexDigits() returns (ok: bool, value: nat)
      requires Valid()
      modifies this`pos
      ensures pos >= old(pos) && Agrees(ParseHex4(old(Rest())), ok, value)
    {
      value := 0;
      if pos + 4 > |data| {
        return false, value;
      }
      ghost var four := data[pos..pos + 4];
      assert old(Rest())[..4] == four;
      for i := 0 to 4
        invariant pos == old(pos) + i
        invariant AllHex(four[..i]) && value == HexValue(four[..i])
      {
        var c := data[pos];
        pos := pos + 1;
        assert four[..i + 1][..i] == four[..i] && four[..i + 1][i] == c;
        if !IsHex(c) {
          if AllHex(four) {
            HexAt(four, i);
          }
          return false, value;
        }
        value := value * 16 + HexDigit(c);
      }
      assert four[..4] == four;
      ok := true;
    }

    /** What follows a backslash and a `u`. */
    method ParseUnicodeEscape() returns (ok: bool, bytes: Bytes)
      requires Valid()
      modifies this`pos
      ensures pos >= old(pos) && Agrees(ParseUnicode(old(Rest())), ok, bytes)
    {
      bytes := [];
      var cp: nat;
      ok, cp := ParseHexDigits();
      if !ok {
        return;
      }
      if IsHigh(cp) {
        if pos + 1 < |data| && data[pos] == BACKSLASH && data[pos + 1] == LETTER_U {
          Skip(2);
          var low: nat;
          ok, low := ParseHexDigits();
          if !ok {
            return;
          }
          if !IsLow(low) {
            return false, bytes;
          }
          cp := PairValue(cp, low);
        } else {
          return false, bytes;
        }
      } else if IsLow(cp) {
        return false, bytes;
      }
      bytes := Utf8(cp);
    }

    /** A string literal, from its opening quote. */
    method ParseStringLiteral() returns (ok: bool, out: Bytes)
      requires pos < |data| && data[pos] == QUOTE
      modifies this`pos
      ensures pos > old(pos) && Agrees(ParseString(old(Rest())[1..]), ok, out)
    {
      hide ParseUnicode, Utf8;
      out := [];
      var quote := Advance();
      ghost var whole := ParseString(Rest());
      PrependNothing(whole);
      while pos < |data|
        invariant Valid() && pos > old(pos)
        invariant whole == Prepend(out, ParseString(Rest()))
        decreases |data| - pos
      {
        ghost var s := Rest();
        var c := Advance();
        if c == QUOTE {
          assert out + [] == out;
          return true, out;
        }
        if c < 32 {
          return false, out;
        }
        var bytes: Bytes := [c];
        if c == BACKSLASH {
          if pos == |data| {
            return false, out;
          }
          var e := Advance();
          assert Rest() == s[2..];
          if e == LETTER_U {
            ok, bytes := ParseUnicodeEscape();
            if !ok {
              return;
            }
          } else {
            match Unescape(e) {
              case Some(b) => bytes := [b];
              case None => return false, out;
            }
          }
        }
        assert ParseChar(s) == Ok(bytes, Rest());
        PrependTwice(out, bytes, ParseString(Rest()));
        out := out + bytes;
      }
      ok := false;
    }

    /** An integer if it can be one, otherwise what the C library reads as a double. */
    method ParseNumberLiteral() returns (ok: bool, out: Value)
      requires pos < |data|
      modifies this`pos
      ensures pos >= old(pos) && Agrees(ParseNumber(old(Rest())), ok, out)
    {
      hide TakeDigits, DigitsFrom, FloatLength, IsHexFloat;
      var start := data[pos..];
      var sign := SignLength(start);
      var digits := TakeDigits(start[sign..]);
      var end := sign + |digits|;
      var iv := IntValue(sign == 1, digits);
      if |digits| > 0 && InInt64(iv) {
        var next: Byte := if end < |start| then start[end] else 0;
        if next in {0, COMMA, CLOSE_BRACE, CLOSE_BRACKET, 32, 9, 10, 13} {
          Skip(end);
          return true, Int(iv);
        }
      }
      var length := FloatLength(start);
      if length == 0 || IsHexFloat(start) {
        return false, Null;
      }
      Skip(length);
      return true, Double(start[..length]);
    }

    method ParseKeyword(text: Bytes, value: Value) returns (ok: bool, out: Value)
      requires Valid() && text != []
      modifies this`pos
      ensures pos >= old(pos) && Agrees(ParseLiteral(old(Rest()), text, value), ok, out)
    {
      if |data| - pos >= |text| && data[pos..pos + |text|] == text {
        assert Rest()[..|text|] == text;
        Skip(|text|);
        return true, value;
      }
      assert |Rest()| >= |text| ==> Rest()[..|text|] == data[pos..pos + |text|];
      return false, Null;
    }

    /** An object, from its opening brace; the depth counter already counts it. */
    method ParseObject() returns (ok: bool, out: Value)
      requires pos < |data| && data[pos] == OPEN_BRACE && 1 <= depth <= MAX_DEPTH
      modifies this
      ensures pos > old(pos) && old(depth) <= depth <= old(depth) + (if ok then 0 else 1)
      ensures Agrees(ParseValue(old(Rest()), MAX_DEPTH - old(depth) + 1), ok, out)
      decreases |data| - pos, 0
    {
      hide ParseValue, ParseFields, ParseKey, SkipSpace, Put;
      ghost var budget := MAX_DEPTH - depth;
      ghost var s := Rest();
      var members: seq<Member> := [];
      var c := Advance();
      assert s == [OPEN_BRACE] + Rest();
      ParseObjectStep(Rest(), budget + 1);
      SkipWhitespace();
      if pos < |data| && data[pos] == CLOSE_BRACE {
        c := Advance();
        return true, Object(members);
      }
      ghost var whole := ParseFields(Rest(), budget, []);
      while true
        invariant Valid() && pos > old(pos) && depth == old(depth)
        invariant whole == ParseFields(Rest(), budget, members)
        decreases |data| - pos
      {
        out := Object(members);
        ParseFieldsStep(Rest(), budget, members);
        var key: Bytes, val: Value;
        ok, key, val := ParseMember();
        if !ok {
          return;
        }
        members := Put(members, key, val);
        SkipWhitespace();
        if pos == |data| {
          return false, out;
        }
        c := Advance();
        if c == CLOSE_BRACE {
          return true, Object(members);
        }
        if c != COMMA {
          return false, out;
        }
      }
    }

    /** A key, the colon after it and the value. */
    method ParseMember() returns (ok: bool, key: Bytes, val: Value)
      requires Valid() && depth <= MAX_DEPTH
      modifies this
      ensures Valid() && pos >= old(pos) && (ok ==> pos > old(pos))
      ensures old(depth) <= depth <= old(depth) + (if ok then 0 else 1)
      ensures ParseKey(old(Rest())).Fail? ==> !ok
      ensures ParseKey(old(Rest())).Ok? ==>
                && key == ParseKey(old(Rest())).value
                && Agrees(ParseValue(SkipSpace(ParseKey(old(Rest())).rest), MAX_DEPTH - old(depth)), ok, val)
      decreases |data| - pos, 3
    {
      hide ParseValue, ParseKey, SkipSpace;
      val := Null;
      ok, key := ParseMemberKey();
      if !ok {
        return;
      }
      ok, val := ParseSpaced();
    }

    /** A value after white space. */
    method ParseSpaced() returns (ok: bool, val: Value)
      requires Valid() && depth <= MAX_DEPTH
      modifies this
      ensures pos >= old(pos) && (ok ==> pos > old(pos))
      ensures old(depth) <= depth <= old(depth) + (if ok then 0 else 1)
      ensures Agrees(ParseValue(SkipSpace(old(Rest())), MAX_DEPTH - old(depth)), ok, val)
      decreases |data| - pos, 2
    {
      hide ParseValue, SkipSpace;
      SkipWhitespace();
      ok, val := ParseAny();
    }

    /** White space, a key and the colon after it. */
    method ParseMemberKey() returns (ok: bool, key: Bytes)
      requires Valid()
      modifies this`pos
      ensures pos >= old(pos) && (ok ==> pos > old(pos)) && Agrees(ParseKey(old(Rest())), ok, key)
    {
      hide ParseString;
      key := [];
      SkipWhitespace();
      if pos == |data| || data[pos] != QUOTE {
        return false, key;
      }
      ok, key := ParseStringLiteral();
      if !ok {
        return;
      }
      SkipWhitespace();
      if pos == |data| {
        return false, key;
      }
      var c := Advance();
      ok := c == COLON;
    }

    /** An array, from its opening bracket; the depth counter already counts it. */
    method ParseArray() returns (ok: bool, out: Value)
      requires pos < |data| && data[pos] == OPEN_BRACKET && 1 <= depth <= MAX_DEPTH
      modifies this
      ensures pos > old(pos) && old(depth) <= depth <= old(depth) + (if ok then 0 else 1)
      ensures Agrees(ParseValue(old(Rest()), MAX_DEPTH - old(depth) + 1), ok, out)
      decreases |data| - pos, 0
    {
      hide ParseValue, ParseElems, SkipSpace;
      ghost var budget := MAX_DEPTH - depth;
      ghost var s := Rest();
      var items: seq<Value> := [];
      var c := Advance();
      assert s == [OPEN_BRACKET] + Rest();
      ParseArrayStep(Rest(), budget + 1);
      SkipWhitespace();
      if pos < |data| && data[pos] == CLOSE_BRACKET {
        c := Advance();
        return true, Array(items);
      }
      ghost var whole := ParseElems(Rest(), budget, []);
      while true
        invariant Valid() && pos > old(pos) && depth == old(depth)
        invariant whole == ParseElems(Rest(), budget, items)
        decreases |data| - pos
      {
        out := Array(items);
        ParseElemsStep(Rest(), budget, items);
        var val: Value;
        ok, val := ParseSpaced();
        if !ok {
          return;
        }
        items := items + [val];
        SkipWhitespace();
        if pos == |data| {
          return false, out;
        }
        c := Advance();
        if c == CLOSE_BRACKET {
          return true, Array(items);
        }
        if c != COMMA {
          return false, out;
        }
      }
    }

    /** Any value. Every value read takes at least one byte, and on success the depth
        counter is back where it was. */
    method ParseAny() returns (ok: bool, out: Value)
      requires Valid() && depth <= MAX_DEPTH
      modifies this
      ensures pos >= old(pos) && (ok ==> pos > old(pos))
      ensures old(depth) <= depth <= old(depth) + (if ok then 0 else 1)
      ensures Agrees(ParseValue(old(Rest()), MAX_DEPTH - old(depth)), ok, out)
      decreases |data| - pos, 1
    {
      hide ParseElems, ParseFields, ParseString, ParseNumber;
      out := Null;
      depth := depth + 1;
      if depth > MAX_DEPTH {
        return false, out;
      }
      ghost var s := Rest();
      SkipWhitespace();
      SkipBeforeValue(s, MAX_DEPTH - old(depth));
      if pos == |data| {
        ok := false;
      } else {
        var c := data[pos];
        if c == OPEN_BRACE {
          ok, out := ParseObject();
        } else if c == OPEN_BRACKET {
          ok, out := ParseArray();
        } else if c == QUOTE {
          var str: Bytes;
          ok, str := ParseStringLiteral();
          out := String(str);
        } else if c == 116 {
          ok, out := ParseKeyword(TRUE_TEXT, Bool(true));
        } else if c == 102 {
          ok, out := ParseKeyword(FALSE_TEXT, Bool(false));
        } else if c == 110 {
          ok, out := ParseKeyword(NULL_TEXT, Null);
        } else if c == MINUS || IsDigit(c) {
          ok, out := ParseNumberLiteral();
        } else {
          ok := false;
        }
      }
      depth := depth - 1;
    }
  }

  lemma {:induction false} HexAt(h: Bytes, i: nat)
    requires i < |h| && AllHex(h)
    ensures IsHex(h[i])
  {
    if i < |h| - 1 {
      HexAt(h[..|h| - 1], i);
    }
  }

  /** The entry point: one value with nothing but white space after it. */
  method ParseJson(text: Bytes) returns (result: Option<Value>)
    ensures result == Parse(text)
  {
    hide ParseValue;
    var ctx := new ParseContext(text);
    assert ctx.Rest() == text;
    var ok, value := ctx.ParseAny();
    if !ok {
      return None;
    }
    ctx.SkipWhitespace();
    if ctx.pos < |text| {
      return None;
    }
    return Some(value);
  }
}

/** The C++ parser as functions from the remaining text to a value and what is left.
    `budget` is the nesting still allowed, that is the limit minus the depth counter. */
module JsonParse {
  import opened Bytes
  import opened Json
  import opened JsonGrammar

  const MAX_DEPTH: nat := 200

  datatype Parsed<+T> = Fail | Ok(value: T, rest: Bytes)

  function SkipSpace(s: Bytes): (r: Bytes)
    ensures |r| <= |s|
    ensures r != [] ==> !IsSpace(r[0])
  {
    if s != [] && IsSpace(s[0]) then SkipSpace(s[1..]) else s
  }

  function ParseHex4(s: Bytes): (p: Parsed<nat>)
    ensures p.Ok? ==> |p.rest| < |s| && p.value < 0x10000
  {
    if |s| >= 4 && AllHex(s[..4]) then HexValueBound(s[..4]); Ok(HexValue(s[..4]), s[4..]) else Fail
  }

  /** One character of a string literal, escapes included. */
  function ParseChar(s: Bytes): (p: Parsed<Bytes>)
    requires s != [] && s[0] != QUOTE
    ensures p.Ok? ==> |p.rest| < |s|
  {
    if s[0] < 32 then Fail
    else if s[0] != BACKSLASH then Ok([s[0]], s[1..])
    else if |s| == 1 then Fail
    else if s[1] == LETTER_U then ParseUnicode(s[2..])
    else
      match Unescape(s[1])
      case Some(b) => Ok([b], s[2..])
      case None => Fail
  }

  /** What follows a backslash and a `u`: four hexadecimal digits, and for a high
      surrogate the matching low one. */
  function ParseUnicode(s: Bytes): (p: Parsed<Bytes>)
    ensures p.Ok? ==> |p.rest| < |s|
  {
    match ParseHex4(s)
    case Fail => Fail
    case Ok(cp, rest) =>
      if IsHigh(cp) then
        if |rest| >= 2 && rest[0] == BACKSLASH && rest[1] == LETTER_U then
          match ParseHex4(rest[2..])
          case Fail => Fail
          case Ok(low, rest2) => if IsLow(low) then Ok(Utf8(PairValue(cp, low)), rest2) else Fail
        else Fail
      else if IsLow(cp) then Fail
      else Ok(Utf8(cp), rest)
  }

  /** The rest of a string literal after its opening quote. */
  function ParseString(s: Bytes): (p: Parsed<Bytes>)
    ensures p.Ok? ==> |p.rest| < |s|
    decreases |s|
  {
    if s == [] then Fail
    else if s[0] == QUOTE then Ok([], s[1..])
    else
      match ParseChar(s)
      case Fail => Fail
      case Ok(bytes, rest) => Prepend(bytes, ParseString(rest))
  }

  function Prepend(bytes: Bytes, p: Parsed<Bytes>): Parsed<Bytes>
  {
    match p
    case Fail => Fail
    case Ok(value, rest) => Ok(bytes + value, rest)
  }

  /** The byte after an integer literal: the end of the text reads as NUL. */
  predicate Delimited(rest: Bytes)
  {
    rest == [] || rest[0] in {0, COMMA, CLOSE_BRACE, CLOSE_BRACKET, 32, 9, 10, 13}
  }

  /** An integer when the digits fit and a delimiter follows, else what `strtod` makes
      of it. */
  function ParseNumber(s: Bytes): (p: Parsed<Value>)
    requires s != []
    ensures p.Ok? ==> |p.rest| < |s|
  {
    var sign := SignLength(s);
    var ds := TakeDigits(s[sign..]);
    if ds != [] && InInt64(IntValue(sign == 1, ds)) && Delimited(s[sign + |ds|..])
    then Ok(Int(IntValue(sign == 1, ds)), s[sign + |ds|..])
    else ParseFloat(s)
  }

  function ParseFloat(s: Bytes): (p: Parsed<Value>)
    ensures p.Ok? ==> |p.rest| < |s|
  {
    var n := FloatLength(s);
    if n == 0 || IsHexFloat(s) then Fail else Ok(Double(s[..n]), s[n..])
  }

  function ParseLiteral(s: Bytes, text: Bytes, value: Value): (p: Parsed<Value>)
    requires text != []
    ensures p.Ok? ==> |p.rest| < |s|
  {
    if |s| >= |text| && s[..|text|] == text then Ok(value, s[|text|..]) else Fail
  }

  function ParseValue(s: Bytes, budget: nat): (p: Parsed<Value>)
    ensures p.Ok? ==> |p.rest| < |s|
    decreases |s|, 0
  {
    var t := SkipSpace(s);
    if budget == 0 || t == [] then Fail
    else if t[0] == OPEN_BRACE then
      var u := SkipSpace(t[1..]);
      if u != [] && u[0] == CLOSE_BRACE then Ok(Object([]), u[1..]) else ParseFields(u, budget - 1, [])
    else if t[0] == OPEN_BRACKET then
      var u := SkipSpace(t[1..]);
      if u != [] && u[0] == CLOSE_BRACKET then Ok(Array([]), u[1..]) else ParseElems(u, budget - 1, [])
    else if t[0] == QUOTE then
      match ParseString(t[1..])
      case Fail => Fail
      case Ok(bytes, rest) => Ok(String(bytes), rest)
    else if t[0] == 116 then ParseLiteral(t, TRUE_TEXT, Bool(true))
    else if t[0] == 102 then ParseLiteral(t, FALSE_TEXT, Bool(false))
    else if t[0] == 110 then ParseLiteral(t, NULL_TEXT, Null)
    else if t[0] == MINUS || IsDigit(t[0]) then ParseNumber(t)
    else Fail
  }

  /** The elements from here to the closing bracket, added to those already read. */
  function ParseElems(s: Bytes, budget: nat, items: seq<Value>): (p: Parsed<Value>)
    ensures p.Ok? ==> |p.rest| < |s|
    decreases |s|, 1
  {
    match ParseValue(SkipSpace(s), budget)
    case Fail => Fail
    case Ok(v, rest) =>
      var r := SkipSpace(rest);
      if r == [] then Fail
      else if r[0] == COMMA then ParseElems(r[1..], budget, items + [v])
      else if r[0] == CLOSE_BRACKET then Ok(Array(items + [v]), r[1..])
      else Fail
  }

  /** A member's key and the colon after it. */
  function ParseKey(s: Bytes): (p: Parsed<Bytes>)
    ensures p.Ok? ==> |p.rest| < |s|
  {
    var t := SkipSpace(s);
    if t == [] || t[0] != QUOTE then Fail
    else
      match ParseString(t[1..])
      case Fail => Fail
      case Ok(key, rest) =>
        var r := SkipSpace(rest);
        if r == [] || r[0] != COLON then Fail else Ok(key, r[1..])
  }

  function ParseFields(s: Bytes, budget: nat, table: seq<Member>): (p: Parsed<Value>)
    ensures p.Ok? ==> |p.rest| < |s|
    decreases |s|, 1
  {
    match ParseKey(s)
    case Fail => Fail
    case Ok(key, afterKey) =>
      match ParseValue(SkipSpace(afterKey), budget)
      case Fail => Fail
      case Ok(v, rest) =>
        var r := SkipSpace(rest);
        if r == [] then Fail
        else if r[0] == COMMA then ParseFields(r[1..], budget, Put(table, key, v))
        else if r[0] == CLOSE_BRACE then Ok(Object(Put(table, key, v)), r[1..])
        else Fail
  }

  /** A whole text with at most `limit` levels of nesting. */
  function ParseWithin(text: Bytes, limit: nat): Option<Value>
  {
    match ParseValue(text, limit)
    case Fail => None
    case Ok(v, rest) => if SkipSpace(rest) == [] then Some(v) else None
  }

  function Parse(text: Bytes): Option<Value>
  {
    ParseWithin(text, MAX_DEPTH)
  }
}

/** Both directions between spelling and scanning, for white space, string literals
    and numbers: what is rendered is read back, and what is read was rendered. */
module JsonLexical {
  import opened Bytes
  import opened Json
  import opened JsonGrammar
  import opened JsonParse

  // ---------- white space ----------

  lemma {:induction false} SkipSpaceOver(ws: Bytes, s: Bytes)
    requires AllSpace(ws)
    ensures SkipSpace(ws + s) == SkipSpace(s)
  {
    if ws == [] {
      assert ws + s == s;
    } else {
      assert (ws + s)[1..] == ws[1..] + s;
      SkipSpaceOver(ws[1..], s);
    }
  }

  lemma {:induction false} SkippedSpace(s: Bytes) returns (ws: Bytes)
    ensures AllSpace(ws) && s == ws + SkipSpace(s)
  {
    if s != [] && IsSpace(s[0]) {
      var rest := SkippedSpace(s[1..]);
      ws := [s[0]] + rest;
      assert ws[1..] == rest;
      assert s == [s[0]] + s[1..];
    } else {
      ws := [];
    }
  }

  // ---------- string literals ----------

  lemma UnicodeComplete(c: Char, rest: Bytes)
    requires CharOk(c) && (c.Unit? || c.Pair?)
    ensures ParseUnicode((if c.Unit? then c.hex else c.high + [BACKSLASH, LETTER_U] + c.low) + rest)
         == Ok(CharBytes(c), rest)
  {
    hide AllHex, HexValue, Utf8;
    if c.Unit? {
      var s := c.hex + rest;
      assert s[..4] == c.hex && s[4..] == rest;
    } else {
      var s := c.high + [BACKSLASH, LETTER_U] + c.low + rest;
      var t := [BACKSLASH, LETTER_U] + c.low + rest;
      assert s[..4] == c.high && s[4..] == t;
      assert t[2..] == c.low + rest;
      assert t[2..][..4] == c.low && t[2..][4..] == rest;
    }
  }

  lemma CharComplete(c: Char, rest: Bytes)
    requires CharOk(c)
    ensures var s := RenderChar(c) + rest;
            s != [] && s[0] != QUOTE && ParseChar(s) == Ok(CharBytes(c), rest)
  {
    hide ParseUnicode, AllHex, HexValue, Utf8;
    var s := RenderChar(c) + rest;
    match c
    case Raw(b) => assert s[1..] == rest;
    case Escaped(letter) => assert s[2..] == rest;
    case Unit(hex) =>
      UnicodeComplete(c, rest);
      assert s[2..] == hex + rest;
    case Pair(high, low) =>
      UnicodeComplete(c, rest);
      assert s[2..] == high + [BACKSLASH, LETTER_U] + low + rest;
  }

  /** Well-formed characters in front of a literal's tail are read one by one. */
  lemma {:induction false} StringPrefix(cs: seq<Char>, s: Bytes)
    requires CharsOk(cs)
    ensures ParseString(RenderChars(cs) + s) == Prepend(CharsBytes(cs), ParseString(s))
  {
    if cs == [] {
      assert RenderChars(cs) + s == s;
      PrependNothing(ParseString(s));
    } else {
      hide CharOk, CharBytes, RenderChar, ParseChar;
      var tail := RenderChars(cs[1..]) + s;
      Associate(RenderChar(cs[0]), RenderChars(cs[1..]), s);
      CharComplete(cs[0], tail);
      StringPrefix(cs[1..], s);
      PrependTwice(CharBytes(cs[0]), CharsBytes(cs[1..]), ParseString(s));
    }
  }

  lemma PrependNothing(p: Parsed<Bytes>)
    ensures Prepend([], p) == p
  {
    if p.Ok? {
      assert [] + p.value == p.value;
    }
  }

  lemma PrependTwice(a: Bytes, b: Bytes, p: Parsed<Bytes>)
    ensures Prepend(a, Prepend(b, p)) == Prepend(a + b, p)
  {
    if p.Ok? {
      assert a + (b + p.value) == a + b + p.value;
    }
  }

  lemma StringComplete(cs: seq<Char>, rest: Bytes)
    requires CharsOk(cs)
    ensures ParseString(RenderChars(cs) + ([QUOTE] + rest)) == Ok(CharsBytes(cs), rest)
  {
    StringPrefix(cs, [QUOTE] + rest);
    assert ([QUOTE] + rest)[1..] == rest;
    assert CharsBytes(cs) + [] == CharsBytes(cs);
  }

  lemma UnicodeSound(s: Bytes) returns (c: Char)
    requires ParseUnicode(s).Ok?
    ensures CharOk(c) && CharBytes(c) == ParseUnicode(s).value
    ensures [BACKSLASH, LETTER_U] + s == RenderChar(c) + ParseUnicode(s).rest
  {
    hide AllHex, HexValue, Utf8;
    var cp, rest := ParseHex4(s).value, ParseHex4(s).rest;
    assert s == s[..4] + rest;
    if IsHigh(cp) {
      var t := rest[2..];
      assert rest == [BACKSLASH, LETTER_U] + t;
      assert t == t[..4] + t[4..];
      c := Pair(s[..4], t[..4]);
    } else {
      c := Unit(s[..4]);
    }
  }

  lemma CharSound(s: Bytes) returns (c: Char)
    requires s != [] && s[0] != QUOTE && ParseChar(s).Ok?
    ensures CharOk(c) && CharBytes(c) == ParseChar(s).value
    ensures s == RenderChar(c) + ParseChar(s).rest
  {
    if s[0] != BACKSLASH {
      c := Raw(s[0]);
    } else if s[1] == LETTER_U {
      hide ParseUnicode, CharOk, CharBytes, RenderChar;
      c := UnicodeSound(s[2..]);
      assert s == [BACKSLASH, LETTER_U] + s[2..];
    } else {
      c := Escaped(s[1]);
      assert s == [s[0], s[1]] + s[2..];
    }
  }

  lemma CharsCons(c: Char, cs: seq<Char>)
    requires CharOk(c) && CharsOk(cs)
    ensures CharsOk([c] + cs)
    ensures CharsBytes([c] + cs) == CharBytes(c) + CharsBytes(cs)
    ensures RenderChars([c] + cs) == RenderChar(c) + RenderChars(cs)
  {
    assert ([c] + cs)[1..] == cs;
  }

  lemma {:induction false} StringSound(s: Bytes) returns (cs: seq<Char>)
    requires ParseString(s).Ok?
    ensures CharsOk(cs) && CharsBytes(cs) == ParseString(s).value
    ensures s == RenderChars(cs) + ([QUOTE] + ParseString(s).rest)
    decreases |s|
  {
    if s[0] == QUOTE {
      cs := [];
      assert s == [QUOTE] + s[1..];
    } else {
      hide CharOk, CharBytes, RenderChar, ParseChar, CharsOk, CharsBytes, RenderChars;
      var c := CharSound(s);
      var rest := ParseChar(s).rest;
      var tail := StringSound(rest);
      cs := [c] + tail;
      CharsCons(c, tail);
      Associate(RenderChar(c), RenderChars(tail), [QUOTE] + ParseString(rest).rest);
    }
  }

  // ---------- numbers ----------

  predicate NoDigit(rest: Bytes)
  {
    rest == [] || !IsDigit(rest[0])
  }

  lemma {:induction false} TakeDigitsAppend(s: Bytes, rest: Bytes)
    requires NoDigit(rest)
    ensures TakeDigits(s + rest) == TakeDigits(s)
  {
    if s == [] {
      assert s + rest == rest;
    } else {
      assert (s + rest)[1..] == s[1..] + rest;
      TakeDigitsAppend(s[1..], rest);
    }
  }

  lemma {:induction false} TakeAllDigits(ds: Bytes)
    requires AllDigits(ds)
    ensures TakeDigits(ds) == ds
  {
    if ds != [] {
      TakeAllDigits(ds[1..]);
      assert ds == [ds[0]] + ds[1..];
    }
  }

  lemma FractionAppend(s: Bytes, rest: Bytes)
    requires Delimited(rest)
    ensures FractionLength(s + rest) == FractionLength(s)
  {
    if s == [] {
      assert s + rest == rest;
    } else {
      assert (s + rest)[1..] == s[1..] + rest;
      TakeDigitsAppend(s[1..], rest);
    }
  }

  lemma ExponentAppend(s: Bytes, rest: Bytes)
    requires Delimited(rest)
    ensures ExponentLength(s + rest) == ExponentLength(s)
  {
    hide TakeDigits;
    if s == [] {
      assert s + rest == rest;
    } else {
      assert (s + rest)[1..] == s[1..] + rest;
      TakeDigitsAppend(s[1..], rest);
      if |s| > 1 {
        assert (s + rest)[2..] == s[2..] + rest;
        TakeDigitsAppend(s[2..], rest);
      }
    }
  }

  /** A delimiter ends a decimal spelling. */
  lemma FloatLengthAppend(s: Bytes, rest: Bytes)
    requires s != [] && Delimited(rest)
    ensures FloatLength(s + rest) == FloatLength(s)
  {
    hide TakeDigits, FractionLength, ExponentLength;
    var sign := SignLength(s);
    assert SignLength(s + rest) == sign;
    assert (s + rest)[sign..] == s[sign..] + rest;
    TakeDigitsAppend(s[sign..], rest);
    var whole := |TakeDigits(s[sign..])|;
    assert (s + rest)[sign + whole..] == s[sign + whole..] + rest;
    FractionAppend(s[sign + whole..], rest);
    var mantissa := sign + whole + FractionLength(s[sign + whole..]);
    assert (s + rest)[mantissa..] == s[mantissa..] + rest;
    ExponentAppend(s[mantissa..], rest);
  }

  /** What reads as a hexadecimal number is longer than its decimal reading. */
  lemma HexIsNotDecimal(s: Bytes)
    requires IsHexFloat(s)
    ensures FloatLength(s) == SignLength(s) + 1 < |s|
  {
    var sign := SignLength(s);
    var t := s[sign..];
    assert t[0] == ZERO && !IsDigit(t[1]);
    assert TakeDigits(t[1..]) == [];
    assert TakeDigits(t) == [ZERO] + TakeDigits(t[1..]);
    assert s[sign + 1..][0] == s[sign + 1];
  }

  lemma IntComplete(negative: bool, ds: Bytes, rest: Bytes)
    requires TreeOk(TInt(negative, ds)) && Delimited(rest)
    ensures ParseNumber(WriteTree(TInt(negative, ds), rest)) == Ok(Int(IntValue(negative, ds)), rest)
  {
    hide TakeDigits, DigitsFrom, ParseFloat;
    var s := WriteTree(TInt(negative, ds), rest);
    var sign := if negative then 1 else 0;
    assert SignLength(s) == sign;
    assert s[sign..] == ds + rest;
    TakeDigitsAppend(ds, rest);
    TakeAllDigits(ds);
    assert s[sign + |ds|..] == rest;
  }

  lemma FloatIsNotHex(literal: Bytes, rest: Bytes)
    requires TreeOk(TFloat(literal)) && Delimited(rest)
    ensures !IsHexFloat(literal + rest)
  {
    hide TakeDigits, FloatLength;
    var s := literal + rest;
    FloatLengthAppend(literal, rest);
    if IsHexFloat(s) {
      HexIsNotDecimal(s);
      assert false;
    }
  }

  /** A literal that is no 64-bit integer is not taken for one. */
  lemma FloatIsNotInt(literal: Bytes, rest: Bytes)
    requires TreeOk(TFloat(literal)) && Delimited(rest)
    ensures var s := literal + rest;
            var sign := SignLength(s);
            var ds := TakeDigits(s[sign..]);
            ds == [] || !InInt64(IntValue(sign == 1, ds)) || !Delimited(s[sign + |ds|..])
  {
    hide TakeDigits, DigitsFrom, FloatLength;
    var s := literal + rest;
    var sign := SignLength(literal);
    assert s[sign..] == literal[sign..] + rest;
    TakeDigitsAppend(literal[sign..], rest);
    FloatCoversDigits(literal);
    var n := sign + |TakeDigits(literal[sign..])|;
    if n < |literal| {
      FloatGoesOn(literal);
      assert s[n..][0] == literal[n];
    }
  }

  lemma FloatComplete(literal: Bytes, rest: Bytes)
    requires TreeOk(TFloat(literal)) && Delimited(rest)
    ensures ParseNumber(literal + rest) == Ok(Double(literal), rest)
  {
    hide TakeDigits, DigitsFrom, FloatLength, IsHexFloat;
    FloatLengthAppend(literal, rest);
    FloatIsNotHex(literal, rest);
    FloatIsNotInt(literal, rest);
    assert (literal + rest)[..|literal|] == literal && (literal + rest)[|literal|..] == rest;
  }

  /** The first byte of a decimal spelling after its leading digits is a point or an
      exponent letter. */
  lemma FloatGoesOn(s: Bytes)
    requires var n := SignLength(s) + |TakeDigits(s[SignLength(s)..])|;
             n < |s| && FloatLength(s) == |s|
    ensures var n := SignLength(s) + |TakeDigits(s[SignLength(s)..])|;
            s[n] == 46 || s[n] == 101 || s[n] == 69
  {
    hide TakeDigits;
    var n := SignLength(s) + |TakeDigits(s[SignLength(s)..])|;
    assert s[n..][0] == s[n];
  }

  lemma FloatCoversDigits(s: Bytes)
    requires FloatLength(s) > 0
    ensures SignLength(s) + |TakeDigits(s[SignLength(s)..])| <= FloatLength(s)
  {
    hide TakeDigits, FractionLength, ExponentLength;
  }

  lemma CutTwice(s: Bytes, i: nat, n: nat)
    requires i + n <= |s|
    ensures s == s[..i] + (s[i..][..n] + s[i + n..])
  {
  }

  lemma IntSound(s: Bytes)
    requires var sign := SignLength(s);
             var ds := TakeDigits(s[sign..]);
             ds != [] && InInt64(IntValue(sign == 1, ds))
    ensures var sign := SignLength(s);
            var ds := TakeDigits(s[sign..]);
            TreeOk(TInt(sign == 1, ds)) && s == WriteTree(TInt(sign == 1, ds), s[sign + |ds|..])
  {
    var sign := SignLength(s);
    assert s[..sign] == if sign == 1 then [MINUS] else [];
    hide TakeDigits, DigitsFrom, SignLength;
    var ds := TakeDigits(s[sign..]);
    assert ds == s[sign..][..|ds|];
    CutTwice(s, sign, |ds|);
  }

  /** A decimal literal in front of a delimiter that is no 64-bit integer. */
  lemma LiteralIsNoInt(literal: Bytes, rest: Bytes)
    requires literal != [] && Delimited(rest) && IsIntLiteral(literal)
    ensures var s := literal + rest;
            var sign := SignLength(s);
            var ds := TakeDigits(s[sign..]);
            && ds != [] && InInt64(IntValue(sign == 1, ds))
            && sign + |ds| == |literal| && s[sign + |ds|..] == rest
  {
    hide TakeDigits, DigitsFrom;
    var sign := SignLength(literal);
    assert (literal + rest)[sign..] == literal[sign..] + rest;
    TakeDigitsAppend(literal[sign..], rest);
  }

  lemma FloatSound(s: Bytes)
    requires s != [] && (s[0] == MINUS || IsDigit(s[0]))
    requires var n := FloatLength(s);
             n > 0 && !IsHexFloat(s) && Delimited(s[n..]) && ParseNumber(s) == ParseFloat(s)
    ensures TreeOk(TFloat(s[..FloatLength(s)]))
  {
    hide TakeDigits, DigitsFrom, FloatLength;
    var n := FloatLength(s);
    var literal, rest := s[..n], s[n..];
    assert s == literal + rest;
    FloatLengthAppend(literal, rest);
    if IsIntLiteral(literal) {
      LiteralIsNoInt(literal, rest);
      assert false;
    }
  }

  /** A number that is read, with a delimiter after it, was spelled like one. */
  lemma NumberSound(s: Bytes) returns (t: Tree)
    requires s != [] && (s[0] == MINUS || IsDigit(s[0]))
    requires ParseNumber(s).Ok? && Delimited(ParseNumber(s).rest)
    ensures TreeOk(t) && TreeValue(t) == ParseNumber(s).value && TreeDepth(t) == 1
    ensures s == WriteTree(t, ParseNumber(s).rest)
  {
    hide TakeDigits, DigitsFrom, FloatLength, SignLength, IsHexFloat, IsIntLiteral;
    var sign := SignLength(s);
    var ds := TakeDigits(s[sign..]);
    if ds != [] && InInt64(IntValue(sign == 1, ds)) && Delimited(s[sign + |ds|..]) {
      t := TInt(sign == 1, ds);
      IntSound(s);
    } else {
      t := TFloat(s[..FloatLength(s)]);
      assert s == s[..FloatLength(s)] + s[FloatLength(s)..];
      FloatSound(s);
    }
  }
}

/** The letters of the text itself: which byte a two-character escape stands for, what
    hexadecimal digits are worth, which bytes are white space, and a text byte by byte.
    All of it is said with the parser's results, on any text around it. */
module JsonEscapes {
  import opened Bytes
  import opened Json
  import opened JsonGrammar
  import opened JsonParse
  import opened JsonLexical
  import opened JsonComplete
  import opened JsonSound
  import opened JsonText

  // ---------- two-character escapes ----------

  /** A letter after the backslash and the four digits of the code point it stands for. */
  datatype Short = Short(letter: Byte, hex: Bytes)

  /** The table of section 7 of RFC 8259. */
  const SHORT_ESCAPES: seq<Short> := [
    Short(34, [48, 48, 50, 50]),    // quotation mark   \u0022
    Short(92, [48, 48, 53, 67]),    // reverse solidus  \u005C
    Short(47, [48, 48, 50, 70]),    // solidus          \u002F
    Short(98, [48, 48, 48, 56]),    // b  backspace     \u0008
    Short(102, [48, 48, 48, 67]),   // f  form feed     \u000C
    Short(110, [48, 48, 48, 65]),   // n  line feed     \u000A
    Short(114, [48, 48, 48, 68]),   // r  return        \u000D
    Short(116, [48, 48, 48, 57])]   // t  tab           \u0009

  /** A backslash and one letter. */
  lemma AfterLetter(letter: Byte, rest: Bytes)
    requires letter != LETTER_U
    ensures ParseString([BACKSLASH, letter] + rest) ==
              if Unescape(letter).None? then Fail else Prepend([Unescape(letter).value], ParseString(rest))
  {
    var s := [BACKSLASH, letter] + rest;
    assert s[2..] == rest;
  }

  /** A backslash, a `u` and four digits that spell an ASCII character. */
  lemma AfterUnit(hex: Bytes, rest: Bytes)
    requires FourHex(hex) && HexValue(hex) < 0x80
    ensures ParseString([BACKSLASH, LETTER_U] + hex + rest) == Prepend([HexValue(hex)], ParseString(rest))
  {
    hide AllHex, HexValue;
    var s := [BACKSLASH, LETTER_U] + hex + rest;
    assert s[2..] == hex + rest;
    assert s[2..][..4] == hex && s[2..][4..] == rest;
    assert ParseUnicode(s[2..]) == Ok([HexValue(hex)], rest);
  }

  /** What four digits are worth, each given by its value. */
  predicate Worth(h: Bytes, a: nat, b: nat, c: nat, d: nat)
  {
    && |h| == 4 && IsHex(h[0]) && IsHex(h[1]) && IsHex(h[2]) && IsHex(h[3])
    && HexDigit(h[0]) == a && HexDigit(h[1]) == b && HexDigit(h[2]) == c && HexDigit(h[3]) == d
  }

  lemma FourDigits(h: Bytes, a: nat, b: nat, c: nat, d: nat)
    requires Worth(h, a, b, c, d)
    ensures FourHex(h) && HexValue(h) == ((a * 16 + b) * 16 + c) * 16 + d
  {
    var h3, h2, h1 := h[..3], h[..2], h[..1];
    assert h3[..2] == h2 && h2[..1] == h1 && h1[..0] == [];
    assert AllHex(h1) && AllHex(h2) && AllHex(h3);
    assert HexValue(h1) == a;
    assert HexValue(h2) == a * 16 + b;
    assert HexValue(h3) == (a * 16 + b) * 16 + c;
  }

  lemma TableIsRight(i: nat)
    requires i < |SHORT_ESCAPES|
    ensures var short := SHORT_ESCAPES[i];
            && short.letter != LETTER_U
            && FourHex(short.hex) && HexValue(short.hex) < 0x80
            && Unescape(short.letter) == Some(HexValue(short.hex))
  {
    var h := SHORT_ESCAPES[i].hex;
    hide HexValue, AllHex, FourHex;
    FourDigits(h, 0, 0, HexDigit(h[2]), HexDigit(h[3]));
  }

  /** After any well-formed beginning of a literal and whatever comes later, an escape of
      the table reads exactly as the \u escape beside it. */
  lemma ShortEscapes(cs: seq<Char>, i: nat, rest: Bytes)
    requires CharsOk(cs) && i < |SHORT_ESCAPES|
    ensures var short := SHORT_ESCAPES[i];
            ParseString(RenderChars(cs) + ([BACKSLASH, short.letter] + rest))
            == ParseString(RenderChars(cs) + ([BACKSLASH, LETTER_U] + short.hex + rest))
  {
    var short := SHORT_ESCAPES[i];
    TableIsRight(i);
    hide *;
    StringPrefix(cs, [BACKSLASH, short.letter] + rest);
    StringPrefix(cs, [BACKSLASH, LETTER_U] + short.hex + rest);
    AfterLetter(short.letter, rest);
    AfterUnit(short.hex, rest);
  }

  /** And there are no other escapes: any other letter makes the literal fail. */
  lemma OtherEscapesFail(cs: seq<Char>, letter: Byte, rest: Bytes)
    requires CharsOk(cs) && letter != LETTER_U
    requires forall i :: 0 <= i < |SHORT_ESCAPES| ==> SHORT_ESCAPES[i].letter != letter
    ensures ParseString(RenderChars(cs) + ([BACKSLASH, letter] + rest)) == Fail
  {
    var t := SHORT_ESCAPES;
    assert letter !in [t[0].letter, t[1].letter, t[2].letter, t[3].letter,
                       t[4].letter, t[5].letter, t[6].letter, t[7].letter];
    assert Unescape(letter).None?;
    hide CharsOk, RenderChars, CharsBytes, ParseString, Unescape;
    StringPrefix(cs, [BACKSLASH, letter] + rest);
    AfterLetter(letter, rest);
  }

  /** Any other byte stands for itself, unless it is a control character: that makes the
      literal fail. */
  lemma PlainBytes(cs: seq<Char>, b: Byte, rest: Bytes)
    requires CharsOk(cs) && b != 34 && b != 92
    ensures ParseString(RenderChars(cs) + ([b] + rest)) ==
              if b < 32 then Fail else Prepend(CharsBytes(cs), Prepend([b], ParseString(rest)))
  {
    assert ([b] + rest)[1..] == rest;
    hide CharsOk, CharsBytes, RenderChars;
    StringPrefix(cs, [b] + rest);
  }

  // ---------- hexadecimal digits ----------

  const LOWER_DIGITS: Bytes := [48, 49, 50, 51, 52, 53, 54, 55, 56, 57, 97, 98, 99, 100, 101, 102]
  const UPPER_DIGITS: Bytes := [48, 49, 50, 51, 52, 53, 54, 55, 56, 57, 65, 66, 67, 68, 69, 70]

  predicate Stands(letter: Byte, d: nat)
  {
    d < 16 && (letter == LOWER_DIGITS[d] || letter == UPPER_DIGITS[d])
  }

  lemma DigitIs(letter: Byte)
    ensures forall d :: Stands(letter, d) <==> IsHex(letter) && HexDigit(letter) == d
  {
    if IsHex(letter) {
      assert Stands(letter, HexDigit(letter));
    }
  }

  /** Four digits in either case name the code point with that value in base 16, the
      first digit counting most. */
  lemma HexEscape(cs: seq<Char>, h: Bytes, a: nat, b: nat, c: nat, d: nat, rest: Bytes)
    requires CharsOk(cs)
    requires |h| == 4 && Stands(h[0], a) && Stands(h[1], b) && Stands(h[2], c) && Stands(h[3], d)
    requires var cp := a * 4096 + b * 256 + c * 16 + d; !IsHigh(cp) && !IsLow(cp)
    ensures ParseString(RenderChars(cs) + ([BACKSLASH, LETTER_U] + h + rest))
         == Prepend(CharsBytes(cs), Prepend(Utf8(a * 4096 + b * 256 + c * 16 + d), ParseString(rest)))
  {
    DigitIs(h[0]);
    DigitIs(h[1]);
    DigitIs(h[2]);
    DigitIs(h[3]);
    FourDigits(h, a, b, c, d);
    hide *;
    StringPrefix(cs, [BACKSLASH, LETTER_U] + h + rest);
    AfterHex(h, a * 4096 + b * 256 + c * 16 + d, rest);
  }

  lemma AfterHex(h: Bytes, cp: nat, rest: Bytes)
    requires FourHex(h) && HexValue(h) == cp < 0x10000 && !IsHigh(cp) && !IsLow(cp)
    ensures ParseString([BACKSLASH, LETTER_U] + h + rest) == Prepend(Utf8(cp), ParseString(rest))
  {
    hide AllHex, HexValue, Utf8;
    var s := [BACKSLASH, LETTER_U] + h + rest;
    assert s[2..] == h + rest;
    assert s[2..][..4] == h && s[2..][4..] == rest;
    assert ParseUnicode(s[2..]) == Ok(Utf8(cp), rest);
  }

  /** With any other byte among the four, or with fewer left, the literal fails. */
  lemma OtherDigitsFail(cs: seq<Char>, i: nat, rest: Bytes)
    requires CharsOk(cs) && i < 4
    requires i < |rest| ==> forall d :: !Stands(rest[i], d)
    ensures ParseString(RenderChars(cs) + ([BACKSLASH, LETTER_U] + rest)) == Fail
  {
    var s := [BACKSLASH, LETTER_U] + rest;
    assert s[2..] == rest;
    hide CharsOk, CharsBytes, RenderChars;
    StringPrefix(cs, s);
    if |rest| >= 4 {
      DigitIs(rest[i]);
      assert IsHex(rest[i]) ==> Stands(rest[i], HexDigit(rest[i]));
      NotAllHex(rest[..4], i);
    }
    hide AllHex, Stands;
    assert ParseUnicode(rest) == Fail;
    assert ParseChar(s) == Fail;
  }

  lemma {:induction false} NotAllHex(h: Bytes, i: nat)
    requires i < |h| && !IsHex(h[i])
    ensures !AllHex(h)
  {
    if i < |h| - 1 {
      NotAllHex(h[..|h| - 1], i);
    }
  }

  // ---------- white space, and a text byte by byte ----------

  /** A byte may stand in front of any text without changing what it means exactly when
      it is a space, a tab, a line feed or a return. */
  lemma WhiteSpaceIs(b: Byte)
    ensures (forall text: Bytes :: Parse([b] + text) == Parse(text)) <==> b == 32 || b == 9 || b == 10 || b == 13
  {
    if IsSpace(b) {
      forall text: Bytes
        ensures Parse([b] + text) == Parse(text)
      {
        SpaceInFront(b, text);
      }
    } else {
      NoSpaceInFront(b);
    }
  }

  lemma SpaceInFront(b: Byte, text: Bytes)
    requires IsSpace(b)
    ensures Parse([b] + text) == Parse(text)
  {
    assert ([b] + text)[1..] == text;
    SameValue([b] + text, text, MAX_DEPTH);
  }

  lemma SameValue(s: Bytes, t: Bytes, budget: nat)
    requires SkipSpace(s) == SkipSpace(t)
    ensures ParseValue(s, budget) == ParseValue(t, budget)
  {
    hide SkipSpace, ParseFields, ParseElems, ParseString, ParseNumber, ParseLiteral;
  }

  /** A spelling of null begins with its first two letters, or with white space. */
  lemma NullSpelled(d: Doc)
    requires DocOk(d) && TreeValue(d.tree) == Null
    ensures var text := RenderDoc(d);
            |text| >= 4 && (IsSpace(text[0]) || (text[0] == 110 && text[1] == 117))
  {
    assert d.tree == TNull;
    assert RenderDoc(d) == d.before + (NULL_TEXT + d.after);
  }

  lemma NoSpaceInFront(b: Byte)
    requires !IsSpace(b)
    ensures Parse(NULL_TEXT) == Some(Null)
    ensures Parse([b] + NULL_TEXT) != Some(Null)
  {
    assert SkipSpace(NULL_TEXT) == NULL_TEXT && NULL_TEXT[4..] == [];
    var text := [b] + NULL_TEXT;
    if Parse(text) == Some(Null) {
      hide ParseValue, ParseWithin, WriteTree, TreeValue, TreeOk;
      var d := DocSound(text, MAX_DEPTH);
      NullSpelled(d);
    }
  }

  // ---------- the text of a value ----------

  /** The three words of the language. */
  lemma WordsAre()
    ensures Parse([110, 117, 108, 108]) == Some(Null) && Text(Null) == [110, 117, 108, 108]
    ensures Parse([116, 114, 117, 101]) == Some(Bool(true)) && Text(Bool(true)) == [116, 114, 117, 101]
    ensures Parse([102, 97, 108, 115, 101]) == Some(Bool(false)) && Text(Bool(false)) == [102, 97, 108, 115, 101]
  {
    hide ParseWithin;
    ParseText(Null);
    ParseText(Bool(true));
    ParseText(Bool(false));
  }

  /** Numbers are decimal: one digit is its letter, another digit goes at the end and makes
      what stands before it count ten times, and a minus goes in front. */
  lemma DecimalText(n: int, d: nat)
    requires n >= 0 && d < 10 && 10 * n + d < 0x8000_0000_0000_0000
    ensures Text(Int(d)) == [48 + d] && Parse([48 + d]) == Some(Int(d))
    ensures n > 0 ==> Text(Int(10 * n + d)) == Text(Int(n)) + [48 + d]
    ensures n > 0 ==> Text(Int(-n)) == [45] + Text(Int(n))
    ensures Parse(Text(Int(10 * n + d))) == Some(Int(10 * n + d))
  {
    hide ParseWithin;
    ParseText(Int(d));
    ParseText(Int(10 * n + d));
  }

  /** Decimal digits are an integer when it fits into 64 bits, and a double otherwise. */
  lemma IntegerRange(n: int)
    ensures Parse(IntText(n)) ==
              Some(if -0x8000_0000_0000_0000 <= n <= 0x7FFF_FFFF_FFFF_FFFF then Int(n) else Double(IntText(n)))
  {
    var magnitude := if n < 0 then -n else n;
    var ds, text := Digits(magnitude), IntText(n);
    DigitsRoundTrip(magnitude);
    TakeAllDigits(ds);
    assert IsDigit(ds[0]);
    hide Digits, DigitsValue, DigitsFrom, ParseWithin;
    assert SignLength(text) == if n < 0 then 1 else 0;
    assert text[SignLength(text)..] == ds;
    assert text[|text|..] == [];
    if InInt64(n) {
      ParseText(Int(n));
    } else {
      hide TakeDigits;
      assert FloatLength(text) == |text|;
      assert TreeOk(TFloat(text));
      assert RenderDoc(Doc([], TFloat(text), [])) == text;
      DocComplete(Doc([], TFloat(text), []), MAX_DEPTH);
    }
  }

  /** The only texts of one byte are the ten digits. */
  lemma OneByteTexts(b: Byte)
    ensures Parse([b]).Some? <==> 48 <= b <= 57
  {
    if 48 <= b <= 57 {
      DecimalText(0, b as int - 48);
    } else {
      assert [b][1..] == [];
    }
  }

  /** Parts with a comma between any two. */
  function Joined(parts: seq<Bytes>): Bytes
  {
    if parts == [] then []
    else if |parts| == 1 then parts[0]
    else parts[0] + [44] + Joined(parts[1..])
  }

  lemma {:induction false} ItemsJoined(items: seq<Value>, parts: seq<Bytes>)
    requires PlainItems(items) && |parts| == |items|
    requires forall i :: 0 <= i < |items| ==> Plain(items[i]) && parts[i] == Text(items[i])
    ensures ItemsText(items, false) == Joined(parts)
    ensures ItemsText(items, true) == if items == [] then [] else [44] + Joined(parts)
  {
    hide Text, Plain;
    if items != [] {
      ItemsJoined(items[1..], parts[1..]);
      assert Joined([parts[0]]) == parts[0];
    }
  }

  /** An array is written as its items between brackets with commas and nothing else. */
  lemma ListText(items: seq<Value>, parts: seq<Bytes>)
    requires PlainItems(items) && |parts| == |items|
    requires forall i :: 0 <= i < |items| ==> Plain(items[i]) && parts[i] == Text(items[i])
    ensures Text(Array(items)) == [91] + Joined(parts) + [93]
  {
    ItemsJoined(items, parts);
    hide ItemsText, Joined;
  }

  lemma {:induction false} MembersJoined(members: seq<Member>, parts: seq<Bytes>)
    requires PlainMembers(members) && |parts| == |members|
    requires forall i :: 0 <= i < |members| ==>
               Plain(members[i].value)
               && parts[i] == Text(String(members[i].key)) + [58] + Text(members[i].value)
    ensures MembersText(members, false) == Joined(parts)
    ensures MembersText(members, true) == if members == [] then [] else [44] + Joined(parts)
  {
    if members != [] {
      MemberIs(members[0]);
      hide Text, Plain, MemberText;
      MembersJoined(members[1..], parts[1..]);
      assert parts[0] == MemberText(members[0]);
      assert Joined([parts[0]]) == parts[0];
    }
  }

  lemma MemberIs(m: Member)
    requires Plain(m.value)
    ensures MemberText(m) == Text(String(m.key)) + [58] + Text(m.value)
  {
    hide StringText, Plain;
  }

  /** An object is written as its members between braces with commas and nothing else, a
      colon between each key and its value. */
  lemma TableText(members: seq<Member>, parts: seq<Bytes>)
    requires PlainMembers(members) && |parts| == |members|
    requires forall i :: 0 <= i < |members| ==>
               Plain(members[i].value)
               && parts[i] == Text(String(members[i].key)) + [58] + Text(members[i].value)
    ensures Text(Object(members)) == [123] + Joined(parts) + [125]
  {
    MembersJoined(members, parts);
    hide MembersText, Joined;
  }

  /** A control character without a two-character escape is written as a \u escape with
      lower-case digits. */
  lemma ControlText(b: Byte)
    requires b < 32
    requires forall i :: 0 <= i < |SHORT_ESCAPES| ==>
               SHORT_ESCAPES[i].hex != [48, 48, UPPER_DIGITS[b / 16], UPPER_DIGITS[b % 16]]
    ensures Text(String([b])) == [34, 92, 117, 48, 48, LOWER_DIGITS[b / 16], LOWER_DIGITS[b % 16], 34]
  {
    var t := SHORT_ESCAPES;
    assert t[3].hex[3] == 56 && t[4].hex[3] == 67 && t[5].hex[3] == 65 && t[6].hex[3] == 68 && t[7].hex[3] == 57;
    ControlEscape(b);
    hide *;
    OneByteText(b);
  }

  lemma ControlEscape(b: Byte)
    requires b < 32 && b != 8 && b != 12 && b != 10 && b != 13 && b != 9
    ensures EscapeText(b) == [92, 117, 48, 48, LOWER_DIGITS[b / 16], LOWER_DIGITS[b % 16]]
  {
  }

  lemma OneByteText(b: Byte)
    ensures Text(String([b])) == [34] + EscapeText(b) + [34]
  {
    hide EscapeText;
    assert [b][1..] == [];
    assert EscapedText([b]) == EscapeText(b) + EscapedText([]);
  }
}

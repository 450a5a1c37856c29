/** Escaped code points: the string parser turns them into UTF-8 (RFC 3629, section 3)
    and refuses surrogates that do not come in pairs. */
module Unicode {
  import opened Bytes
  import opened Json
  import opened JsonGrammar
  import opened JsonParse
  import opened JsonLexical
  import opened JsonComplete

  predicate IsScalar(cp: nat)
  {
    cp < 0x110000 && !IsHigh(cp) && !IsLow(cp)
  }

  predicate AllScalar(cps: seq<nat>)
  {
    cps == [] || (IsScalar(cps[0]) && AllScalar(cps[1..]))
  }

  function Utf8All(cps: seq<nat>): Bytes
    requires AllScalar(cps)
  {
    if cps == [] then [] else Utf8(cps[0]) + Utf8All(cps[1..])
  }

  predicate IsTail(b: Byte)
  {
    0x80 <= b < 0xC0
  }

  /** The code point at the front of a UTF-8 text and its length, if there is one:
      shortest form only, no surrogates, nothing above U+10FFFF. */
  function DecodeFirst(s: Bytes): Option<(nat, nat)>
  {
    if s == [] then None
    else if s[0] < 0x80 then Some((s[0] as nat, 1))
    else if 0xC0 <= s[0] < 0xE0 && |s| >= 2 && IsTail(s[1]) then
      var cp := (s[0] as int - 0xC0) * 64 + (s[1] as int - 0x80);
      if cp < 0x80 then None else Some((cp, 2))
    else if 0xE0 <= s[0] < 0xF0 && |s| >= 3 && IsTail(s[1]) && IsTail(s[2]) then
      var cp := (s[0] as int - 0xE0) * 4096 + (s[1] as int - 0x80) * 64 + (s[2] as int - 0x80);
      if cp < 0x800 || !IsScalar(cp) then None else Some((cp, 3))
    else if 0xF0 <= s[0] < 0xF8 && |s| >= 4 && IsTail(s[1]) && IsTail(s[2]) && IsTail(s[3]) then
      var cp := (s[0] as int - 0xF0) * 262144 + (s[1] as int - 0x80) * 4096
        + (s[2] as int - 0x80) * 64 + (s[3] as int - 0x80);
      if cp < 0x10000 || !IsScalar(cp) then None else Some((cp, 4))
    else None
  }

  function DecodeUtf8(s: Bytes): Option<seq<nat>>
    decreases |s|
  {
    if s == [] then Some([])
    else
      var first := DecodeFirst(s);
      if first.None? || first.value.1 > |s| || first.value.1 == 0 then None
      else
        var later := DecodeUtf8(s[first.value.1..]);
        if later.None? then None else Some([first.value.0] + later.value)
  }

  lemma DecodeExact(cp: nat)
    requires IsScalar(cp)
    ensures DecodeFirst(Utf8(cp)) == Some((cp, |Utf8(cp)|))
  {
    var a, b, c, d := cp / 64 / 64 / 64, cp / 64 / 64 % 64, cp / 64 % 64, cp % 64;
    assert cp / 64 / 64 == a * 64 + b;
    assert cp / 64 == (a * 64 + b) * 64 + c;
  }

  /** What follows a complete code point does not matter. */
  lemma DecodeParts(s: Bytes, tail: Bytes)
    requires DecodeFirst(s).Some?
    ensures DecodeFirst(s + tail) == DecodeFirst(s)
  {
    assert (s + tail)[0] == s[0];
    assert |s| > 1 ==> (s + tail)[1] == s[1];
    assert |s| > 2 ==> (s + tail)[2] == s[2];
    assert |s| > 3 ==> (s + tail)[3] == s[3];
  }

  lemma DecodeOne(cp: nat, tail: Bytes)
    requires IsScalar(cp)
    ensures Utf8(cp) != []
    ensures DecodeFirst(Utf8(cp) + tail) == Some((cp, |Utf8(cp)|))
  {
    DecodeExact(cp);
    DecodeParts(Utf8(cp), tail);
  }

  /** UTF-8 loses nothing. */
  lemma {:induction false} Utf8RoundTrip(cps: seq<nat>)
    requires AllScalar(cps)
    ensures DecodeUtf8(Utf8All(cps)) == Some(cps)
  {
    if cps != [] {
      hide Utf8, IsScalar, DecodeFirst;
      var tail := Utf8All(cps[1..]);
      DecodeOne(cps[0], tail);
      Utf8RoundTrip(cps[1..]);
      assert (Utf8(cps[0]) + tail)[|Utf8(cps[0])|..] == tail;
      assert cps == [cps[0]] + cps[1..];
    }
  }

  /** The code point an escape spells. */
  function ScalarOf(c: Char): (cp: nat)
    requires CharOk(c) && (c.Unit? || c.Pair?)
    ensures IsScalar(cp)
  {
    if c.Unit? then HexValueBound(c.hex); HexValue(c.hex) else PairValue(HexValue(c.high), HexValue(c.low))
  }

  predicate AllEscapes(cs: seq<Char>)
  {
    cs == [] || (CharOk(cs[0]) && (cs[0].Unit? || cs[0].Pair?) && AllEscapes(cs[1..]))
  }

  function ScalarsOf(cs: seq<Char>): (cps: seq<nat>)
    requires AllEscapes(cs)
    ensures AllScalar(cps)
  {
    if cs == [] then []
    else
      var cps := [ScalarOf(cs[0])] + ScalarsOf(cs[1..]);
      assert cps[1..] == ScalarsOf(cs[1..]);
      cps
  }

  lemma {:induction false} EscapesAreUtf8(cs: seq<Char>)
    requires AllEscapes(cs)
    ensures CharsOk(cs) && CharsBytes(cs) == Utf8All(ScalarsOf(cs))
  {
    if cs != [] {
      hide Utf8, HexValue, AllHex;
      EscapesAreUtf8(cs[1..]);
      assert ScalarsOf(cs)[1..] == ScalarsOf(cs[1..]);
    }
  }

  /** A literal spelled with \u escapes only, in any mixture of hexadecimal letters,
      parses to exactly the UTF-8 bytes of the spelled code points, and those bytes
      decode back to the code points. */
  lemma EscapedLiteral(cs: seq<Char>)
    requires AllEscapes(cs)
    ensures Parse(RenderDoc(Doc([], TString(cs), []))) == Some(String(Utf8All(ScalarsOf(cs))))
    ensures DecodeUtf8(Utf8All(ScalarsOf(cs))) == Some(ScalarsOf(cs))
  {
    hide Utf8All, ScalarsOf, ParseWithin, CharsOk, CharsBytes, WriteTree, DecodeUtf8;
    EscapesAreUtf8(cs);
    DocComplete(Doc([], TString(cs), []), MAX_DEPTH);
    Utf8RoundTrip(ScalarsOf(cs));
  }

  function Hex4(n: nat): (h: Bytes)
    requires n < 0x10000
    ensures |h| == 4
  {
    [HexLetter(n / 16 / 16 / 16), HexLetter(n / 16 / 16 % 16), HexLetter(n / 16 % 16), HexLetter(n % 16)]
  }

  function HexLetter(d: nat): (b: Byte)
    requires d < 16
    ensures IsHex(b) && HexDigit(b) == d
  {
    if d < 10 then 48 + d else 55 + d
  }

  lemma Hex4RoundTrip(n: nat)
    requires n < 0x10000
    ensures FourHex(Hex4(n)) && HexValue(Hex4(n)) == n
  {
    var h := Hex4(n);
    var h3, h2, h1 := h[..3], h[..2], h[..1];
    assert h3[..2] == h2 && h2[..1] == h1 && h1[..0] == [];
    assert AllHex(h1) && AllHex(h2) && AllHex(h3);
    assert HexValue(h1) == n / 16 / 16 / 16;
    assert HexValue(h2) == n / 16 / 16;
    assert HexValue(h3) == n / 16;
  }

  /** Every code point has such a spelling. */
  function Spell(cp: nat): (c: Char)
    requires IsScalar(cp)
    ensures CharOk(c) && (c.Unit? || c.Pair?) && ScalarOf(c) == cp
  {
    if cp < 0x10000 then
      Hex4RoundTrip(cp);
      Unit(Hex4(cp))
    else
      var high, low := 0xD800 + (cp - 0x10000) / 1024, 0xDC00 + (cp - 0x10000) % 1024;
      Hex4RoundTrip(high);
      Hex4RoundTrip(low);
      Pair(Hex4(high), Hex4(low))
  }

  /** The text goes on with an escaped low surrogate. */
  predicate LowFollows(rest: Bytes)
  {
    && |rest| >= 6 && rest[0] == BACKSLASH && rest[1] == LETTER_U
    && AllHex(rest[2..][..4]) && IsLow(HexValue(rest[2..][..4]))
  }

  /** After any well-formed beginning, a lone low surrogate or a high surrogate without
      its low one makes the literal fail, whatever comes later. */
  lemma LoneSurrogateFails(cs: seq<Char>, hex: Bytes, rest: Bytes)
    requires CharsOk(cs) && FourHex(hex)
    requires IsLow(HexValue(hex)) || (IsHigh(HexValue(hex)) && !LowFollows(rest))
    ensures ParseString(RenderChars(cs) + ([BACKSLASH, LETTER_U] + hex + rest)) == Fail
  {
    hide AllHex, HexValue, Utf8;
    var s := [BACKSLASH, LETTER_U] + hex + rest;
    StringPrefix(cs, s);
    assert s[2..] == hex + rest;
    assert s[2..][..4] == hex && s[2..][4..] == rest;
    assert ParseUnicode(s[2..]) == Fail;
    assert ParseChar(s) == Fail;
  }
}

/** Which numbers the parser reads, and which of them are numbers of RFC 8259. */
module JsonNumbers {
  import opened Bytes
  import opened Json
  import opened JsonGrammar
  import opened JsonParse
  import opened JsonLexical

  const POINT: Byte := 46
  const PLUS: Byte := 43

  /** A number taken apart. */
  datatype Number = Number(minus: bool, whole: Bytes, fraction: Bytes, exponent: Bytes)

  function Spelling(n: Number): Bytes
  {
    (if n.minus then [MINUS] else []) + (n.whole + (n.fraction + n.exponent))
  }

  /** A point and any digits. */
  predicate IsFraction(f: Bytes)
  {
    f != [] && f[0] == POINT && AllDigits(f[1..])
  }

  /** The letter, perhaps a sign, and at least one digit. */
  predicate IsExponent(e: Bytes)
  {
    && |e| >= 2 && (e[0] == 101 || e[0] == 69)
    && (AllDigits(e[1..]) || ((e[1] == MINUS || e[1] == PLUS) && |e| >= 3 && AllDigits(e[2..])))
  }

  /** The numbers of the parser: digits on at least one side of the point, any number of
      leading zeros. */
  predicate IsLoose(n: Number)
  {
    && AllDigits(n.whole)
    && (n.fraction == [] || IsFraction(n.fraction))
    && (n.exponent == [] || IsExponent(n.exponent))
    && (n.whole != [] || |n.fraction| >= 2)
  }

  /** The numbers of section 6 of RFC 8259: an optional minus; one digit, or digits of
      which the first is not zero; an optional point followed by at least one digit; an
      optional exponent with at least one digit. */
  predicate IsRfc(n: Number)
  {
    && AllDigits(n.whole) && (|n.whole| == 1 || (|n.whole| > 1 && n.whole[0] != ZERO))
    && (n.fraction == [] || (IsFraction(n.fraction) && |n.fraction| >= 2))
    && (n.exponent == [] || IsExponent(n.exponent))
  }

  ghost predicate LooseNumber(s: Bytes)
  {
    exists n :: IsLoose(n) && Spelling(n) == s
  }

  ghost predicate RfcNumber(s: Bytes)
  {
    exists n :: IsRfc(n) && Spelling(n) == s
  }

  /** The parser's number reading takes all of s. */
  predicate ReadsAll(s: Bytes)
  {
    s != [] && ParseNumber(s).Ok? && ParseNumber(s).rest == []
  }

  /** What sets the standard's numbers apart: a digit comes first after the sign, no zero
      stands there in front of another digit, and every point is followed by a digit. */
  predicate InStandardForm(s: Bytes)
  {
    var i := SignLength(s);
    && i < |s| && IsDigit(s[i])
    && !(s[i] == ZERO && i + 1 < |s| && IsDigit(s[i + 1]))
    && forall k :: 0 <= k < |s| && s[k] == POINT ==> k + 1 < |s| && IsDigit(s[k + 1])
  }

  // ---------- how the scanner takes a spelling apart ----------

  lemma {:induction false} AllDigitsAt(ds: Bytes, i: nat)
    requires AllDigits(ds) && i < |ds|
    ensures IsDigit(ds[i])
  {
    if i > 0 {
      AllDigitsAt(ds[1..], i - 1);
    }
  }

  lemma FractionIs(n: Number)
    requires IsLoose(n)
    ensures FractionLength(n.fraction + n.exponent) == |n.fraction|
    ensures NoDigit(n.fraction + n.exponent)
  {
    if n.fraction == [] {
      assert n.fraction + n.exponent == n.exponent;
    } else {
      assert (n.fraction + n.exponent)[1..] == n.fraction[1..] + n.exponent;
      TakeDigitsAppend(n.fraction[1..], n.exponent);
      TakeAllDigits(n.fraction[1..]);
    }
  }

  lemma ExponentIs(e: Bytes)
    requires e == [] || IsExponent(e)
    ensures ExponentLength(e) == |e|
  {
    if e != [] {
      if AllDigits(e[1..]) {
        AllDigitsAt(e[1..], 0);
        TakeAllDigits(e[1..]);
      } else {
        TakeAllDigits(e[2..]);
      }
    }
  }

  lemma SignIs(n: Number)
    requires IsLoose(n)
    ensures Spelling(n) != []
    ensures SignLength(Spelling(n)) == if n.minus then 1 else 0
    ensures Spelling(n)[SignLength(Spelling(n))..] == n.whole + (n.fraction + n.exponent)
  {
    if !n.minus && n.whole != [] {
      AllDigitsAt(n.whole, 0);
    }
  }

  /** Where the parts stand, on plain byte strings. */
  lemma Tails(s: Bytes, at: nat, whole: Bytes, fraction: Bytes, exponent: Bytes)
    requires at <= |s| && s[at..] == whole + (fraction + exponent)
    ensures at + |whole| + |fraction| <= |s| == at + |whole| + |fraction| + |exponent|
    ensures s[at + |whole|..] == fraction + exponent
    ensures s[at + |whole| + |fraction|..] == exponent
  {
    var rest := fraction + exponent;
    assert s[at..][|whole|..] == rest;
    assert rest[|fraction|..] == exponent;
    assert s[at + |whole|..] == s[at..][|whole|..];
    assert s[at + |whole| + |fraction|..] == s[at + |whole|..][|fraction|..];
  }

  lemma FloatLengthOf(s: Bytes, whole: Bytes, fraction: Bytes, exponent: Bytes)
    requires s[SignLength(s)..] == whole + (fraction + exponent)
    requires TakeDigits(whole + (fraction + exponent)) == whole
    requires FractionLength(fraction + exponent) == |fraction| && ExponentLength(exponent) == |exponent|
    requires whole != [] || |fraction| >= 2
    ensures FloatLength(s) == |s|
  {
    hide FractionLength, ExponentLength, TakeDigits, SignLength;
    Tails(s, SignLength(s), whole, fraction, exponent);
  }

  /** The scanner finds the parts that the number was made of. */
  lemma ScanIs(n: Number)
    requires IsLoose(n)
    ensures var s := Spelling(n);
            && TakeDigits(s[SignLength(s)..]) == n.whole
            && FloatLength(s) == |s|
  {
    hide FloatLength, FractionLength, ExponentLength, IsFraction, IsExponent, TakeDigits, Spelling, AllDigits;
    SignIs(n);
    FractionIs(n);
    ExponentIs(n.exponent);
    TakeDigitsAppend(n.whole, n.fraction + n.exponent);
    TakeAllDigits(n.whole);
    FloatLengthOf(Spelling(n), n.whole, n.fraction, n.exponent);
  }

  /** An integer path that ends the text, and a decimal path that covers it. */
  lemma BothPathsReadAll(s: Bytes)
    requires s != [] && FloatLength(s) == |s| && !IsHexFloat(s)
    requires var at := SignLength(s) + |TakeDigits(s[SignLength(s)..])|;
             Delimited(s[at..]) ==> s[at..] == []
    ensures ReadsAll(s)
  {
    hide FloatLength, IsHexFloat, TakeDigits, DigitsFrom, Delimited, SignLength;
    assert s[|s|..] == [];
  }

  lemma LooseIsRead(n: Number)
    requires IsLoose(n)
    ensures ReadsAll(Spelling(n))
  {
    hide FloatLength, TakeDigits, IsHexFloat, Spelling, Delimited, ReadsAll;
    SignIs(n);
    ScanIs(n);
    WholeIsNotHex(Spelling(n));
    EndsThere(n);
    BothPathsReadAll(Spelling(n));
  }

  lemma WholeIsNotHex(s: Bytes)
    requires FloatLength(s) == |s|
    ensures !IsHexFloat(s)
  {
    if IsHexFloat(s) {
      HexIsNotDecimal(s);
      assert false;
    }
  }

  /** After the digits of a number comes its end or nothing that delimits it. */
  lemma EndsThere(n: Number)
    requires IsLoose(n)
    ensures var s := Spelling(n);
            SignLength(s) + |n.whole| <= |s|
            && (Delimited(s[SignLength(s) + |n.whole|..]) ==> s[SignLength(s) + |n.whole|..] == [])
  {
    SignIs(n);
    hide Spelling, SignLength, AllDigits;
    Tails(Spelling(n), SignLength(Spelling(n)), n.whole, n.fraction, n.exponent);
  }

  /** What the scanner takes for an exponent is one. */
  lemma ExponentSound(e: Bytes)
    requires ExponentLength(e) == |e|
    ensures e == [] || IsExponent(e)
  {
    if e != [] {
      var sign := if |e| > 1 && (e[1] == MINUS || e[1] == PLUS) then 1 else 0;
      var ds := TakeDigits(e[1 + sign..]);
      assert ds == e[1 + sign..][..|ds|] == e[1 + sign..];
    }
  }

  lemma FractionSound(t: Bytes)
    ensures var f := t[..FractionLength(t)];
            f == [] || IsFraction(f)
  {
    if FractionLength(t) > 0 {
      assert t[..FractionLength(t)][1..] == TakeDigits(t[1..]);
    }
  }

  /** A text cut where the scanner finds its parts to end. */
  function PartsOf(s: Bytes): Number
  {
    var sign := SignLength(s);
    var whole := TakeDigits(s[sign..]);
    var tail := s[sign + |whole|..];
    Number(sign == 1, whole, tail[..FractionLength(tail)], tail[FractionLength(tail)..])
  }

  lemma Reassembled(s: Bytes, i: nat, n: nat, k: nat)
    requires i + n + k <= |s|
    ensures s == s[..i] + (s[i..][..n] + (s[i + n..][..k] + s[i + n..][k..]))
  {
    CutTwice(s, i, n);
    assert s[i + n..] == s[i + n..][..k] + s[i + n..][k..];
  }

  lemma PartsSpell(s: Bytes)
    ensures Spelling(PartsOf(s)) == s
  {
    var sign := SignLength(s);
    assert s[..sign] == if sign == 1 then [MINUS] else [];
    hide TakeDigits, FractionLength, SignLength;
    var whole := TakeDigits(s[sign..]);
    assert whole == s[sign..][..|whole|];
    Reassembled(s, sign, |whole|, FractionLength(s[sign + |whole|..]));
  }

  /** Taking apart what the scanner reads. */
  lemma FloatSound(s: Bytes)
    requires FloatLength(s) == |s| > 0
    ensures IsLoose(PartsOf(s))
  {
    hide FractionLength, ExponentLength, IsFraction, IsExponent, TakeDigits, AllDigits, SignLength;
    var sign := SignLength(s);
    var whole := TakeDigits(s[sign..]);
    var tail := s[sign + |whole|..];
    var k := FractionLength(tail);
    FractionSound(tail);
    assert tail[k..] == s[sign + |whole| + k..];
    ExponentSound(tail[k..]);
    assert |tail[..k]| == k;
  }

  lemma IntegerSound(s: Bytes)
    requires var ds := TakeDigits(s[SignLength(s)..]);
             ds != [] && SignLength(s) + |ds| == |s|
    ensures var n := Number(SignLength(s) == 1, TakeDigits(s[SignLength(s)..]), [], []);
            IsLoose(n) && Spelling(n) == s
  {
    hide TakeDigits;
    var sign := SignLength(s);
    var ds := TakeDigits(s[sign..]);
    assert s == s[..sign] + s[sign..];
    assert ds + ([] + []) == ds == s[sign..];
  }

  /** Which of its two paths the parser has taken. */
  lemma PathTaken(s: Bytes)
    requires ReadsAll(s)
    ensures var ds := TakeDigits(s[SignLength(s)..]);
            (ds != [] && SignLength(s) + |ds| == |s|) || FloatLength(s) == |s|
  {
    hide FloatLength, TakeDigits, DigitsFrom, SignLength, IsHexFloat;
  }

  lemma ReadIsLoose(s: Bytes) returns (n: Number)
    requires ReadsAll(s)
    ensures IsLoose(n) && Spelling(n) == s
  {
    PathTaken(s);
    hide FloatLength, TakeDigits, SignLength, ReadsAll, IsLoose, Spelling, PartsOf;
    var ds := TakeDigits(s[SignLength(s)..]);
    if ds != [] && SignLength(s) + |ds| == |s| {
      IntegerSound(s);
      n := Number(SignLength(s) == 1, ds, [], []);
    } else {
      assert s != [] by {
        NotNothing(s);
      }
      FloatSound(s);
      PartsSpell(s);
      n := PartsOf(s);
    }
  }

  lemma NotNothing(s: Bytes)
    requires ReadsAll(s)
    ensures s != []
  {
  }

  // ---------- the standard's numbers among them ----------

  lemma AtPoint(n: Number, k: nat)
    requires IsLoose(n) && k < |Spelling(n)|
    ensures var at := (if n.minus then 1 else 0) + |n.whole|;
            Spelling(n)[k] == POINT <==> n.fraction != [] && k == at
  {
    var at := (if n.minus then 1 else 0) + |n.whole|;
    var s := Spelling(n);
    if n.minus && k == 0 {
    } else if k < at {
      AllDigitsAt(n.whole, k - (at - |n.whole|));
      assert s[k] == n.whole[k - (at - |n.whole|)];
    } else if k < at + |n.fraction| {
      assert s[k] == n.fraction[k - at];
      if k > at {
        AllDigitsAt(n.fraction[1..], k - at - 1);
      }
    } else {
      var j := k - at - |n.fraction|;
      assert s[k] == n.exponent[j];
      if j > 0 && AllDigits(n.exponent[1..]) {
        AllDigitsAt(n.exponent[1..], j - 1);
      } else if j > 1 {
        AllDigitsAt(n.exponent[2..], j - 2);
      }
    }
  }

  /** What follows the digits in front and the point. */
  lemma AfterParts(n: Number)
    requires IsLoose(n)
    ensures var s := Spelling(n);
            var sign := if n.minus then 1 else 0;
            var at := sign + |n.whole|;
            && at <= |s|
            && (n.whole != [] ==> s[sign] == n.whole[0] && IsDigit(s[sign]))
            && (|n.whole| > 1 ==> IsDigit(s[sign + 1]))
            && (at < |s| ==> !IsDigit(s[at]))
            && (n.fraction != [] ==> at < |s| && (at + 1 < |s| && IsDigit(s[at + 1]) <==> |n.fraction| >= 2))
  {
    var s := Spelling(n);
    var sign := if n.minus then 1 else 0;
    if n.whole != [] {
      AllDigitsAt(n.whole, 0);
    }
    if |n.whole| > 1 {
      AllDigitsAt(n.whole, 1);
    }
    if |n.fraction| >= 2 {
      AllDigitsAt(n.fraction[1..], 0);
      assert s[sign + |n.whole| + 1] == n.fraction[1];
    }
  }

  /** Every point of the text is followed by a digit exactly when the fraction, if there
      is one, has a digit. */
  lemma PointsInForm(n: Number)
    requires IsLoose(n)
    ensures var s := Spelling(n);
            (forall k :: 0 <= k < |s| && s[k] == POINT ==> k + 1 < |s| && IsDigit(s[k + 1]))
            <==> (n.fraction == [] || |n.fraction| >= 2)
  {
    var s := Spelling(n);
    var at := (if n.minus then 1 else 0) + |n.whole|;
    AfterParts(n);
    forall k | 0 <= k < |s|
      ensures s[k] == POINT <==> n.fraction != [] && k == at
    {
      AtPoint(n, k);
    }
    hide Spelling, IsLoose;
    if n.fraction != [] {
      assert s[at] == POINT;
    }
  }

  lemma RfcIsInForm(n: Number)
    requires IsLoose(n)
    ensures IsRfc(n) <==> InStandardForm(Spelling(n))
  {
    SignIs(n);
    AfterParts(n);
    PointsInForm(n);
    hide Spelling, IsExponent, AllDigits, SignLength;
  }

  // ---------- main results ----------

  /** The numbers that the parser reads, exactly. */
  lemma NumbersRead(s: Bytes)
    ensures ReadsAll(s) <==> LooseNumber(s)
  {
    hide ReadsAll, Spelling, IsLoose;
    if ReadsAll(s) {
      var n := ReadIsLoose(s);
    }
    forall n | IsLoose(n) && Spelling(n) == s
      ensures ReadsAll(s)
    {
      LooseIsRead(n);
    }
  }

  /** The numbers of section 6 of RFC 8259, exactly, among those that the parser reads. */
  lemma StandardNumbers(s: Bytes)
    ensures RfcNumber(s) <==> ReadsAll(s) && InStandardForm(s)
  {
    hide ReadsAll, Spelling, InStandardForm, IsFraction, IsExponent, AllDigits;
    if ReadsAll(s) && InStandardForm(s) {
      var n := ReadIsLoose(s);
      RfcIsInForm(n);
      assert IsRfc(n) && Spelling(n) == s;
    }
    forall n | IsRfc(n) && Spelling(n) == s
      ensures ReadsAll(s) && InStandardForm(s)
    {
      LooseIsRead(n);
      RfcIsInForm(n);
    }
  }

  /** Every number of the standard is a text that parses. */
  lemma StandardNumbersParse(s: Bytes)
    requires RfcNumber(s)
    ensures Parse(s).Some? && (Parse(s).value.Int? || Parse(s).value.Double?)
  {
    StandardNumbers(s);
    hide ReadsAll, FloatLength, DigitsFrom, TakeDigits, RfcNumber;
    NumberAsText(s);
  }

  /** A number that the parser reads is a text that parses, if it starts as the parser
      demands of numbers. */
  lemma NumberAsText(s: Bytes)
    requires ReadsAll(s) && (s[0] == MINUS || IsDigit(s[0]))
    ensures Parse(s) == Some(ParseNumber(s).value)
    ensures ParseNumber(s).value.Int? || ParseNumber(s).value.Double?
  {
    hide FloatLength, DigitsFrom, TakeDigits;
    assert SkipSpace(s) == s;
    assert ParseValue(s, MAX_DEPTH) == ParseNumber(s);
  }
}

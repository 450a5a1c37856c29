/** The JSON texts the C++ parser is meant to read, written down as trees that keep
    every byte of the text: spelling of strings and numbers, white space, member order
    and repeated keys. `WriteTree` gives the text of a tree, `TreeValue` its value. */
module JsonGrammar {
  import opened Bytes
  import opened Json

  predicate IsSpace(b: Byte)
  {
    b == 32 || b == 9 || b == 10 || b == 13
  }

  predicate AllSpace(s: Bytes)
  {
    s == [] || (IsSpace(s[0]) && AllSpace(s[1..]))
  }

  // ---------- characters ----------

  /** The UTF-8 form of a code point (RFC 3629, section 3); shifts by six
      and masks are written as divisions and remainders. */
  function Utf8(cp: nat): Bytes
    requires cp < 0x110000
  {
    if cp <= 0x7F then [cp]
    else if cp <= 0x7FF then [0xC0 + cp / 64, 0x80 + cp % 64]
    else if cp <= 0xFFFF then [0xE0 + cp / 64 / 64, 0x80 + cp / 64 % 64, 0x80 + cp % 64]
    else [0xF0 + cp / 64 / 64 / 64, 0x80 + cp / 64 / 64 % 64, 0x80 + cp / 64 % 64, 0x80 + cp % 64]
  }

  predicate IsHex(b: Byte)
  {
    48 <= b <= 57 || 97 <= b <= 102 || 65 <= b <= 70
  }

  function HexDigit(b: Byte): (d: nat)
    requires IsHex(b)
    ensures d < 16
  {
    if b <= 57 then b - 48 else if b >= 97 then b - 87 else b - 55
  }

  predicate AllHex(h: Bytes)
  {
    h == [] || (IsHex(h[|h| - 1]) && AllHex(h[..|h| - 1]))
  }

  function HexValue(h: Bytes): nat
    requires AllHex(h)
  {
    if h == [] then 0 else HexValue(h[..|h| - 1]) * 16 + HexDigit(h[|h| - 1])
  }

  predicate IsHigh(cp: nat)
  {
    0xD800 <= cp <= 0xDBFF
  }

  predicate IsLow(cp: nat)
  {
    0xDC00 <= cp <= 0xDFFF
  }

  function PairValue(high: nat, low: nat): (cp: nat)
    requires IsHigh(high) && IsLow(low)
    ensures 0x10000 <= cp < 0x110000
  {
    0x10000 + (high - 0xD800) * 1024 + (low - 0xDC00)
  }

  /** The byte a two-character escape stands for. */
  function Unescape(letter: Byte): Option<Byte>
  {
    if letter == QUOTE || letter == BACKSLASH || letter == 47 then Some(letter)
    else if letter == 98 then Some(8)
    else if letter == 102 then Some(12)
    else if letter == 110 then Some(10)
    else if letter == 114 then Some(13)
    else if letter == 116 then Some(9)
    else None
  }

  /** One step of a string literal. */
  datatype Char =
    | Raw(b: Byte)
    | Escaped(letter: Byte)
    | Unit(hex: Bytes)
    | Pair(high: Bytes, low: Bytes)

  predicate FourHex(h: Bytes)
  {
    |h| == 4 && AllHex(h)
  }

  predicate CharOk(c: Char)
  {
    match c
    case Raw(b) => b >= 32 && b != QUOTE && b != BACKSLASH
    case Escaped(letter) => Unescape(letter).Some?
    case Unit(hex) => FourHex(hex) && !IsHigh(HexValue(hex)) && !IsLow(HexValue(hex))
    case Pair(high, low) => FourHex(high) && FourHex(low) && IsHigh(HexValue(high)) && IsLow(HexValue(low))
  }

  function RenderChar(c: Char): (s: Bytes)
    ensures s != []
  {
    match c
    case Raw(b) => [b]
    case Escaped(letter) => [BACKSLASH, letter]
    case Unit(hex) => [BACKSLASH, LETTER_U] + hex
    case Pair(high, low) => [BACKSLASH, LETTER_U] + high + [BACKSLASH, LETTER_U] + low
  }

  function Pow16(k: nat): nat
  {
    if k == 0 then 1 else 16 * Pow16(k - 1)
  }

  lemma {:induction false} HexValueBelow(h: Bytes)
    requires AllHex(h)
    ensures HexValue(h) < Pow16(|h|)
  {
    if h != [] {
      HexValueBelow(h[..|h| - 1]);
    }
  }

  lemma HexValueBound(h: Bytes)
    requires FourHex(h)
    ensures HexValue(h) < 0x10000
  {
    HexValueBelow(h);
    assert Pow16(4) == 16 * (16 * (16 * (16 * Pow16(0))));
  }

  function CharBytes(c: Char): Bytes
    requires CharOk(c)
  {
    match c
    case Raw(b) => [b]
    case Escaped(letter) => [Unescape(letter).value]
    case Unit(hex) => HexValueBound(hex); Utf8(HexValue(hex))
    case Pair(high, low) => Utf8(PairValue(HexValue(high), HexValue(low)))
  }

  predicate CharsOk(cs: seq<Char>)
  {
    cs == [] || (CharOk(cs[0]) && CharsOk(cs[1..]))
  }

  function RenderChars(cs: seq<Char>): Bytes
  {
    if cs == [] then [] else RenderChar(cs[0]) + RenderChars(cs[1..])
  }

  /** The bytes of the string a literal denotes. */
  function CharsBytes(cs: seq<Char>): Bytes
    requires CharsOk(cs)
  {
    if cs == [] then [] else CharBytes(cs[0]) + CharsBytes(cs[1..])
  }

  // ---------- numbers ----------

  predicate IsDigit(b: Byte)
  {
    48 <= b <= 57
  }

  predicate AllDigits(ds: Bytes)
  {
    ds == [] || (IsDigit(ds[0]) && AllDigits(ds[1..]))
  }

  function DigitsValue(ds: Bytes): (n: int)
    requires AllDigits(ds)
  {
    DigitsFrom(0, ds)
  }

  function DigitsFrom(n: int, ds: Bytes): int
    requires AllDigits(ds)
    decreases ds
  {
    if ds == [] then n else DigitsFrom(n * 10 + (ds[0] as int - 48), ds[1..])
  }

  /** The longest run of digits at the front. */
  function TakeDigits(s: Bytes): (ds: Bytes)
    ensures AllDigits(ds) && |ds| <= |s| && ds == s[..|ds|]
    ensures |ds| < |s| ==> !IsDigit(s[|ds|])
  {
    if s == [] || !IsDigit(s[0]) then []
    else
      var ds := TakeDigits(s[1..]);
      assert s[..1 + |ds|] == [s[0]] + s[1..][..|ds|];
      [s[0]] + ds
  }

  function SignLength(s: Bytes): (n: nat)
    ensures n <= |s| && n <= 1
  {
    if s != [] && s[0] == MINUS then 1 else 0
  }

  function IntValue(negative: bool, ds: Bytes): int
    requires AllDigits(ds)
  {
    if negative then -DigitsValue(ds) else DigitsValue(ds)
  }

  /** How many bytes `strtod` reads of a decimal spelling: sign, digits, an optional
      fraction and an optional exponent, as long as there is a digit in the mantissa. */
  function FloatLength(s: Bytes): (n: nat)
    ensures n <= |s|
  {
    var sign := SignLength(s);
    var whole := |TakeDigits(s[sign..])|;
    var fraction := FractionLength(s[sign + whole..]);
    if whole == 0 && fraction <= 1 then 0
    else
      var mantissa := sign + whole + fraction;
      mantissa + ExponentLength(s[mantissa..])
  }

  function FractionLength(s: Bytes): (n: nat)
    ensures n <= |s|
  {
    if s != [] && s[0] == 46 then 1 + |TakeDigits(s[1..])| else 0
  }

  function ExponentLength(s: Bytes): (n: nat)
    ensures n <= |s|
  {
    if s != [] && (s[0] == 101 || s[0] == 69) then
      var sign := if |s| > 1 && (s[1] == MINUS || s[1] == 43) then 1 else 0;
      var digits := |TakeDigits(s[1 + sign..])|;
      if digits == 0 then 0 else 1 + sign + digits
    else 0
  }

  /** A spelling `strtod` would read as a hexadecimal number. */
  predicate IsHexFloat(s: Bytes)
  {
    var sign := SignLength(s);
    && |s| > sign + 2
    && s[sign] == ZERO && (s[sign + 1] == 120 || s[sign + 1] == 88)
    && (IsHex(s[sign + 2]) || (s[sign + 2] == 46 && |s| > sign + 3 && IsHex(s[sign + 3])))
  }

  /** The whole of s is an integer literal that fits in 64 bits. */
  predicate IsIntLiteral(s: Bytes)
  {
    var ds := TakeDigits(s[SignLength(s)..]);
    ds != [] && SignLength(s) + |ds| == |s| && InInt64(IntValue(SignLength(s) == 1, ds))
  }

  // ---------- values ----------

  datatype Tree =
    | TNull
    | TBool(b: bool)
    | TInt(negative: bool, digits: Bytes)
    | TFloat(literal: Bytes)
    | TString(chars: seq<Char>)
    | TArray(pad: Bytes, elems: seq<Elem>)
    | TObject(pad: Bytes, fields: seq<Field>)

  /** An array element with the white space around it. */
  datatype Elem = Elem(before: Bytes, tree: Tree, after: Bytes)

  /** An object member with the white space around its four parts. */
  datatype Field = Field(beforeKey: Bytes, key: seq<Char>, afterKey: Bytes, before: Bytes, tree: Tree, after: Bytes)

  predicate TreeOk(t: Tree)
  {
    match t
    case TInt(negative, digits) => digits != [] && AllDigits(digits) && InInt64(IntValue(negative, digits))
    case TFloat(literal) =>
      && literal != [] && (literal[0] == MINUS || IsDigit(literal[0]))
      && FloatLength(literal) == |literal| && !IsIntLiteral(literal)
    case TString(chars) => CharsOk(chars)
    case TArray(pad, elems) => AllSpace(pad) && ElemsOk(elems)
    case TObject(pad, fields) => AllSpace(pad) && FieldsOk(fields)
    case _ => true
  }

  predicate ElemsOk(elems: seq<Elem>)
  {
    elems == [] ||
    (AllSpace(elems[0].before) && TreeOk(elems[0].tree) && AllSpace(elems[0].after) && ElemsOk(elems[1..]))
  }

  predicate FieldOk(f: Field)
  {
    && AllSpace(f.beforeKey) && CharsOk(f.key) && AllSpace(f.afterKey)
    && AllSpace(f.before) && TreeOk(f.tree) && AllSpace(f.after)
  }

  predicate FieldsOk(fields: seq<Field>)
  {
    fields == [] || (FieldOk(fields[0]) && FieldsOk(fields[1..]))
  }

  // Texts are written in front of what follows them, `k`.

  function WriteQuoted(chars: seq<Char>, k: Bytes): Bytes
  {
    [QUOTE] + (RenderChars(chars) + ([QUOTE] + k))
  }

  function WriteTree(t: Tree, k: Bytes): Bytes
    decreases t
  {
    match t
    case TNull => NULL_TEXT + k
    case TBool(b) => (if b then TRUE_TEXT else FALSE_TEXT) + k
    case TInt(negative, digits) => (if negative then [MINUS] else []) + (digits + k)
    case TFloat(literal) => literal + k
    case TString(chars) => WriteQuoted(chars, k)
    case TArray(pad, elems) => [OPEN_BRACKET] + (pad + WriteElems(elems, [CLOSE_BRACKET] + k))
    case TObject(pad, fields) => [OPEN_BRACE] + (pad + WriteFields(fields, [CLOSE_BRACE] + k))
  }

  function WriteElems(elems: seq<Elem>, k: Bytes): Bytes
    decreases elems
  {
    if elems == [] then k
    else
      var e := elems[0];
      e.before + WriteTree(e.tree, e.after + if |elems| == 1 then k else [COMMA] + WriteElems(elems[1..], k))
  }

  function WriteFields(fields: seq<Field>, k: Bytes): Bytes
    decreases fields
  {
    if fields == [] then k
    else
      var f := fields[0];
      var next := if |fields| == 1 then k else [COMMA] + WriteFields(fields[1..], k);
      f.beforeKey + WriteQuoted(f.key, f.afterKey + ([COLON] + (f.before + WriteTree(f.tree, f.after + next))))
  }

  /** Members are stored left to right, a repeated key replacing the earlier value. */
  function TreeValue(t: Tree): Value
    requires TreeOk(t)
  {
    match t
    case TNull => Null
    case TBool(b) => Bool(b)
    case TInt(negative, digits) => Int(IntValue(negative, digits))
    case TFloat(literal) => Double(literal)
    case TString(chars) => String(CharsBytes(chars))
    case TArray(_, elems) => Array(ElemValues(elems))
    case TObject(_, fields) => Object(StoreFields([], fields))
  }

  function ElemValues(elems: seq<Elem>): seq<Value>
    requires ElemsOk(elems)
  {
    if elems == [] then [] else [TreeValue(elems[0].tree)] + ElemValues(elems[1..])
  }

  function StoreFields(table: seq<Member>, fields: seq<Field>): seq<Member>
    requires FieldsOk(fields)
    decreases fields
  {
    if fields == [] then table
    else
      assert FieldOk(fields[0]);
      StoreFields(Put(table, CharsBytes(fields[0].key), TreeValue(fields[0].tree)), fields[1..])
  }

  function TreeDepth(t: Tree): (d: nat)
    ensures d >= 1
  {
    match t
    case TArray(_, elems) => 1 + ElemsDepth(elems)
    case TObject(_, fields) => 1 + FieldsDepth(fields)
    case _ => 1
  }

  function ElemsDepth(elems: seq<Elem>): nat
  {
    if elems == [] then 0 else Max(TreeDepth(elems[0].tree), ElemsDepth(elems[1..]))
  }

  function FieldsDepth(fields: seq<Field>): nat
  {
    if fields == [] then 0 else Max(TreeDepth(fields[0].tree), FieldsDepth(fields[1..]))
  }

  /** A whole text: one tree with white space around it. */
  datatype Doc = Doc(before: Bytes, tree: Tree, after: Bytes)

  predicate DocOk(d: Doc)
  {
    AllSpace(d.before) && TreeOk(d.tree) && AllSpace(d.after)
  }

  function RenderDoc(d: Doc): Bytes
  {
    d.before + WriteTree(d.tree, d.after)
  }
}

/** JSON values, and the lexical pieces that the parser and the printer share: src/util/json.cpp and json.hpp. */
module JsonValue {
  import opened Chars

  /** A number is the real that its double denotes; object keys keep their insertion order. */
  datatype Json =
    | Null
    | Bool(b: bool)
    | Number(n: real)
    | String(s: string)
    | Array(items: seq<Json>)
    | Object(keys: seq<string>, members: map<string, Json>)
  {
    function AsBool(fallback: bool): bool {
      match this
      case Bool(b) => b
      case Number(n) => n != 0.0
      case _ => fallback
    }

    function AsString(fallback: string): string { if String? then s else fallback }

    function Size(): nat {
      match this
      case Array(items) => |items|
      case Object(keys, members) => |members|
      case _ => 0
    }

    function At(index: nat): Json { if Array? && index < |items| then items[index] else Null }

    function Push(value: Json): Json { Array((if Array? then items else []) + [value]) }

    function Set(key: string, value: Json): Json {
      var obj := if Object? then this else Object([], map[]);
      Object(if key in obj.members then obj.keys else obj.keys + [key], obj.members[key := value])
    }
  }

  const BACKSPACE: char := 8 as char
  const FORM_FEED: char := 12 as char

  predicate IsWs(c: char) { c == ' ' || c == '\t' || c == '\n' || c == '\r' }

  /** text contains s at pos. */
  predicate Has(text: string, pos: nat, s: string) {
    pos + |s| <= |text| && text[pos..pos + |s|] == s
  }

  lemma HasSplit(text: string, pos: nat, a: string, b: string)
    requires Has(text, pos, a + b)
    ensures Has(text, pos, a) && Has(text, pos + |a|, b)
  {
    assert text[pos..pos + |a|] == text[pos..pos + |a + b|][..|a|] == a;
    assert text[pos + |a|..pos + |a| + |b|] == text[pos..pos + |a + b|][|a|..] == b;
  }

  lemma HasAt(text: string, pos: nat, s: string, i: nat)
    requires Has(text, pos, s) && i < |s|
    ensures text[pos + i] == s[i]
  {
  }

  function SkipWs(text: string, pos: nat): (p: nat)
    requires pos <= |text|
    ensures pos <= p <= |text|
    decreases |text| - pos
  {
    if pos < |text| && IsWs(text[pos]) then SkipWs(text, pos + 1) else pos
  }

  function DigitsEnd(text: string, pos: nat): (p: nat)
    requires pos <= |text|
    ensures pos <= p <= |text|
    ensures forall i :: pos <= i < p ==> IsDigit(text[i])
    decreases |text| - pos
  {
    if pos < |text| && IsDigit(text[pos]) then DigitsEnd(text, pos + 1) else pos
  }

  /** The number that a run of decimal digits denotes. */
  function DecimalValue(digits: string): nat
    requires forall i :: 0 <= i < |digits| ==> IsDigit(digits[i])
  {
    if |digits| == 0 then 0
    else 10 * DecimalValue(digits[..|digits| - 1]) + DigitValue(digits[|digits| - 1])
  }

  function Pow10(n: nat): (p: real)
    ensures p > 0.0
  {
    if n == 0 then 1.0 else 10.0 * Pow10(n - 1)
  }

  /** An optional sign at pos. */
  function SignEnd(text: string, pos: nat): (p: nat)
    requires pos <= |text|
    ensures pos <= p <= |text|
  {
    if pos < |text| && (text[pos] == '-' || text[pos] == '+') then pos + 1 else pos
  }

  /** The end of an optional fraction: '.' and any digits. */
  function FractionEnd(text: string, pos: nat): (p: nat)
    requires pos <= |text|
    ensures pos <= p <= |text|
    ensures forall i :: pos < i < p ==> IsDigit(text[i])
  {
    if pos < |text| && text[pos] == '.' then DigitsEnd(text, pos + 1) else pos
  }

  /** The real number that strtod reads from a lexeme [+-] digits [. digits] [(e|E) [+-] digits]. */
  function Strtod(text: string): real {
    var start := SignEnd(text, 0);
    var dot := DigitsEnd(text, start);
    var exp := FractionEnd(text, dot);
    var whole := text[start..dot];
    var fraction := if dot < exp then text[dot + 1..exp] else "";
    var magnitude := DecimalValue(whole) as real + DecimalValue(fraction) as real / Pow10(|fraction|);
    var scaled := magnitude * ExponentFactor(text, exp);
    if |text| > 0 && text[0] == '-' then -scaled else scaled
  }

  function ExponentFactor(text: string, pos: nat): real
    requires pos <= |text|
  {
    if pos < |text| && (text[pos] == 'e' || text[pos] == 'E') then
      var digits := SignEnd(text, pos + 1);
      var e := DecimalValue(text[digits..DigitsEnd(text, digits)]);
      if text[digits - 1] == '-' then 1.0 / Pow10(e) else Pow10(e)
    else 1.0
  }

  /** std::to_string of an integer. */
  function Digits(n: nat): string {
    if n < 10 then [DigitChar(n)] else Digits(n / 10) + [DigitChar(n % 10)]
  }

  function IntToString(n: int): string { if n < 0 then "-" + Digits(-n) else Digits(n) }

  /** The code point of four hexadecimal digits. */
  function HexCode(h: string): (code: nat)
    requires |h| == 4 && AllHex(h)
    ensures code < 0x1_0000
  {
    ((HexValue(h[0]) * 16 + HexValue(h[1])) * 16 + HexValue(h[2])) * 16 + HexValue(h[3])
  }

  /** A code point as UTF-8; a surrogate becomes the three bytes of its own value. */
  function Utf8(code: nat): string
    requires code < 0x1_0000
  {
    if code < 0x80 then [code as char]
    else if code < 0x800 then [(0xC0 + code / 64) as char, (0x80 + code % 64) as char]
    else [(0xE0 + code / 4096) as char, (0x80 + code / 64 % 64) as char, (0x80 + code % 64) as char]
  }
}

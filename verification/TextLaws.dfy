/** What the lexical functions mean: hexadecimal, UTF-8, escapes and numbers, as their standards define them. */
module TextLaws {
  import opened Chars
  import opened Hex
  import opened JsonParser
  import opened JsonRoundTrip
  import opened JsonValue
  import opened StratumMessage
  import opened Wrappers

  // ---- Hexadecimal -------------------------------------------------------

  /** The digits of both cases in order, and no other characters. */
  lemma HexTable(c: char)
    ensures "0123456789abcdef"[..] == seq(16, d requires 0 <= d < 16 => HexChar(d))
    ensures IsHexDigit(c) <==> c in "0123456789abcdef" || c in "ABCDEF"
    ensures forall d :: 0 <= d < 16 ==> HexValue("0123456789abcdef"[d]) == d && HexValue("0123456789ABCDEF"[d]) == d
  {
    var lower, upper := "0123456789abcdef", "0123456789ABCDEF";
    if c in lower { var i :| 0 <= i < 16 && lower[i] == c; }
    if IsHexDigit(c) && !('A' <= c <= 'F') {
      assert lower[HexValue(c)] == c;
    } else if IsHexDigit(c) {
      assert "ABCDEF"[HexValue(c) - 10] == c;
    }
  }

  /** The code of a \u escape is the number that its four digits spell, most significant first. */
  lemma HexCodeIs(h: string)
    requires |h| == 4 && AllHex(h)
    ensures Unhex(h) == Some([HexCode(h) / 256, HexCode(h) % 256])
  {
    hide DigitPair, IsHexDigit, HexValue;
    var low := h[2..];
    assert low[2..] == "" && low[0] == h[2] && low[1] == h[3] && AllHex(low);
    assert Unhex("") == Some([]);
    assert Unhex(low) == Some([DigitPair(h[2], h[3])] + []);
    assert Unhex(h) == Some([DigitPair(h[0], h[1])] + ([DigitPair(h[2], h[3])] + []));
    assert [DigitPair(h[0], h[1])] + ([DigitPair(h[2], h[3])] + []) == [DigitPair(h[0], h[1]), DigitPair(h[2], h[3])];
    CodeOfPairs(h);
  }

  lemma CodeOfPairs(h: string)
    requires |h| == 4 && AllHex(h)
    ensures HexCode(h) / 256 == DigitPair(h[0], h[1]) && HexCode(h) % 256 == DigitPair(h[2], h[3])
  {
    hide IsHexDigit, HexValue;
  }

  // ---- UTF-8 -------------------------------------------------------------

  predicate Continues(c: char) { 0x80 <= c as int < 0xC0 }

  /** The code point that one to three bytes encode, in the table of section 3 of RFC 3629; only shortest forms count. */
  function DecodeUtf8(b: string): Option<nat> {
    if |b| == 1 && b[0] as int < 0x80 then Some(b[0] as int)
    else if |b| == 2 && 0xC0 <= b[0] as int < 0xE0 && Continues(b[1]) then
      Shortest(0x80, (b[0] as int - 0xC0) * 0x40 + (b[1] as int - 0x80))
    else if |b| == 3 && 0xE0 <= b[0] as int < 0xF0 && Continues(b[1]) && Continues(b[2]) then
      Shortest(0x800, (b[0] as int - 0xE0) * 0x1000 + (b[1] as int - 0x80) * 0x40 + (b[2] as int - 0x80))
    else None
  }

  function Shortest(least: nat, code: nat): Option<nat> { if code < least then None else Some(code) }

  /** The printed bytes are the one encoding of the code. */
  lemma Utf8Decodes(code: nat, b: string)
    requires code < 0x1_0000
    ensures DecodeUtf8(b) == Some(code) <==> b == Utf8(code)
  {
    if |b| == 1 {
      OneByte(code, b);
    } else if |b| == 2 {
      TwoBytes(code, b);
    } else if |b| == 3 {
      ThreeBytes(code, b);
    }
  }

  lemma OneByte(code: nat, b: string)
    requires code < 0x1_0000 && |b| == 1
    ensures DecodeUtf8(b) == Some(code) <==> b == Utf8(code)
  {
  }

  lemma TwoBytes(code: nat, b: string)
    requires code < 0x1_0000 && |b| == 2
    ensures DecodeUtf8(b) == Some(code) <==> b == Utf8(code)
  {
  }

  lemma ThreeBytes(code: nat, b: string)
    requires code < 0x1_0000 && |b| == 3
    ensures DecodeUtf8(b) == Some(code) <==> b == Utf8(code)
  {
    if Continues(b[1]) && Continues(b[2]) {
      SixBits(code, b[0] as int - 0xE0, b[1] as int - 0x80, b[2] as int - 0x80);
    }
  }

  /** Six bits a byte. */
  lemma SixBits(code: nat, x: int, y: int, z: int)
    requires 0 <= y < 0x40 && 0 <= z < 0x40
    ensures code == x * 0x1000 + y * 0x40 + z <==> x == code / 0x1000 && y == code / 0x40 % 0x40 && z == code % 0x40
  {
  }

  // ---- Escapes and white space -------------------------------------------

  /** Section 7 of RFC 8259: the two-character escapes and the characters that they stand for. */
  lemma EscapeTable(c: char)
    ensures IsSimpleEscape(c) <==> c in "\"\\/bfnrt"
    ensures SimpleEscape('"') as int == 0x22 && SimpleEscape('\\') as int == 0x5C && SimpleEscape('/') as int == 0x2F
    ensures SimpleEscape('b') as int == 0x08 && SimpleEscape('f') as int == 0x0C && SimpleEscape('n') as int == 0x0A
    ensures SimpleEscape('r') as int == 0x0D && SimpleEscape('t') as int == 0x09
  {
    var table := "\"\\/bfnrt";
    assert table[0] == '"' && table[1] == '\\' && table[2] == '/' && table[3] == 'b' && table[4] == 'f'
      && table[5] == 'n' && table[6] == 'r' && table[7] == 't';
  }

  /** Section 2 of RFC 8259: white space. */
  lemma BlankTable(c: char)
    ensures IsWs(c) <==> c as int in {0x20, 0x09, 0x0A, 0x0D}
  {
  }

  // ---- Numbers -----------------------------------------------------------

  predicate AllDigits(s: string) { forall i :: 0 <= i < |s| ==> IsDigit(s[i]) }

  /** A number in decimal notation: [-+] whole [. fraction] [e [-+] exponent]. */
  datatype Numeral = Numeral(sign: string, whole: string, fraction: Option<string>, exponent: Option<Exponent>)

  datatype Exponent = Exponent(mark: char, sign: string, digits: string)

  predicate IsSign(s: string) { s == "" || s == "-" || s == "+" }

  /** A numeral with at least one digit before its exponent. */
  predicate WellFormed(n: Numeral) {
    && IsSign(n.sign) && AllDigits(n.whole) && |n.whole| + (if n.fraction.Some? then |n.fraction.value| else 0) > 0
    && (n.fraction.Some? ==> AllDigits(n.fraction.value))
    && (n.exponent.Some? ==>
          IsSign(n.exponent.value.sign) && AllDigits(n.exponent.value.digits) && n.exponent.value.mark in {'e', 'E'})
  }

  function FractionText(n: Numeral): string { if n.fraction.Some? then "." + n.fraction.value else "" }

  function ExponentText(n: Numeral): string {
    if n.exponent.Some? then [n.exponent.value.mark] + n.exponent.value.sign + n.exponent.value.digits else ""
  }

  function NumeralText(n: Numeral): string { n.sign + n.whole + FractionText(n) + ExponentText(n) }

  /** All its digits as one whole number, the point moved back over the fraction and on by the exponent. */
  function NumeralValue(n: Numeral): real
    requires WellFormed(n)
  {
    var fraction := if n.fraction.Some? then n.fraction.value else "";
    AllDigitsConcat(n.whole, fraction);
    var magnitude := DecimalValue(n.whole + fraction) as real / Pow10(|fraction|);
    var power := if n.exponent.Some? then Pow10(DecimalValue(n.exponent.value.digits)) else 1.0;
    var scaled := if n.exponent.Some? && n.exponent.value.sign == "-" then magnitude / power else magnitude * power;
    if n.sign == "-" then -scaled else scaled
  }

  lemma AllDigitsConcat(a: string, b: string)
    requires AllDigits(a) && AllDigits(b)
    ensures AllDigits(a + b)
  {
  }

  /** Digits after others shift those by their number of places. */
  lemma {:induction false} DecimalConcat(a: string, b: string)
    requires AllDigits(a) && AllDigits(b)
    ensures AllDigits(a + b) && Shifted(DecimalValue(a + b), DecimalValue(a), Pow10(|b|), DecimalValue(b))
    decreases |b|
  {
    if |b| == 0 {
      assert a + b == a;
    } else {
      hide DecimalValue, Pow10, Shifted;
      var front, last := b[..|b| - 1], DigitValue(b[|b| - 1]);
      DecimalConcat(a, front);
      assert (a + b)[..|a + b| - 1] == a + front && (a + b)[|a + b| - 1] == b[|b| - 1];
      DecimalStep(a + b);
      DecimalStep(b);
      ShiftDigits(DecimalValue(a + front), DecimalValue(a), Pow10(|front|), DecimalValue(front), last);
    }
  }

  lemma DecimalStep(s: string)
    requires AllDigits(s) && |s| > 0
    ensures DecimalValue(s) == 10 * DecimalValue(s[..|s| - 1]) + DigitValue(s[|s| - 1])
    ensures Pow10(|s|) == 10.0 * Pow10(|s| - 1)
  {
  }

  ghost predicate Shifted(t: nat, a: nat, p: real, b: nat) { t as real == a as real * p + b as real }

  lemma ShiftDigits(t: nat, a: nat, p: real, b: nat, d: nat)
    requires Shifted(t, a, p, b)
    ensures Shifted(10 * t + d, a, 10.0 * p, 10 * b + d)
  {
  }

  /** The parser reads every numeral to its end, as the number that it denotes. */
  lemma NumeralReads(n: Numeral)
    requires WellFormed(n)
    ensures NumberAt(NumeralText(n), 0) == Ok(Number(NumeralValue(n)), |NumeralText(n)|)
  {
    hide Strtod, NumeralText, NumeralValue, ExponentFactor, FractionText, SignEnd, DigitsEnd, FractionEnd, ExponentEnd;
    var text := NumeralText(n);
    NumeralPlaces(n);
    ExponentPlaces(n);
    assert text[0..|text|] == text;
    NumeralIsValue(n);
  }

  lemma NumeralIsValue(n: Numeral)
    requires WellFormed(n)
    ensures Strtod(NumeralText(n)) == NumeralValue(n)
  {
    hide DecimalValue, Pow10, NumeralText, NumeralValue, ExponentFactor, FractionText, Factor, WellFormed;
    hide SignEnd, DigitsEnd, FractionEnd;
    NumeralPlaces(n);
    ExponentPlaces(n);
    MagnitudeIs(n);
  }

  /** Where the parts of a numeral begin and end. */
  lemma NumeralPlaces(n: Numeral)
    requires WellFormed(n)
    ensures var text := NumeralText(n);
      var start := |n.sign|;
      var dot := start + |n.whole|;
      var exp := dot + |FractionText(n)|;
      && exp <= |text| && SignEnd(text, 0) == start && DigitsEnd(text, start) == dot && FractionEnd(text, dot) == exp
      && text[start..dot] == n.whole && (n.fraction.Some? ==> text[dot + 1..exp] == n.fraction.value)
      && (dot < exp <==> n.fraction.Some?) && |text| > 0 && (text[0] == '-' <==> n.sign == "-")
  {
    hide DigitsEnd, SignEnd, FractionEnd;
    var tail := FractionText(n) + ExponentText(n);
    Regrouped(n.sign, n.whole, FractionText(n), ExponentText(n));
    WholeRun(n.sign, n.whole, tail);
    FractionPlaces(n.sign + n.whole, n);
  }

  lemma Regrouped(a: string, b: string, c: string, d: string)
    ensures a + b + c + d == a + b + (c + d) == a + (b + (c + d))
  {
  }

  /** The sign and the whole part, before something that continues neither. */
  lemma WholeRun(sign: string, whole: string, tail: string)
    requires IsSign(sign) && AllDigits(whole) && |whole| + |tail| > 0
    requires |tail| > 0 ==> !IsDigit(tail[0]) && tail[0] != '-' && tail[0] != '+'
    ensures var text := sign + whole + tail;
      && SignEnd(text, 0) == |sign| && DigitsEnd(text, |sign|) == |sign| + |whole|
      && text[|sign|..|sign| + |whole|] == whole && (text[0] == '-' <==> sign == "-")
  {
    hide SignEnd, DigitsEnd, IsSign;
    var text := sign + whole + tail;
    SignRun(sign, whole, tail);
    assert |tail| > 0 ==> text[|sign| + |whole|] == tail[0];
    assert Has(text, |sign|, whole);
    DigitRun(text, |sign|, whole);
  }

  lemma SignRun(sign: string, whole: string, tail: string)
    requires IsSign(sign) && AllDigits(whole) && |whole| + |tail| > 0
    requires |tail| > 0 ==> tail[0] != '-' && tail[0] != '+'
    ensures SignEnd(sign + whole + tail, 0) == |sign| && ((sign + whole + tail)[0] == '-' <==> sign == "-")
  {
    var text := sign + whole + tail;
    if |sign| > 0 {
      assert text[0] == sign[0];
    } else if |whole| > 0 {
      assert text[0] == whole[0];
    } else {
      assert text[0] == tail[0];
    }
  }

  lemma FractionPlaces(front: string, n: Numeral)
    requires WellFormed(n)
    ensures var text, dot := front + FractionText(n) + ExponentText(n), |front|;
      var exp := dot + |FractionText(n)|;
      && FractionEnd(text, dot) == exp && (dot < exp <==> n.fraction.Some?)
      && (n.fraction.Some? ==> text[dot + 1..exp] == n.fraction.value)
  {
    var text, e, dot := front + FractionText(n) + ExponentText(n), ExponentText(n), |front|;
    assert |e| > 0 ==> text[dot + |FractionText(n)|] == e[0];
    if n.fraction.Some? {
      assert text[dot] == '.' && Has(text, dot + 1, n.fraction.value);
      FractionRun(text, dot, n.fraction.value);
    }
  }

  lemma FractionRun(text: string, dot: nat, digits: string)
    requires dot < |text| && text[dot] == '.' && Has(text, dot + 1, digits) && AllDigits(digits)
    requires dot + 1 + |digits| < |text| ==> !IsDigit(text[dot + 1 + |digits|])
    ensures FractionEnd(text, dot) == dot + 1 + |digits|
  {
    DigitRun(text, dot + 1, digits);
  }

  lemma ExponentPlaces(n: Numeral)
    requires WellFormed(n)
    ensures var text, exp := NumeralText(n), |n.sign| + |n.whole| + |FractionText(n)|;
      && exp <= |text| && ExponentEnd(text, exp) == |text| && ExponentFactor(text, exp) == Factor(n)
  {
    hide DecimalValue, Pow10, FractionText, SignEnd, DigitsEnd, IsSign, AllDigits;
    var text, front := NumeralText(n), n.sign + n.whole + FractionText(n);
    assert text == front + ExponentText(n);
    if n.exponent.Some? {
      var e := n.exponent.value;
      Regrouped(front, [e.mark], e.sign, e.digits);
      assert text == front + [e.mark] + e.sign + e.digits;
      ExponentRun(text, front, e);
    }
  }

  lemma ExponentRun(text: string, front: string, e: Exponent)
    requires text == front + [e.mark] + e.sign + e.digits
    requires IsSign(e.sign) && AllDigits(e.digits) && e.mark in {'e', 'E'}
    ensures var digits := |front| + 1 + |e.sign|;
      && text[|front|] == e.mark && SignEnd(text, |front| + 1) == digits && DigitsEnd(text, digits) == |text|
      && text[digits..|text|] == e.digits && (text[digits - 1] == '-' <==> e.sign == "-")
  {
    hide SignEnd, DigitsEnd, IsSign;
    var digits := |front| + 1 + |e.sign|;
    assert Has(text, digits, e.digits);
    DigitRun(text, digits, e.digits);
    SignThere(text, front, e);
  }

  lemma SignThere(text: string, front: string, e: Exponent)
    requires text == front + [e.mark] + e.sign + e.digits
    requires IsSign(e.sign) && AllDigits(e.digits) && e.mark in {'e', 'E'}
    ensures SignEnd(text, |front| + 1) == |front| + 1 + |e.sign| && (text[|front| + |e.sign|] == '-' <==> e.sign == "-")
  {
    if |e.sign| > 0 {
      assert text[|front| + 1] == e.sign[0];
    } else if |e.digits| > 0 {
      assert text[|front| + 1] == e.digits[0];
    }
  }

  /** What the exponent multiplies by. */
  function Factor(n: Numeral): real
    requires WellFormed(n)
  {
    if n.exponent.None? then 1.0
    else
      var power := Pow10(DecimalValue(n.exponent.value.digits));
      if n.exponent.value.sign == "-" then 1.0 / power else power
  }

  lemma MagnitudeIs(n: Numeral)
    requires WellFormed(n)
    ensures var fraction := if n.fraction.Some? then n.fraction.value else "";
      var magnitude := DecimalValue(n.whole) as real + DecimalValue(fraction) as real / Pow10(|fraction|);
      NumeralValue(n) == if n.sign == "-" then -(magnitude * Factor(n)) else magnitude * Factor(n)
  {
    hide DecimalValue, Pow10;
    var fraction := if n.fraction.Some? then n.fraction.value else "";
    DecimalConcat(n.whole, fraction);
    AddQuotient(DecimalValue(n.whole) as real, DecimalValue(fraction) as real, Pow10(|fraction|));
  }

  lemma AddQuotient(a: real, b: real, p: real)
    requires p > 0.0
    ensures (a * p + b) / p == a + b / p
  {
    assert (a + b / p) * p == a * p + b;
  }

  // ---- Whole numbers -----------------------------------------------------

  /** White space as isspace knows it. */
  predicate Spaced(s: string) { forall i :: 0 <= i < |s| ==> s[i] as int in {0x20, 0x09, 0x0A, 0x0B, 0x0C, 0x0D} }

  /** strtoll reads every decimal number, after any white space, up to the last of its digits; it saturates at 64 bits. */
  lemma StrtollReads(blank: string, sign: string, digits: string, after: string)
    requires Spaced(blank) && IsSign(sign) && AllDigits(digits) && |digits| > 0 && (|after| > 0 ==> !IsDigit(after[0]))
    ensures var n: int := if sign == "-" then -(DecimalValue(digits) as int) else DecimalValue(digits);
      Strtoll(blank + sign + digits + after)
      == (if n < -0x8000_0000_0000_0000 then -0x8000_0000_0000_0000
          else if n >= 0x8000_0000_0000_0000 then 0x7FFF_FFFF_FFFF_FFFF
          else n,
          |blank + sign + digits|)
  {
    hide DecimalValue, SignEnd, DigitsEnd, IsSpace;
    var text, start := blank + sign + digits + after, |blank| + |sign|;
    SignAfter(blank, sign, digits, after);
    SpaceRun(text, 0, blank);
    assert Has(text, start, digits) && (|after| > 0 ==> text[start + |digits|] == after[0]);
    DigitRun(text, start, digits);
    assert text[start..start + |digits|] == digits;
  }

  lemma {:induction false} SpaceRun(text: string, pos: nat, blank: string)
    requires Has(text, pos, blank) && Spaced(blank)
    requires pos + |blank| < |text| ==> IsDigit(text[pos + |blank|]) || text[pos + |blank|] in {'-', '+', '.'}
    ensures SkipSpace(text, pos) == pos + |blank|
    decreases |blank|
  {
    if |blank| > 0 {
      assert blank == blank[..1] + blank[1..];
      HasSplit(text, pos, blank[..1], blank[1..]);
      HasAt(text, pos, blank, 0);
      SpaceRun(text, pos + 1, blank[1..]);
    }
  }

  lemma SignAfter(blank: string, sign: string, digits: string, after: string)
    requires IsSign(sign) && AllDigits(digits) && |digits| > 0
    ensures var text := blank + sign + digits + after;
      && Has(text, 0, blank) && SignEnd(text, |blank|) == |blank| + |sign| && (text[|blank|] == '-' <==> sign == "-")
      && (IsDigit(text[|blank|]) || text[|blank|] in {'-', '+'})
  {
    var text := blank + sign + digits + after;
    if |sign| > 0 {
      assert text[|blank|] == sign[0];
    } else {
      assert text[|blank|] == digits[0];
    }
  }

  /** A size sent as text is the number it spells, to the end of the text or a zero character. */
  lemma SizeAsText(n: int, after: string, fallback: int)
    requires -0x8000_0000_0000_0000 <= n < 0x8000_0000_0000_0000 && (after == "" || after[0] == 0 as char)
    ensures AsInt(String(IntToString(n) + after), fallback) == n
  {
    hide Strtoll, IntToString, Digits, DecimalValue;
    var digits := Digits(if n < 0 then -n else n);
    DigitsAreDigits(if n < 0 then -n else n);
    IntegerShape(n);
    var sign := if n < 0 then "-" else "";
    assert IntToString(n) == "" + sign + digits;
    StrtollReads("", sign, digits, after);
    assert |after| > 0 ==> (IntToString(n) + after)[|IntToString(n)|] == after[0];
  }

  /** A size sent as a number drops its fraction; true and false count as 1 and 0, and nothing else is a size. */
  lemma SizeAsValue(n: int, b: bool, items: seq<Json>, fallback: int)
    ensures AsInt(Number(n as real), fallback) == n && AsInt(Bool(b), fallback) == (if b then 1 else 0)
    ensures AsInt(Null, fallback) == AsInt(Array(items), fallback) == AsInt(String(""), fallback) == fallback
  {
  }

  /** The integer part: no larger in magnitude, by less than one, and of the same sign. */
  lemma TruncDropsFraction(x: real)
    ensures x >= 0.0 ==> 0.0 <= Trunc(x) as real <= x < Trunc(x) as real + 1.0
    ensures x <= 0.0 ==> 0.0 >= Trunc(x) as real >= x > Trunc(x) as real - 1.0
  {
  }
}

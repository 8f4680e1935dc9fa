/** Parsing undoes printing: the two halves of src/util/json.cpp against each other. */
module JsonRoundTrip {
  import opened Chars
  import opened JsonValue
  import opened JsonParser
  import opened JsonPrinter

  /** What the printer prints exactly: nodes less deep than the parser's limit, distinct keys, small integers. */
  ghost predicate Exact(v: Json, depth: nat) {
    && depth < MAX_DEPTH
    && match v
       case Number(n) => IsSmallInteger(n)
       case Array(items) => forall i | 0 <= i < |items| :: Exact(items[i], depth + 1)
       case Object(keys, members) =>
         && (forall i, j | 0 <= i < j < |keys| :: keys[i] != keys[j])
         && (forall i | 0 <= i < |keys| :: keys[i] in members)
         && (forall k | k in members :: k in keys)
         && (forall k | k in members :: Exact(members[k], depth + 1))
       case _ => true
  }

  lemma {:induction false} ExactIsPrintable(v: Json, depth: nat)
    requires Exact(v, depth)
    ensures Printable(v)
    decreases v
  {
    match v
    case Array(items) => forall i | 0 <= i < |items| ensures Printable(items[i]) { ExactIsPrintable(items[i], depth + 1); }
    case Object(keys, members) =>
      forall k | k in members ensures Printable(members[k]) { ExactIsPrintable(members[k], depth + 1); }
    case _ =>
  }

  // ---- White space -------------------------------------------------------

  lemma {:induction false} SkipBlank(text: string, pos: nat, blank: string)
    requires Has(text, pos, blank) && forall i :: 0 <= i < |blank| ==> IsWs(blank[i])
    ensures SkipWs(text, pos) == SkipWs(text, pos + |blank|)
    decreases |blank|
  {
    if |blank| > 0 {
      assert blank == blank[..1] + blank[1..];
      HasSplit(text, pos, blank[..1], blank[1..]);
      HasAt(text, pos, blank, 0);
      SkipBlank(text, pos + 1, blank[1..]);
    }
  }

  lemma SkipNone(text: string, pos: nat)
    requires pos <= |text| && (pos < |text| ==> !IsWs(text[pos]))
    ensures SkipWs(text, pos) == pos
  {
  }

  lemma {:induction false} SkipTwice(text: string, pos: nat)
    requires pos <= |text|
    ensures SkipWs(text, SkipWs(text, pos)) == SkipWs(text, pos)
    decreases |text| - pos
  {
    if pos < |text| && IsWs(text[pos]) { SkipTwice(text, pos + 1); }
  }

  // ---- Strings -----------------------------------------------------------

  lemma EscapedChar(text: string, pos: nat, acc: string, c: char)
    requires Has(text, pos, EscapeChar(c))
    ensures CharsAt(text, pos, acc) == CharsAt(text, pos + |EscapeChar(c)|, acc + [c])
  {
    var e := EscapeChar(c);
    HasAt(text, pos, e, 0);
    if |e| > 1 {
      HasAt(text, pos, e, 1);
    }
    if |e| == 6 {
      ControlEscape(c);
      assert text[pos + 2..pos + 6] == e[2..6] by {
        assert text[pos..pos + 6][2..6] == e[2..6];
      }
    }
  }

  lemma ControlEscape(c: char)
    requires |EscapeChar(c)| == 6
    ensures var h := EscapeChar(c)[2..6]; AllHex(h) && Utf8(HexCode(h)) == [c]
  {
  }

  lemma ClosingQuote(text: string, pos: nat, acc: string)
    requires Has(text, pos, "\"")
    ensures CharsAt(text, pos, acc) == Ok(acc, pos + 1)
  {
  }

  lemma EscapeBodyCons(s: string)
    requires |s| > 0
    ensures EscapeBody(s) + "\"" == EscapeChar(s[0]) + (EscapeBody(s[1..]) + "\"")
    ensures |EscapeBody(s)| == |EscapeChar(s[0])| + |EscapeBody(s[1..])|
  {
  }

  lemma {:induction false} EscapedChars(text: string, pos: nat, acc: string, s: string)
    requires Has(text, pos, EscapeBody(s) + "\"")
    ensures CharsAt(text, pos, acc) == Ok(acc + s, pos + |EscapeBody(s)| + 1)
    decreases |s|
  {
    if |s| == 0 {
      ClosingQuote(text, pos, acc);
      assert acc + s == acc;
    } else {
      EscapeBodyCons(s);
      HasSplit(text, pos, EscapeChar(s[0]), EscapeBody(s[1..]) + "\"");
      EscapedChar(text, pos, acc, s[0]);
      EscapedChars(text, pos + |EscapeChar(s[0])|, acc + [s[0]], s[1..]);
      assert acc + [s[0]] + s[1..] == acc + s;
    }
  }

  /** A printed string parses back to itself. */
  lemma EscapedString(text: string, pos: nat, s: string)
    requires Has(text, pos, Escape(s))
    ensures pos < |text| && text[pos] == '"' && StringAt(text, pos) == Ok(s, pos + |Escape(s)|)
  {
    HasAt(text, pos, Escape(s), 0);
    assert Escape(s) == "\"" + (EscapeBody(s) + "\"");
    HasSplit(text, pos, "\"", EscapeBody(s) + "\"");
    EscapedChars(text, pos + 1, "", s);
    assert "" + s == s;
  }

  // ---- Integers ----------------------------------------------------------

  lemma {:induction false} DigitsAreDigits(n: nat)
    ensures |Digits(n)| > 0 && forall i :: 0 <= i < |Digits(n)| ==> IsDigit(Digits(n)[i])
    ensures DecimalValue(Digits(n)) == n
  {
    if n >= 10 {
      DigitsAreDigits(n / 10);
      var d := Digits(n);
      assert d[..|d| - 1] == Digits(n / 10);
    } else {
      assert Digits(n)[..0] == "";
    }
  }

  lemma {:induction false} DigitRun(text: string, pos: nat, digits: string)
    requires Has(text, pos, digits) && forall i :: 0 <= i < |digits| ==> IsDigit(digits[i])
    requires pos + |digits| < |text| ==> !IsDigit(text[pos + |digits|])
    ensures DigitsEnd(text, pos) == pos + |digits|
    decreases |digits|
  {
    if |digits| > 0 {
      assert digits == digits[..1] + digits[1..];
      HasSplit(text, pos, digits[..1], digits[1..]);
      HasAt(text, pos, digits, 0);
      DigitRun(text, pos + 1, digits[1..]);
    }
  }

  /** The character at pos, if any, cannot continue a number. */
  ghost predicate Stops(text: string, pos: nat) {
    pos < |text| ==> !IsDigit(text[pos]) && text[pos] != '.' && text[pos] != 'e' && text[pos] != 'E'
  }

  lemma IntegerShape(n: int)
    ensures var s := IntToString(n);
      |s| > 0 && (n < 0 ==> s[0] == '-' && s[1..] == Digits(-n)) && (n >= 0 ==> s == Digits(n) && IsDigit(s[0]))
  {
    DigitsAreDigits(if n < 0 then -n else n);
  }

  lemma IntegerEnds(text: string, pos: nat, n: int)
    requires Has(text, pos, IntToString(n)) && Stops(text, pos + |IntToString(n)|)
    ensures var start := if n < 0 then pos + 1 else pos;
      && SignEnd(text, pos) == start
      && DigitsEnd(text, start) == pos + |IntToString(n)| > start
  {
    var s, d := IntToString(n), Digits(if n < 0 then -n else n);
    IntegerShape(n);
    DigitsAreDigits(if n < 0 then -n else n);
    HasAt(text, pos, s, 0);
    if n < 0 {
      assert s == "-" + d;
      HasSplit(text, pos, "-", d);
      DigitRun(text, pos + 1, d);
    } else {
      DigitRun(text, pos, d);
    }
  }

  lemma StrtodInteger(n: int)
    ensures Strtod(IntToString(n)) == n as real
  {
    var s, d := IntToString(n), Digits(if n < 0 then -n else n);
    IntegerShape(n);
    DigitsAreDigits(if n < 0 then -n else n);
    assert s[0..|s|] == s;
    IntegerEnds(s, 0, n);
    var start := SignEnd(s, 0);
    assert s[start..|s|] == d;
    assert DecimalValue("") == 0;
    assert Pow10(0) == 1.0;
  }

  /** A printed integer parses back to itself when nothing after it continues the number. */
  lemma PrintedInteger(text: string, pos: nat, n: int)
    requires Has(text, pos, IntToString(n)) && Stops(text, pos + |IntToString(n)|)
    ensures NumberAt(text, pos) == Ok(Number(n as real), pos + |IntToString(n)|)
  {
    IntegerEnds(text, pos, n);
    StrtodInteger(n);
  }

  // ---- Values ------------------------------------------------------------

  /** The first character of a printed value is neither white space nor a closing bracket. */
  lemma DumpStart(v: Json, indent: int, depth: nat, fmt: Formatter)
    requires Printable(v) && (v.Number? ==> IsSmallInteger(v.n))
    ensures var s := Dump(v, indent, depth, fmt); |s| > 0 && !IsWs(s[0]) && s[0] != ']' && s[0] != '}'
    ensures v.Number? ==> Dump(v, indent, depth, fmt) == IntToString(v.n.Floor)
    ensures v.Number? ==> var c := Dump(v, indent, depth, fmt)[0]; c == '-' || IsDigit(c)
  {
    if v.Number? { IntegerShape(v.n.Floor); }
  }

  /** White space before a value does not matter. */
  lemma ValueAfterBlank(text: string, pos: nat, depth: nat)
    requires pos <= |text| && depth < MAX_DEPTH
    ensures ValueAt(text, pos, depth) == ValueAt(text, SkipWs(text, pos), depth)
  {
    SkipTwice(text, pos);
  }

  lemma ItemsAfterBlank(text: string, p: nat, q: nat, depth: nat, acc: Json)
    requires p <= |text| && q <= |text| && SkipWs(text, p) == SkipWs(text, q) && depth < MAX_DEPTH
    ensures ItemsAt(text, p, depth, acc) == ItemsAt(text, q, depth, acc)
  {
    ValueAfterBlank(text, p, depth);
    ValueAfterBlank(text, q, depth);
  }

  /** A printed value parses back to itself wherever it stands in a text. */
  lemma {:induction false} PrintedValue(text: string, pos: nat, v: Json, indent: int, depth: nat, fmt: Formatter)
    requires Exact(v, depth) && Printable(v)
    requires Has(text, pos, Dump(v, indent, depth, fmt)) && Stops(text, pos + |Dump(v, indent, depth, fmt)|)
    ensures ValueAt(text, pos, depth) == Ok(v, pos + |Dump(v, indent, depth, fmt)|)
    decreases v, 1, 0
  {
    hide Dump, ValueAt, Has;
    match v {
      case Array(_) => PrintedArray(text, pos, v, indent, depth, fmt);
      case Object(_, _) => PrintedObject(text, pos, v, indent, depth, fmt);
      case _ => PrintedScalar(text, pos, v, indent, depth, fmt);
    }
  }

  lemma PrintedScalar(text: string, pos: nat, v: Json, indent: int, depth: nat, fmt: Formatter)
    requires Exact(v, depth) && Printable(v) && !v.Array? && !v.Object?
    requires Has(text, pos, Dump(v, indent, depth, fmt)) && Stops(text, pos + |Dump(v, indent, depth, fmt)|)
    ensures ValueAt(text, pos, depth) == Ok(v, pos + |Dump(v, indent, depth, fmt)|)
  {
    hide ItemsAt, MembersAt, DumpItems, DumpMembers, NumberAt, StringAt, SkipWs, IntToString, Escape;
    var s := Dump(v, indent, depth, fmt);
    DumpStart(v, indent, depth, fmt);
    HasAt(text, pos, s, 0);
    SkipNone(text, pos);
    match v {
      case Number(n) => PrintedInteger(text, pos, n.Floor);
      case String(str) => EscapedString(text, pos, str);
      case _ =>
    }
  }

  // ---- Arrays ------------------------------------------------------------

  lemma Associate(a: string, b: string, c: string)
    ensures (a + b) + c == a + (b + c)
  {
  }

  /** Text printed as a + b + c + d + rest, followed by tail. */
  lemma HasParts(text: string, pos: nat, a: string, b: string, c: string, d: string, rest: string, tail: string)
    requires Has(text, pos, (a + (b + (c + (d + rest)))) + tail)
    ensures Has(text, pos, a) && Has(text, pos + |a|, b) && Has(text, pos + |a| + |b|, c)
    ensures Has(text, pos + |a| + |b| + |c|, d) && Has(text, pos + |a| + |b| + |c| + |d|, rest + tail)
    ensures Has(text, pos + |a| + |b|, c + (d + (rest + tail)))
  {
    hide Has;
    Associate(a, b + (c + (d + rest)), tail);
    Associate(b, c + (d + rest), tail);
    Associate(c, d + rest, tail);
    Associate(d, rest, tail);
    HasSplit(text, pos, a, b + (c + (d + (rest + tail))));
    HasSplit(text, pos + |a|, b, c + (d + (rest + tail)));
    HasSplit(text, pos + |a| + |b|, c, d + (rest + tail));
    HasSplit(text, pos + |a| + |b| + |c|, d, rest + tail);
  }

  predicate Blank(s: string) { forall i :: 0 <= i < |s| ==> IsWs(s[i]) }

  lemma Layout(indent: int, levels: nat)
    ensures Blank(Indentation(indent, levels)) && Blank(Newline(indent))
    ensures indent <= 0 ==> Indentation(indent, levels) == "" && Newline(indent) == ""
  {
  }

  lemma CommaSeparator(text: string, pos: nat, close: char, unterminated: Problem, expected: Problem)
    requires Has(text, pos, ",")
    ensures SeparatorAt(text, pos, close, unterminated, expected) == Ok(true, pos + 1) && Stops(text, pos)
  {
  }

  lemma ClosingSeparator(text: string, pos: nat, blank: string, close: char, unterminated: Problem, expected: Problem)
    requires Has(text, pos, blank + [close]) && Blank(blank) && (close == ']' || close == '}')
    ensures SeparatorAt(text, pos, close, unterminated, expected) == Ok(false, pos + |blank| + 1) && Stops(text, pos)
  {
    HasAt(text, pos, blank + [close], 0);
    HasSplit(text, pos, blank, [close]);
    HasAt(text, pos + |blank|, [close], 0);
    SkipBlank(text, pos, blank);
    SkipNone(text, pos + |blank|);
  }

  /** Where the pieces of a printed element stand. */
  lemma ItemLayout(text: string, pos: nat, v: Json, i: nat, indent: int, depth: nat, fmt: Formatter)
    requires v.Array? && Printable(v) && i < |v.items|
    requires Has(text, pos, DumpItems(v, i, indent, depth, fmt) + (Indentation(indent, depth) + "]"))
    ensures var p := pos + |Indentation(indent, depth + 1)|;
      var end := p + |Dump(v.items[i], indent, depth + 1, fmt)|;
      var close := pos + |DumpItems(v, i, indent, depth, fmt)| + |Indentation(indent, depth)|;
      && SkipWs(text, pos) == SkipWs(text, p)
      && Has(text, p, Dump(v.items[i], indent, depth + 1, fmt))
      && Follows(text, end, close, i + 1 < |v.items|, Newline(indent), ']')
      && (i + 1 < |v.items| ==> ItemLayoutNext(text, end + 1 + |Newline(indent)|, close, v, i + 1, indent, depth, fmt))
  {
    hide Dump, DumpItems, SkipWs, Has, Follows, Blank;
    ItemText(v, i, indent, depth, fmt);
    var pad, s, nl := Indentation(indent, depth + 1), Dump(v.items[i], indent, depth + 1, fmt), Newline(indent);
    var comma := Comma(i + 1 < |v.items|);
    var rest, padEnd := DumpItems(v, i + 1, indent, depth, fmt), Indentation(indent, depth);
    var end := pos + |pad| + |s|;
    HasParts(text, pos, pad, s, comma, nl, rest, padEnd + "]");
    Layout(indent, depth + 1);
    Layout(indent, depth);
    SkipBlank(text, pos, pad);
    AfterValue(text, end, comma, nl, rest, padEnd, ']');
  }

  ghost predicate ItemLayoutNext(text: string, pos: nat, close: nat, v: Json, i: nat, indent: int, depth: nat,
                                 fmt: Formatter)
    requires v.Array? && Printable(v) && i < |v.items|
  {
    && Has(text, pos, DumpItems(v, i, indent, depth, fmt) + (Indentation(indent, depth) + "]"))
    && pos + |DumpItems(v, i, indent, depth, fmt)| + |Indentation(indent, depth)| == close
  }

  /** What follows a printed value at end: a comma and a new line, or the closing bracket at close. */
  ghost predicate Follows(text: string, end: nat, close: nat, more: bool, nl: string, bracket: char) {
    && end < |text| && Stops(text, end) && end <= close <= |text|
    && (more ==> Has(text, end, ",") && Has(text, end + 1, nl) && SkipWs(text, end + 1) == SkipWs(text, end + 1 + |nl|))
    && (!more ==> Has(text, end, text[end..close] + [bracket]) && Blank(text[end..close]))
  }

  lemma AfterValue(text: string, end: nat, comma: string, nl: string, rest: string, padEnd: string, bracket: char)
    requires Has(text, end, comma + (nl + (rest + (padEnd + [bracket])))) && Blank(nl) && Blank(padEnd)
    requires bracket == ']' || bracket == '}'
    requires comma == "," || (comma == "" && rest == "")
    ensures Follows(text, end, end + |comma| + |nl| + |rest| + |padEnd|, comma == ",", nl, bracket)
  {
    hide SkipWs, Blank;
    var tail := padEnd + [bracket];
    if comma == "," {
      HasSplit(text, end, comma, nl + (rest + tail));
      HasSplit(text, end + 1, nl, rest + tail);
      HasAt(text, end, comma, 0);
      BlankIsSkipped(text, end + 1, nl);
    } else {
      assert comma + (nl + (rest + tail)) == (nl + padEnd) + [bracket];
      BeforeBracket(text, end, nl, padEnd, bracket);
    }
  }

  lemma BlankIsSkipped(text: string, pos: nat, blank: string)
    requires Has(text, pos, blank) && Blank(blank)
    ensures SkipWs(text, pos) == SkipWs(text, pos + |blank|)
  {
    SkipBlank(text, pos, blank);
  }

  lemma BeforeBracket(text: string, end: nat, nl: string, padEnd: string, bracket: char)
    requires Has(text, end, (nl + padEnd) + [bracket]) && Blank(nl) && Blank(padEnd) && (bracket == ']' || bracket == '}')
    ensures Follows(text, end, end + |nl| + |padEnd|, false, nl, bracket)
  {
    hide SkipWs;
    var blank := nl + padEnd;
    HasSplit(text, end, blank, [bracket]);
    HasAt(text, end, blank + [bracket], 0);
    assert text[end..end + |blank|] == blank;
  }

  /** The parser sees a comma, and then the next line. */
  lemma CommaFollows(text: string, end: nat, close: nat, nl: string, bracket: char, unterminated: Problem, expected: Problem)
    requires Follows(text, end, close, true, nl, bracket)
    ensures end + 1 + |nl| <= |text| && SkipWs(text, end + 1) == SkipWs(text, end + 1 + |nl|)
    ensures SeparatorAt(text, end, bracket, unterminated, expected) == Ok(true, end + 1)
  {
    hide SkipWs, SeparatorAt;
    CommaSeparator(text, end, bracket, unterminated, expected);
  }

  /** The parser sees the closing bracket. */
  lemma BracketFollows(text: string, end: nat, close: nat, nl: string, bracket: char, unterminated: Problem, expected: Problem)
    requires Follows(text, end, close, false, nl, bracket) && (bracket == ']' || bracket == '}')
    ensures SeparatorAt(text, end, bracket, unterminated, expected) == Ok(false, close + 1)
  {
    hide SkipWs, SeparatorAt;
    ClosingSeparator(text, end, text[end..close], bracket, unterminated, expected);
  }

  lemma ValueStops(text: string, end: nat, close: nat, more: bool, nl: string, bracket: char)
    requires Follows(text, end, close, more, nl, bracket)
    ensures Stops(text, end)
  {
  }

  /** One turn of the loop over elements. */
  lemma ItemsStep(text: string, q: nat, p: nat, depth: nat, acc: Json, item: Json, end: nat)
    requires q <= |text| && p <= |text| && SkipWs(text, q) == SkipWs(text, p) && depth < MAX_DEPTH
    requires ValueAt(text, p, depth) == Ok(item, end)
    ensures match SeparatorAt(text, end, ']', UnterminatedArray, ExpectedCommaOrBracket)
      case Ok(more, next) =>
        ItemsAt(text, q, depth, acc)
        == if more then ItemsAt(text, next, depth, acc.Push(item)) else Ok(acc.Push(item), next)
      case Err(_, _) => true
  {
    ItemsAfterBlank(text, q, p, depth, acc);
  }

  lemma ItemIsExact(v: Json, i: nat, depth: nat)
    requires v.Array? && Exact(v, depth) && i < |v.items|
    ensures Exact(v.items[i], depth + 1) && depth + 1 < MAX_DEPTH
  {
    assert Exact(v.items[i], depth + 1);
  }

  lemma {:induction false} PrintedItems(text: string, q: nat, pos: nat, v: Json, i: nat, indent: int, depth: nat,
                                        fmt: Formatter)
    requires v.Array? && Exact(v, depth) && Printable(v) && i < |v.items|
    requires Has(text, pos, DumpItems(v, i, indent, depth, fmt) + (Indentation(indent, depth) + "]"))
    requires q <= |text| && SkipWs(text, q) == SkipWs(text, pos)
    ensures ItemsAt(text, q, depth + 1, Array(v.items[..i]))
      == Ok(v, pos + |DumpItems(v, i, indent, depth, fmt)| + |Indentation(indent, depth)| + 1)
    decreases v, 0, |v.items| - i
  {
    hide Dump, DumpItems, ValueAt, ItemsAt, SeparatorAt, SkipWs, Has, Indentation, Newline, Follows, Stops, Exact;
    var item := v.items[i];
    var p := pos + |Indentation(indent, depth + 1)|;
    var end := p + |Dump(item, indent, depth + 1, fmt)|;
    var close := pos + |DumpItems(v, i, indent, depth, fmt)| + |Indentation(indent, depth)|;
    ItemLayout(text, pos, v, i, indent, depth, fmt);
    ItemIsExact(v, i, depth);
    ValueStops(text, end, close, i + 1 < |v.items|, Newline(indent), ']');
    PrintedValue(text, p, item, indent, depth + 1, fmt);
    ItemsStep(text, q, p, depth + 1, Array(v.items[..i]), item, end);
    assert Array(v.items[..i]).Push(item) == Array(v.items[..i + 1]);
    if i + 1 < |v.items| {
      CommaFollows(text, end, close, Newline(indent), ']', UnterminatedArray, ExpectedCommaOrBracket);
      PrintedItems(text, end + 1, end + 1 + |Newline(indent)|, v, i + 1, indent, depth, fmt);
    } else {
      BracketFollows(text, end, close, Newline(indent), ']', UnterminatedArray, ExpectedCommaOrBracket);
      assert v.items[..i + 1] == v.items;
    }
  }

  /** How an array opens. */
  lemma ArrayStep(text: string, pos: nat, depth: nat)
    requires pos < |text| && text[pos] == '[' && depth < MAX_DEPTH
    ensures var q := SkipWs(text, pos + 1);
      ValueAt(text, pos, depth)
      == if q < |text| && text[q] == ']' then Ok(Array([]), q + 1) else ItemsAt(text, q, depth + 1, Array([]))
  {
  }

  lemma {:induction false} PrintedArray(text: string, pos: nat, v: Json, indent: int, depth: nat, fmt: Formatter)
    requires v.Array? && Exact(v, depth) && Printable(v)
    requires Has(text, pos, Dump(v, indent, depth, fmt))
    ensures ValueAt(text, pos, depth) == Ok(v, pos + |Dump(v, indent, depth, fmt)|)
    decreases v, 0, |v.items| + 1
  {
    hide ValueAt, ItemsAt, DumpItems, Has, SkipWs, Indentation, Newline;
    if |v.items| == 0 {
      EmptyArray(text, pos, depth);
    } else {
      var nl := Newline(indent);
      var first := pos + 1 + |nl|;
      assert Exact(v.items[0], depth + 1);
      ArrayText(text, pos, v, indent, depth, fmt);
      ArrayStep(text, pos, depth);
      Layout(indent, depth);
      BlankIsSkipped(text, pos + 1, nl);
      FirstItem(text, first, v, indent, depth, fmt);
      SkipTwice(text, first);
      PrintedItems(text, SkipWs(text, first), first, v, 0, indent, depth, fmt);
      assert v.items[..0] == [];
    }
  }

  lemma EmptyArray(text: string, pos: nat, depth: nat)
    requires Has(text, pos, "[]") && depth < MAX_DEPTH
    ensures ValueAt(text, pos, depth) == Ok(Array([]), pos + 2)
  {
    hide ValueAt, ItemsAt;
    HasAt(text, pos, "[]", 0);
    HasAt(text, pos, "[]", 1);
    ArrayStep(text, pos, depth);
    SkipNone(text, pos + 1);
  }

  lemma ArrayText(text: string, pos: nat, v: Json, indent: int, depth: nat, fmt: Formatter)
    requires v.Array? && Printable(v) && |v.items| > 0
    requires Has(text, pos, Dump(v, indent, depth, fmt))
    ensures var nl, items, padEnd := Newline(indent), DumpItems(v, 0, indent, depth, fmt), Indentation(indent, depth);
      && pos < |text| && text[pos] == '[' && Has(text, pos + 1, nl) && Has(text, pos + 1 + |nl|, items + (padEnd + "]"))
      && |Dump(v, indent, depth, fmt)| == 1 + |nl| + |items| + |padEnd| + 1
  {
    hide Has, DumpItems, Newline, Indentation;
    var nl, items, tail := Newline(indent), DumpItems(v, 0, indent, depth, fmt), Indentation(indent, depth) + "]";
    HasSplit(text, pos, "[", nl + (items + tail));
    HasSplit(text, pos + 1, nl, items + tail);
    FirstChar(text, pos, '[');
  }

  /** A non-empty array does not look empty to the parser. */
  lemma FirstItem(text: string, pos: nat, v: Json, indent: int, depth: nat, fmt: Formatter)
    requires v.Array? && Printable(v) && |v.items| > 0 && (v.items[0].Number? ==> IsSmallInteger(v.items[0].n))
    requires Has(text, pos, DumpItems(v, 0, indent, depth, fmt) + (Indentation(indent, depth) + "]"))
    ensures var q := SkipWs(text, pos); q < |text| && text[q] != ']'
  {
    hide Dump, DumpItems, ValueAt, SkipWs, Has, Indentation, Newline;
    ItemLayout(text, pos, v, 0, indent, depth, fmt);
    ValueIsThere(text, pos + |Indentation(indent, depth + 1)|, v.items[0], indent, depth + 1, fmt);
  }

  lemma ValueIsThere(text: string, p: nat, v: Json, indent: int, depth: nat, fmt: Formatter)
    requires Printable(v) && (v.Number? ==> IsSmallInteger(v.n)) && Has(text, p, Dump(v, indent, depth, fmt))
    ensures p < |text| && SkipWs(text, p) == p && text[p] != ']' && text[p] != '}'
  {
    DumpStart(v, indent, depth, fmt);
    HasAt(text, p, Dump(v, indent, depth, fmt), 0);
    SkipNone(text, p);
  }

  // ---- Objects -----------------------------------------------------------

  /** The object built from the first i keys. */
  ghost function Prefix(v: Json, i: nat): Json
    requires v.Object? && i <= |v.keys| && forall j | 0 <= j < |v.keys| :: v.keys[j] in v.members
  {
    Object(v.keys[..i], map k | k in v.keys[..i] :: v.members[k])
  }

  lemma PrefixSet(v: Json, i: nat, depth: nat)
    requires v.Object? && Exact(v, depth) && i < |v.keys|
    ensures Prefix(v, i).Set(v.keys[i], v.members[v.keys[i]]) == Prefix(v, i + 1)
  {
    hide Exact;
    KeyIsNew(v, i, depth);
    var before, after := Prefix(v, i), Prefix(v, i + 1);
    assert before.members[v.keys[i] := v.members[v.keys[i]]] == after.members;
  }

  lemma KeyIsNew(v: Json, i: nat, depth: nat)
    requires v.Object? && Exact(v, depth) && i < |v.keys|
    ensures v.keys[i] !in v.keys[..i] && v.keys[..i + 1] == v.keys[..i] + [v.keys[i]]
    ensures forall j | 0 <= j < |v.keys| :: v.keys[j] in v.members
  {
  }

  lemma WholePrefix(v: Json, depth: nat)
    requires v.Object? && Exact(v, depth)
    ensures Prefix(v, |v.keys|) == v
  {
  }

  lemma HasMemberParts(text: string, pos: nat, pad: string, key: string, colon: string, s: string, c: string, nl: string,
                       rest: string, tail: string)
    requires Has(text, pos, (pad + (key + (colon + (s + (c + (nl + rest)))))) + tail)
    ensures Has(text, pos, pad) && Has(text, pos + |pad|, key) && Has(text, pos + |pad| + |key|, colon)
    ensures var p := pos + |pad| + |key| + |colon|;
      && Has(text, p, s) && Has(text, p + |s|, c) && Has(text, p + |s| + |c|, nl)
      && Has(text, p + |s| + |c| + |nl|, rest + tail)
      && Has(text, p + |s|, c + (nl + (rest + tail)))
  {
    var inner := colon + (s + (c + (nl + rest)));
    hide Has;
    Associate(pad, key + inner, tail);
    Associate(key, inner, tail);
    HasSplit(text, pos, pad, key + (inner + tail));
    HasSplit(text, pos + |pad|, key, inner + tail);
    HasParts(text, pos + |pad| + |key|, colon, s, c, nl, rest, tail);
  }

  /** A printed key and its colon. */
  lemma PrintedKey(text: string, q: nat, pos: nat, key: string, indent: int)
    requires Has(text, pos, Escape(key)) && Has(text, pos + |Escape(key)|, Colon(indent))
    requires q <= |text| && SkipWs(text, q) == SkipWs(text, pos)
    ensures var p := pos + |Escape(key)|;
      KeyAt(text, q) == Ok(key, p + 1) && SkipWs(text, p + 1) == SkipWs(text, p + |Colon(indent)|)
  {
    hide Escape, StringAt;
    var p := pos + |Escape(key)|;
    EscapedString(text, pos, key);
    SkipNone(text, pos);
    HasAt(text, p, Colon(indent), 0);
    SkipNone(text, p);
    if indent > 0 {
      HasAt(text, p, ": ", 1);
    }
  }

  lemma MemberLayout(text: string, pos: nat, v: Json, i: nat, indent: int, depth: nat, fmt: Formatter)
    requires v.Object? && Printable(v) && i < |v.keys|
    requires Has(text, pos, DumpMembers(v, i, indent, depth, fmt) + (Indentation(indent, depth) + "}"))
    ensures var start := pos + |Indentation(indent, depth + 1)|;
      var colon := start + |Escape(v.keys[i])|;
      var p := colon + |Colon(indent)|;
      var end := p + |Dump(v.members[v.keys[i]], indent, depth + 1, fmt)|;
      var close := pos + |DumpMembers(v, i, indent, depth, fmt)| + |Indentation(indent, depth)|;
      && SkipWs(text, pos) == SkipWs(text, start)
      && Has(text, start, Escape(v.keys[i])) && Has(text, colon, Colon(indent))
      && Has(text, p, Dump(v.members[v.keys[i]], indent, depth + 1, fmt))
      && Follows(text, end, close, i + 1 < |v.keys|, Newline(indent), '}')
      && (i + 1 < |v.keys| ==> MemberLayoutNext(text, end + 1 + |Newline(indent)|, close, v, i + 1, indent, depth, fmt))
  {
    hide Dump, DumpMembers, SkipWs, Has, Follows, Escape, Blank, Indentation, Newline, Colon;
    var pad, nl, padEnd := Indentation(indent, depth + 1), Newline(indent), Indentation(indent, depth);
    var key, s := Escape(v.keys[i]), Dump(v.members[v.keys[i]], indent, depth + 1, fmt);
    MemberText(v, i, indent, depth, fmt);
    Layout(indent, depth + 1);
    Layout(indent, depth);
    MemberPlaces(text, pos, DumpMembers(v, i, indent, depth, fmt), pad, key, Colon(indent), s, i + 1 < |v.keys|, nl,
                 DumpMembers(v, i + 1, indent, depth, fmt), padEnd);
  }

  lemma MemberPlaces(text: string, pos: nat, whole: string, pad: string, key: string, colon: string, s: string, more: bool,
                     nl: string, rest: string, padEnd: string)
    requires whole == pad + (key + (colon + (s + (Comma(more) + (nl + rest)))))
    requires Has(text, pos, whole + (padEnd + "}")) && Blank(pad) && Blank(nl) && Blank(padEnd) && (more || rest == "")
    ensures var start := pos + |pad|;
      var p := start + |key| + |colon|;
      var end := p + |s|;
      && SkipWs(text, pos) == SkipWs(text, start)
      && Has(text, start, key) && Has(text, start + |key|, colon) && Has(text, p, s)
      && Follows(text, end, pos + |whole| + |padEnd|, more, nl, '}')
      && (more ==> Has(text, end + 1 + |nl|, rest + (padEnd + "}")))
  {
    hide SkipWs, Has, Follows, Blank;
    HasMemberParts(text, pos, pad, key, colon, s, Comma(more), nl, rest, padEnd + "}");
    BlankIsSkipped(text, pos, pad);
    AfterValue(text, pos + |pad| + |key| + |colon| + |s|, Comma(more), nl, rest, padEnd, '}');
  }

  ghost predicate MemberLayoutNext(text: string, pos: nat, close: nat, v: Json, i: nat, indent: int, depth: nat,
                                   fmt: Formatter)
    requires v.Object? && Printable(v) && i < |v.keys|
  {
    && Has(text, pos, DumpMembers(v, i, indent, depth, fmt) + (Indentation(indent, depth) + "}"))
    && pos + |DumpMembers(v, i, indent, depth, fmt)| + |Indentation(indent, depth)| == close
  }

  /** One turn of the loop over members. */
  lemma MembersStep(text: string, q: nat, depth: nat, acc: Json, key: string, start: nat, p: nat, item: Json, end: nat)
    requires q <= |text| && KeyAt(text, q) == Ok(key, start) && depth < MAX_DEPTH
    requires p <= |text| && SkipWs(text, start) == SkipWs(text, p)
    requires ValueAt(text, p, depth) == Ok(item, end)
    ensures match SeparatorAt(text, end, '}', UnterminatedObject, ExpectedCommaOrBrace)
      case Ok(more, next) =>
        MembersAt(text, q, depth, acc)
        == if more then MembersAt(text, next, depth, acc.Set(key, item)) else Ok(acc.Set(key, item), next)
      case Err(_, _) => true
  {
    ValueAfterBlank(text, start, depth);
    ValueAfterBlank(text, p, depth);
  }

  lemma MemberIsExact(v: Json, i: nat, depth: nat)
    requires v.Object? && Exact(v, depth) && i < |v.keys|
    ensures v.keys[i] in v.members && Exact(v.members[v.keys[i]], depth + 1) && depth + 1 < MAX_DEPTH
  {
    assert Exact(v.members[v.keys[i]], depth + 1);
  }

  lemma {:induction false} PrintedMembers(text: string, q: nat, pos: nat, v: Json, i: nat, indent: int, depth: nat,
                                          fmt: Formatter)
    requires v.Object? && Exact(v, depth) && Printable(v) && i < |v.keys|
    requires Has(text, pos, DumpMembers(v, i, indent, depth, fmt) + (Indentation(indent, depth) + "}"))
    requires q <= |text| && SkipWs(text, q) == SkipWs(text, pos)
    ensures MembersAt(text, q, depth + 1, Prefix(v, i))
      == Ok(v, pos + |DumpMembers(v, i, indent, depth, fmt)| + |Indentation(indent, depth)| + 1)
    decreases v, 0, |v.keys| - i
  {
    hide Dump, DumpMembers, ValueAt, MembersAt, KeyAt, SeparatorAt, SkipWs, Has, Indentation, Newline, Escape, Colon;
    hide Prefix, Follows, Stops, Exact, DumpItems, ItemsAt;
    var key := v.keys[i];
    var item := v.members[key];
    var start := pos + |Indentation(indent, depth + 1)|;
    var colon := start + |Escape(key)|;
    var p := colon + |Colon(indent)|;
    var end := p + |Dump(item, indent, depth + 1, fmt)|;
    var close := pos + |DumpMembers(v, i, indent, depth, fmt)| + |Indentation(indent, depth)|;
    MemberLayout(text, pos, v, i, indent, depth, fmt);
    PrintedKey(text, q, start, key, indent);
    MemberIsExact(v, i, depth);
    ValueStops(text, end, close, i + 1 < |v.keys|, Newline(indent), '}');
    PrintedValue(text, p, item, indent, depth + 1, fmt);
    MembersStep(text, q, depth + 1, Prefix(v, i), key, colon + 1, p, item, end);
    PrefixSet(v, i, depth);
    if i + 1 < |v.keys| {
      CommaFollows(text, end, close, Newline(indent), '}', UnterminatedObject, ExpectedCommaOrBrace);
      PrintedMembers(text, end + 1, end + 1 + |Newline(indent)|, v, i + 1, indent, depth, fmt);
    } else {
      BracketFollows(text, end, close, Newline(indent), '}', UnterminatedObject, ExpectedCommaOrBrace);
      WholePrefix(v, depth);
    }
  }

  /** How an object opens. */
  lemma ObjectStep(text: string, pos: nat, depth: nat)
    requires pos < |text| && text[pos] == '{' && depth < MAX_DEPTH
    ensures var q := SkipWs(text, pos + 1);
      ValueAt(text, pos, depth)
      == if q < |text| && text[q] == '}' then Ok(Object([], map[]), q + 1)
         else MembersAt(text, q, depth + 1, Object([], map[]))
  {
  }

  lemma {:induction false} PrintedObject(text: string, pos: nat, v: Json, indent: int, depth: nat, fmt: Formatter)
    requires v.Object? && Exact(v, depth) && Printable(v)
    requires Has(text, pos, Dump(v, indent, depth, fmt))
    ensures ValueAt(text, pos, depth) == Ok(v, pos + |Dump(v, indent, depth, fmt)|)
    decreases v, 0, |v.keys| + 1
  {
    hide ValueAt, MembersAt, Prefix, DumpMembers, Has, SkipWs, Indentation, Newline;
    if |v.keys| == 0 {
      EmptyObject(text, pos, depth);
      assert v.members == map[];
    } else {
      var members, nl := DumpMembers(v, 0, indent, depth, fmt), Newline(indent);
      var first := pos + 1 + |nl|;
      ObjectText(text, pos, v, indent, depth, fmt);
      ObjectStep(text, pos, depth);
      Layout(indent, depth);
      SkipBlank(text, pos + 1, nl);
      FirstMember(text, first, v, indent, depth, fmt);
      SkipTwice(text, first);
      PrintedMembers(text, SkipWs(text, first), first, v, 0, indent, depth, fmt);
      PrefixNone(v);
    }
  }

  lemma EmptyObject(text: string, pos: nat, depth: nat)
    requires Has(text, pos, "{}") && depth < MAX_DEPTH
    ensures ValueAt(text, pos, depth) == Ok(Object([], map[]), pos + 2)
  {
    hide ValueAt, MembersAt;
    HasAt(text, pos, "{}", 0);
    HasAt(text, pos, "{}", 1);
    ObjectStep(text, pos, depth);
    SkipNone(text, pos + 1);
  }

  lemma PrefixNone(v: Json)
    requires v.Object? && forall j | 0 <= j < |v.keys| :: v.keys[j] in v.members
    ensures Prefix(v, 0) == Object([], map[])
  {
  }

  lemma ObjectText(text: string, pos: nat, v: Json, indent: int, depth: nat, fmt: Formatter)
    requires v.Object? && Printable(v) && |v.keys| > 0
    requires Has(text, pos, Dump(v, indent, depth, fmt))
    ensures var nl, members, padEnd := Newline(indent), DumpMembers(v, 0, indent, depth, fmt), Indentation(indent, depth);
      && pos < |text| && text[pos] == '{' && Has(text, pos + 1, nl) && Has(text, pos + 1 + |nl|, members + (padEnd + "}"))
      && |Dump(v, indent, depth, fmt)| == 1 + |nl| + |members| + |padEnd| + 1
  {
    hide Has, DumpMembers, Newline, Indentation;
    var nl, members, tail := Newline(indent), DumpMembers(v, 0, indent, depth, fmt), Indentation(indent, depth) + "}";
    HasSplit(text, pos, "{", nl + (members + tail));
    HasSplit(text, pos + 1, nl, members + tail);
    FirstChar(text, pos, '{');
  }

  lemma FirstChar(text: string, pos: nat, c: char)
    requires Has(text, pos, [c])
    ensures pos < |text| && text[pos] == c
  {
  }

  lemma FirstMember(text: string, pos: nat, v: Json, indent: int, depth: nat, fmt: Formatter)
    requires v.Object? && Printable(v) && |v.keys| > 0
    requires Has(text, pos, DumpMembers(v, 0, indent, depth, fmt) + (Indentation(indent, depth) + "}"))
    ensures var q := SkipWs(text, pos); q < |text| && text[q] != '}'
  {
    hide SkipWs, DumpMembers, Dump, EscapeBody, Indentation, Follows;
    var start := pos + |Indentation(indent, depth + 1)|;
    MemberLayout(text, pos, v, 0, indent, depth, fmt);
    HasAt(text, start, Escape(v.keys[0]), 0);
    SkipNone(text, start);
  }

  /** Parsing the text of a value gives the value back, key order included, for every indentation. */
  lemma ParseDump(v: Json, indent: int, fmt: Formatter)
    requires Exact(v, 0)
    ensures Printable(v) && ParseText(Dump(v, indent, 0, fmt)) == Ok(v, |Dump(v, indent, 0, fmt)|)
  {
    ExactIsPrintable(v, 0);
    var text := Dump(v, indent, 0, fmt);
    assert text[0..|text|] == text;
    PrintedValue(text, 0, v, indent, 0, fmt);
  }
}

/** The Parser object of src/util/json.cpp: a cursor, a depth and the first error, moved in place. */
module JsonCursor {
  import opened Chars
  import opened JsonValue
  import opened JsonParser

  datatype Failure = NoError | At(problem: Problem, offset: nat)

  /** fail() keeps the first error. */
  function First(error: Failure, problem: Problem, offset: nat): Failure {
    if error.NoError? then At(problem, offset) else error
  }

  class Parser {
    const text: string
    var pos: nat
    var depth: nat
    var error: Failure

    constructor (text: string)
      ensures this.text == text && pos == 0 && depth == 0 && error == NoError
    {
      this.text := text;
      pos, depth, error := 0, 0, NoError;
    }

    /** What a step has done when the function for that step says r. */
    twostate predicate Did<T>(r: Parsed<T>, ok: bool, out: T)
      reads this
    {
      match r
      case Ok(v, p) => ok && out == v && pos == p && depth == old(depth) && error == old(error)
      case Err(m, at) => !ok && pos == at && error == First(old(error), m, at)
    }

    method Fail(problem: Problem) returns (ok: bool)
      modifies this`error
      ensures !ok && error == First(old(error), problem, pos)
    {
      if error.NoError? { error := At(problem, pos); }
      return false;
    }

    method SkipWhitespace()
      requires pos <= |text|
      modifies this`pos
      ensures pos == SkipWs(text, old(pos))
    {
      while pos < |text| && IsWs(text[pos])
        invariant old(pos) <= pos <= |text| && SkipWs(text, pos) == SkipWs(text, old(pos))
      {
        pos := pos + 1;
      }
    }

    method SkipDigits()
      requires pos <= |text|
      modifies this`pos
      ensures pos == DigitsEnd(text, old(pos))
    {
      while pos < |text| && IsDigit(text[pos])
        invariant old(pos) <= pos <= |text| && DigitsEnd(text, pos) == DigitsEnd(text, old(pos))
      {
        pos := pos + 1;
      }
    }

    method SkipSign()
      requires pos <= |text|
      modifies this`pos
      ensures pos == SignEnd(text, old(pos))
    {
      if pos < |text| && (text[pos] == '-' || text[pos] == '+') { pos := pos + 1; }
    }

    method SkipFraction() returns (any: bool)
      requires pos <= |text|
      modifies this`pos
      ensures pos == FractionEnd(text, old(pos)) && (any <==> pos > old(pos) + 1)
    {
      any := false;
      if pos < |text| && text[pos] == '.' {
        pos := pos + 1;
        var digits := pos;
        SkipDigits();
        any := pos > digits;
      }
    }

    method SkipExponent()
      requires pos <= |text|
      modifies this`pos
      ensures pos == ExponentEnd(text, old(pos))
    {
      if pos < |text| && (text[pos] == 'e' || text[pos] == 'E') {
        pos := pos + 1;
        SkipSign();
        SkipDigits();
      }
    }

    method ParseNumber() returns (ok: bool, out: Json)
      requires pos <= |text|
      modifies this`pos, this`error
      ensures Did(NumberAt(text, old(pos)), ok, out)
    {
      out := Null;
      var start := pos;
      SkipSign();
      var digits := pos;
      SkipDigits();
      var anyWhole := pos > digits;
      var anyFraction := SkipFraction();
      if !anyWhole && !anyFraction {
        ok := Fail(InvalidNumber);
        return;
      }
      SkipExponent();
      return true, Number(Strtod(text[start..pos]));
    }

    /** The code point of the four digits from the cursor on. */
    method ReadHex() returns (ok: bool, code: nat)
      requires pos + 4 <= |text|
      ensures ok <==> AllHex(text[pos..pos + 4])
      ensures ok ==> code == HexCode(text[pos..pos + 4])
    {
      code := 0;
      ghost var h := text[pos..pos + 4];
      for i := 0 to 4
        invariant forall k :: 0 <= k < i ==> IsHexDigit(h[k])
        invariant code == (if i == 0 then 0 else if i == 1 then HexValue(h[0])
                           else if i == 2 then HexValue(h[0]) * 16 + HexValue(h[1])
                           else if i == 3 then (HexValue(h[0]) * 16 + HexValue(h[1])) * 16 + HexValue(h[2])
                           else HexCode(h))
      {
        assert h[i] == text[pos + i];
        if !IsHexDigit(text[pos + i]) { return false, 0; }
        code := code * 16 + HexValue(text[pos + i]);
      }
      return true, code;
    }

    /** The character after a backslash, which the cursor has just passed. */
    method ParseEscape(result: string) returns (ok: bool, longer: string)
      requires 0 < pos <= |text| && text[pos - 1] == '\\'
      modifies this`pos, this`error
      ensures ok ==> old(pos) < pos <= |text| && error == old(error)
      ensures ok ==> CharsAt(text, pos, longer) == CharsAt(text, old(pos) - 1, result)
      ensures !ok ==> Did(CharsAt(text, old(pos) - 1, result), ok, longer)
    {
      longer := result;
      if pos >= |text| {
        ok := Fail(UnterminatedEscape);
        return;
      }
      var esc := text[pos];
      pos := pos + 1;
      if esc == 'u' {
        if pos + 4 > |text| {
          ok := Fail(TruncatedUnicode);
          return;
        }
        var isHex, code := ReadHex();
        if !isHex {
          ok := Fail(InvalidUnicode);
          return;
        }
        pos := pos + 4;
        return true, result + Utf8(code);
      }
      if IsSimpleEscape(esc) { return true, result + [SimpleEscape(esc)]; }
      ok := Fail(InvalidEscape);
    }

    method ParseString() returns (ok: bool, out: string)
      requires pos <= |text|
      modifies this`pos, this`error
      ensures Did(StringAt(text, old(pos)), ok, out)
    {
      out := "";
      if pos >= |text| || text[pos] != '"' {
        ok := Fail(ExpectedString);
        return;
      }
      pos := pos + 1;
      var result := "";
      while true
        invariant old(pos) < pos <= |text| && error == old(error)
        invariant CharsAt(text, pos, result) == StringAt(text, old(pos))
        decreases |text| - pos
      {
        if pos >= |text| {
          ok := Fail(UnterminatedString);
          return;
        }
        var c := text[pos];
        pos := pos + 1;
        if c == '"' { return true, result; }
        if c != '\\' {
          result := result + [c];
        } else {
          ok, result := ParseEscape(result);
          if !ok { return; }
        }
      }
    }

    method ParseLiteral(word: string, value: Json) returns (ok: bool, out: Json)
      requires pos <= |text| && |word| > 0
      modifies this`pos, this`error
      ensures Did(LiteralAt(text, old(pos), word, value), ok, out)
    {
      out := Null;
      if Has(text, pos, word) {
        pos := pos + |word|;
        return true, value;
      }
      ok := Fail(InvalidLiteral);
    }

    method ParseValue() returns (ok: bool, out: Json)
      requires pos <= |text|
      modifies this
      ensures Did(ValueAt(text, old(pos), old(depth)), ok, out)
      decreases |text| - pos, 2
    {
      out := Null;
      if depth >= MAX_DEPTH {
        ok := Fail(NestingTooDeep);
        return;
      }
      SkipWhitespace();
      if pos >= |text| {
        ok := Fail(UnexpectedEnd);
        return;
      }
      match text[pos] {
        case '{' => ok, out := ParseObject();
        case '[' => ok, out := ParseArray();
        case '"' =>
          var s;
          ok, s := ParseString();
          if ok { out := String(s); }
        case 't' => ok, out := ParseLiteral("true", Bool(true));
        case 'f' => ok, out := ParseLiteral("false", Bool(false));
        case 'n' => ok, out := ParseLiteral("null", Null);
        case _ => ok, out := ParseNumber();
      }
    }

    method ParseArray() returns (ok: bool, out: Json)
      requires pos < |text| && text[pos] == '[' && depth < MAX_DEPTH && !IsWs(text[pos])
      modifies this
      ensures Did(ValueAt(text, old(pos), old(depth)), ok, out)
      decreases |text| - pos, 1
    {
      out := Null;
      pos := pos + 1;
      depth := depth + 1;
      var arr := Array([]);
      SkipWhitespace();
      if pos < |text| && text[pos] == ']' {
        pos := pos + 1;
        depth := depth - 1;
        return true, arr;
      }
      ok, out := ParseItems(arr);
      if ok { depth := depth - 1; }
    }

    /** The loop of that method, from the first element on. */
    method ParseItems(empty: Json) returns (ok: bool, out: Json)
      requires pos <= |text|
      modifies this
      ensures Did(ItemsAt(text, old(pos), old(depth), empty), ok, out)
      decreases |text| - pos, 3
    {
      out := Null;
      var arr := empty;
      ghost var whole := ItemsAt(text, pos, depth, empty);
      while true
        invariant old(pos) <= pos <= |text|
        invariant depth == old(depth) && error == old(error)
        invariant ItemsAt(text, pos, depth, arr) == whole
        decreases |text| - pos
      {
        var parsed, element := ParseValue();
        if !parsed { return false, Null; }
        arr := arr.Push(element);
        var more;
        ok, more := ParseSeparator(']', UnterminatedArray, ExpectedCommaOrBracket);
        if !ok { return; }
        if !more { return true, arr; }
      }
    }

    method ParseSeparator(close: char, unterminated: Problem, expected: Problem) returns (ok: bool, more: bool)
      requires pos <= |text|
      modifies this`pos, this`error
      ensures Did(SeparatorAt(text, old(pos), close, unterminated, expected), ok, more)
    {
      more := false;
      SkipWhitespace();
      if pos >= |text| {
        ok := Fail(unterminated);
      } else if text[pos] == ',' {
        pos := pos + 1;
        return true, true;
      } else if text[pos] == close {
        pos := pos + 1;
        return true, false;
      } else {
        ok := Fail(expected);
      }
    }

    method ParseKey() returns (ok: bool, key: string)
      requires pos <= |text|
      modifies this`pos, this`error
      ensures Did(KeyAt(text, old(pos)), ok, key)
    {
      SkipWhitespace();
      ok, key := ParseString();
      if !ok { return; }
      SkipWhitespace();
      if pos >= |text| || text[pos] != ':' {
        ok := Fail(ExpectedColon);
        return;
      }
      pos := pos + 1;
    }

    method ParseObject() returns (ok: bool, out: Json)
      requires pos < |text| && text[pos] == '{' && depth < MAX_DEPTH && !IsWs(text[pos])
      modifies this
      ensures Did(ValueAt(text, old(pos), old(depth)), ok, out)
      decreases |text| - pos, 1
    {
      hide MembersAt, ItemsAt, StringAt, NumberAt, LiteralAt;
      out := Null;
      pos := pos + 1;
      depth := depth + 1;
      var obj := Object([], map[]);
      SkipWhitespace();
      if pos < |text| && text[pos] == '}' {
        pos := pos + 1;
        depth := depth - 1;
        return true, obj;
      }
      ok, out := ParseMembers(obj);
      if ok { depth := depth - 1; }
    }

    /** The loop of that method, from the first key on. */
    method ParseMembers(empty: Json) returns (ok: bool, out: Json)
      requires pos <= |text|
      modifies this
      ensures Did(MembersAt(text, old(pos), old(depth), empty), ok, out)
      decreases |text| - pos, 3
    {
      out := Null;
      var obj := empty;
      ghost var whole := MembersAt(text, pos, depth, empty);
      while true
        invariant old(pos) <= pos <= |text|
        invariant depth == old(depth) && error == old(error)
        invariant MembersAt(text, pos, depth, obj) == whole
        decreases |text| - pos
      {
        var hasKey, key := ParseKey();
        if !hasKey { return false, Null; }
        var parsed, value := ParseValue();
        if !parsed { return false, Null; }
        obj := obj.Set(key, value);
        var more;
        ok, more := ParseSeparator('}', UnterminatedObject, ExpectedCommaOrBrace);
        if !ok { return; }
        if !more { return true, obj; }
      }
    }
  }

  /** Json::parse */
  method Parse(text: string) returns (ok: bool, out: Json, error: Failure)
    ensures match ParseText(text)
      case Ok(v, _) => ok && out == v && error == NoError
      case Err(m, at) => !ok && error == At(m, at)
  {
    var parser := new Parser(text);
    var parsed, value := parser.ParseValue();
    if !parsed { return false, Null, parser.error; }
    parser.SkipWhitespace();
    if parser.pos != |text| { return false, Null, At(TrailingCharacters, parser.pos); }
    return true, value, NoError;
  }
}

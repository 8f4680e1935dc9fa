/** The recursive-descent parser of src/util/json.cpp: its cursor-moving methods, and the functions they compute. */
module JsonParser {
  import opened Chars
  import opened JsonValue

  const MAX_DEPTH: nat := 64

  datatype Problem =
    | NestingTooDeep | UnexpectedEnd | InvalidLiteral | InvalidNumber | ExpectedString | UnterminatedString
    | UnterminatedEscape | TruncatedUnicode | InvalidUnicode | InvalidEscape | UnterminatedArray
    | ExpectedCommaOrBracket | ExpectedColon | UnterminatedObject | ExpectedCommaOrBrace | TrailingCharacters
  {
    function Message(): string {
      match this
      case NestingTooDeep => "nesting too deep"
      case UnexpectedEnd => "unexpected end of input"
      case InvalidLiteral => "invalid literal"
      case InvalidNumber => "invalid number"
      case ExpectedString => "expected string"
      case UnterminatedString => "unterminated string"
      case UnterminatedEscape => "unterminated escape"
      case TruncatedUnicode => "truncated \\u escape"
      case InvalidUnicode => "invalid \\u escape"
      case InvalidEscape => "invalid escape"
      case UnterminatedArray => "unterminated array"
      case ExpectedCommaOrBracket => "expected ',' or ']'"
      case ExpectedColon => "expected ':'"
      case UnterminatedObject => "unterminated object"
      case ExpectedCommaOrBrace => "expected ',' or '}'"
      case TrailingCharacters => "trailing characters"
    }
  }

  /** A value and the position after it, or the first error and the position it names. */
  datatype Parsed<+T> = Ok(value: T, pos: nat) | Err(problem: Problem, at: nat)

  predicate Within<T>(text: string, from: nat, r: Parsed<T>) {
    match r
    case Ok(_, p) => from < p <= |text|
    case Err(_, at) => from <= at <= |text|
  }

  function NumberAt(text: string, pos: nat): (r: Parsed<Json>)
    requires pos <= |text|
    ensures Within(text, pos, r)
  {
    var start := SignEnd(text, pos);
    var dot := DigitsEnd(text, start);
    var exp := FractionEnd(text, dot);
    if dot == start && exp <= dot + 1 then Err(InvalidNumber, exp)
    else
      var end := ExponentEnd(text, exp);
      Ok(Number(Strtod(text[pos..end])), end)
  }

  function ExponentEnd(text: string, pos: nat): (p: nat)
    requires pos <= |text|
    ensures pos <= p <= |text|
  {
    if pos < |text| && (text[pos] == 'e' || text[pos] == 'E') then DigitsEnd(text, SignEnd(text, pos + 1)) else pos
  }

  function StringAt(text: string, pos: nat): (r: Parsed<string>)
    requires pos <= |text|
    ensures Within(text, pos, r)
  {
    if pos >= |text| || text[pos] != '"' then Err(ExpectedString, pos) else CharsAt(text, pos + 1, "")
  }

  /** The rest of a string, after acc. */
  function CharsAt(text: string, pos: nat, acc: string): (r: Parsed<string>)
    requires pos <= |text|
    ensures Within(text, pos, r)
    decreases |text| - pos
  {
    if pos >= |text| then Err(UnterminatedString, pos)
    else if text[pos] == '"' then Ok(acc, pos + 1)
    else if text[pos] != '\\' then CharsAt(text, pos + 1, acc + [text[pos]])
    else if pos + 1 >= |text| then Err(UnterminatedEscape, pos + 1)
    else
      var esc := text[pos + 1];
      if esc == 'u' then
        if pos + 6 > |text| then Err(TruncatedUnicode, pos + 2)
        else
          var h := text[pos + 2..pos + 6];
          if !AllHex(h) then Err(InvalidUnicode, pos + 2)
          else CharsAt(text, pos + 6, acc + Utf8(HexCode(h)))
      else if IsSimpleEscape(esc) then CharsAt(text, pos + 2, acc + [SimpleEscape(esc)])
      else Err(InvalidEscape, pos + 2)
  }

  predicate IsSimpleEscape(esc: char) {
    esc == '"' || esc == '\\' || esc == '/' || esc == 'b' || esc == 'f' || esc == 'n' || esc == 'r' || esc == 't'
  }

  function SimpleEscape(esc: char): char
    requires IsSimpleEscape(esc)
  {
    if esc == 'b' then BACKSPACE
    else if esc == 'f' then FORM_FEED
    else if esc == 'n' then '\n'
    else if esc == 'r' then '\r'
    else if esc == 't' then '\t'
    else esc
  }

  function LiteralAt(text: string, pos: nat, word: string, value: Json): (r: Parsed<Json>)
    requires pos <= |text| && |word| > 0
    ensures Within(text, pos, r)
  {
    if Has(text, pos, word) then Ok(value, pos + |word|) else Err(InvalidLiteral, pos)
  }

  function ValueAt(text: string, pos: nat, depth: nat): (r: Parsed<Json>)
    requires pos <= |text|
    ensures Within(text, pos, r)
    decreases |text| - pos, 1
  {
    if depth >= MAX_DEPTH then Err(NestingTooDeep, pos)
    else
      var p := SkipWs(text, pos);
      if p >= |text| then Err(UnexpectedEnd, p)
      else if text[p] == '{' then
        var q := SkipWs(text, p + 1);
        if q < |text| && text[q] == '}' then Ok(Object([], map[]), q + 1)
        else MembersAt(text, q, depth + 1, Object([], map[]))
      else if text[p] == '[' then
        var q := SkipWs(text, p + 1);
        if q < |text| && text[q] == ']' then Ok(Array([]), q + 1)
        else ItemsAt(text, q, depth + 1, Array([]))
      else if text[p] == '"' then
        (match StringAt(text, p) case Ok(s, q) => Ok(String(s), q) case Err(m, at) => Err(m, at))
      else if text[p] == 't' then LiteralAt(text, p, "true", Bool(true))
      else if text[p] == 'f' then LiteralAt(text, p, "false", Bool(false))
      else if text[p] == 'n' then LiteralAt(text, p, "null", Null)
      else NumberAt(text, p)
  }

  /** What follows a value in an array or object: true for a comma, false for the closing bracket. */
  function SeparatorAt(text: string, pos: nat, close: char, unterminated: Problem, expected: Problem): (r: Parsed<bool>)
    requires pos <= |text|
    ensures Within(text, pos, r)
  {
    var q := SkipWs(text, pos);
    if q >= |text| then Err(unterminated, q)
    else if text[q] == ',' then Ok(true, q + 1)
    else if text[q] == close then Ok(false, q + 1)
    else Err(expected, q)
  }

  /** The rest of an array, after acc. */
  function ItemsAt(text: string, pos: nat, depth: nat, acc: Json): (r: Parsed<Json>)
    requires pos <= |text|
    ensures Within(text, pos, r)
    decreases |text| - pos, 2
  {
    match ValueAt(text, pos, depth)
    case Err(m, at) => Err(m, at)
    case Ok(v, p) =>
      match SeparatorAt(text, p, ']', UnterminatedArray, ExpectedCommaOrBracket)
      case Err(m, at) => Err(m, at)
      case Ok(more, q) => if more then ItemsAt(text, q, depth, acc.Push(v)) else Ok(acc.Push(v), q)
  }

  /** One key and its colon. */
  function KeyAt(text: string, pos: nat): (r: Parsed<string>)
    requires pos <= |text|
    ensures Within(text, pos, r)
  {
    match StringAt(text, SkipWs(text, pos))
    case Err(m, at) => Err(m, at)
    case Ok(key, p) =>
      var q := SkipWs(text, p);
      if q >= |text| || text[q] != ':' then Err(ExpectedColon, q) else Ok(key, q + 1)
  }

  /** The rest of an object, after acc. */
  function MembersAt(text: string, pos: nat, depth: nat, acc: Json): (r: Parsed<Json>)
    requires pos <= |text|
    ensures Within(text, pos, r)
    decreases |text| - pos, 2
  {
    match KeyAt(text, pos)
    case Err(m, at) => Err(m, at)
    case Ok(key, start) =>
      match ValueAt(text, start, depth)
      case Err(m, at) => Err(m, at)
      case Ok(v, p) =>
        match SeparatorAt(text, p, '}', UnterminatedObject, ExpectedCommaOrBrace)
        case Err(m, at) => Err(m, at)
        case Ok(more, q) =>
          if more then MembersAt(text, q, depth, acc.Set(key, v)) else Ok(acc.Set(key, v), q)
  }

  /** Json::parse */
  function ParseText(text: string): (r: Parsed<Json>)
    ensures r.Ok? ==> r.pos == |text|
  {
    match ValueAt(text, 0, 0)
    case Err(m, at) => Err(m, at)
    case Ok(v, p) =>
      var q := SkipWs(text, p);
      if q != |text| then Err(TrailingCharacters, q) else Ok(v, q)
  }
}

/** How the parser names what is wrong: the problem, and the place where the text stops being right. */
module JsonErrors {
  import opened Chars
  import opened JsonGrammar
  import opened JsonParser
  import opened JsonRoundTrip
  import opened JsonValue

  /** A value, white space around it included, that may stand as an element or a member. */
  ghost predicate Child(p: Padded) { BlanksOk(p) && SyntaxOk(p.value) && Levels(p.value) <= 63 }

  /** A character that nothing in a text can follow a value with. */
  predicate Stray(c: char) {
    !IsWs(c) && !IsDigit(c) && c !in {'.', 'e', 'E', '-', '+', ',', ']', '}', ':'}
  }

  /** Nothing more, or a stray character and anything after it. */
  predicate EndsOrStrays(rest: string) { rest == "" || Stray(rest[0]) }

  /** A child reads as itself before the end of the text or a stray character. */
  lemma ChildReads(text: string, pos: nat, p: Padded, rest: string)
    requires Child(p) && EndsOrStrays(rest) && pos <= |text| && text[pos..] == PaddedText(p) + rest
    ensures var end := pos + |p.before| + |Text(p.value)|;
      && end <= |text| && ValueAt(text, pos, 1) == Ok(Meaning(p.value), end)
      && SkipWs(text, end) == pos + |PaddedText(p)| <= |text|
  {
    hide PaddedText, SyntaxOk, Levels, BlanksOk, Meaning, ValueAt, Text, SkipWs;
    var close := pos + |PaddedText(p)|;
    Placed(text, pos, PaddedText(p), rest);
    PaddedReads(text, pos, p, 1);
    SkipNone(text, close);
  }

  lemma Placed(text: string, pos: nat, s: string, rest: string)
    requires pos <= |text| && text[pos..] == s + rest
    ensures Has(text, pos, s) && pos + |s| + |rest| == |text|
    ensures |rest| > 0 ==> text[pos + |s|] == rest[0]
  {
    assert text[pos..pos + |s|] == text[pos..][..|s|];
    assert |rest| > 0 ==> text[pos + |s|] == text[pos..][|s|];
  }

  /** An array that breaks off after an element, and one where something else than a comma or bracket follows it. */
  lemma BrokenArray(p: Padded, rest: string)
    requires Child(p) && EndsOrStrays(rest)
    ensures ParseText("[" + PaddedText(p) + rest)
      == Err(if rest == "" then UnterminatedArray else ExpectedCommaOrBracket, 1 + |PaddedText(p)|)
  {
    hide PaddedText, SyntaxOk, Levels, BlanksOk, Meaning, ValueAt, ItemsAt, Text, SkipWs, Stray;
    var text := "[" + PaddedText(p) + rest;
    assert text[1..] == PaddedText(p) + rest;
    ChildReads(text, 1, p, rest);
    Placed(text, 1, PaddedText(p), rest);
    var end := 1 + |p.before| + |Text(p.value)|;
    ItemFails(text, end, 1 + |PaddedText(p)|);
    ArrayFails(text);
  }

  lemma ItemFails(text: string, end: nat, close: nat)
    requires 1 <= end <= |text| && 1 <= close <= |text| && ValueAt(text, 1, 1).Ok? && ValueAt(text, 1, 1).pos == end
    requires SkipWs(text, end) == close && (close < |text| ==> Stray(text[close]))
    ensures ItemsAt(text, 1, 1, Array([]))
      == Err(if close == |text| then UnterminatedArray else ExpectedCommaOrBracket, close)
  {
    hide ValueAt, SkipWs;
  }

  lemma ArrayFails(text: string)
    requires |text| > 0 && text[0] == '[' && ItemsAt(text, 1, 1, Array([])).Err? && ValueAt(text, 1, 1).Ok?
    ensures ParseText(text) == Err(ItemsAt(text, 1, 1, Array([])).problem, ItemsAt(text, 1, 1, Array([])).at)
  {
    hide ItemsAt, ValueAt, SkipWs;
    StartsHere(text);
    ArrayStep(text, 0, 0);
    SkipTwice(text, 1);
    ItemsAfterBlank(text, 1, SkipWs(text, 1), 1, Array([]));
    if SkipWs(text, 1) < |text| && text[SkipWs(text, 1)] == ']' { BracketIsNoValue(text, 1, 1); }
  }

  lemma StartsHere(text: string)
    requires |text| > 0 && !IsWs(text[0])
    ensures SkipWs(text, 0) == 0
  {
  }

  // ---- Objects -----------------------------------------------------------

  /** An object that breaks off after a member's value, or goes on with neither comma nor brace. */
  lemma BrokenObject(key: Key, p: Padded, rest: string)
    requires KeyOk(key) && Child(p) && EndsOrStrays(rest)
    ensures ParseText("{" + (KeyText(key) + (":" + (PaddedText(p) + rest))))
      == Err(if rest == "" then UnterminatedObject else ExpectedCommaOrBrace, 2 + |KeyText(key)| + |PaddedText(p)|)
  {
    hide PaddedText, KeyText, KeyOk, Child, Meaning, ValueAt, KeyAt, Text, SkipWs, Stray, MembersAt, PiecesMeaning, Has;
    var text, start := "{" + (KeyText(key) + (":" + (PaddedText(p) + rest))), 2 + |KeyText(key)|;
    AfterColon(KeyText(key), PaddedText(p), rest);
    KeyReads(text, 1, key, PaddedText(p) + rest);
    KeyStarts(text, 1);
    ChildReads(text, start, p, rest);
    MemberBreaks(text, start, start + |p.before| + |Text(p.value)|, start + |PaddedText(p)|);
    ObjectFails(text);
  }

  lemma AfterColon(key: string, item: string, rest: string)
    ensures var text, start := "{" + (key + (":" + (item + rest))), 2 + |key|;
      && Has(text, 1, key + (":" + (item + rest))) && start + |item| + |rest| == |text|
      && text[start..] == item + rest && (|rest| > 0 ==> text[start + |item|] == rest[0])
  {
  }

  lemma MemberBreaks(text: string, start: nat, end: nat, close: nat)
    requires |text| > 0 && KeyAt(text, 1).Ok? && KeyAt(text, 1).pos == start <= |text|
    requires end <= |text| && close <= |text| && ValueAt(text, start, 1).Ok? && ValueAt(text, start, 1).pos == end
    requires SkipWs(text, end) == close && (close < |text| ==> Stray(text[close]))
    ensures MembersAt(text, 1, 1, Object([], map[]))
      == Err(if close == |text| then UnterminatedObject else ExpectedCommaOrBrace, close)
  {
    hide ValueAt, KeyAt, SkipWs;
  }

  /** An object without a colon after a key: it is missed where it should stand. */
  lemma MissingColon(key: Key, rest: string)
    requires KeyOk(key) && (|rest| > 0 ==> !IsWs(rest[0]) && rest[0] != ':')
    ensures ParseText("{" + (KeyText(key) + rest)) == Err(ExpectedColon, 1 + |KeyText(key)|)
  {
    hide KeyText, KeyOk, SkipWs, IsWs, MembersAt;
    var text, colon := "{" + (KeyText(key) + rest), 1 + |KeyText(key)|;
    assert text[1..] == KeyText(key) + rest;
    Placed(text, 1, KeyText(key), rest);
    KeyBreaks(text, key, colon);
    KeyFails(text);
    ObjectFails(text);
  }

  lemma KeyBreaks(text: string, key: Key, colon: nat)
    requires |text| > 0 && KeyOk(key) && Has(text, 1, KeyText(key)) && colon == 1 + |KeyText(key)|
    requires colon < |text| ==> !IsWs(text[colon]) && text[colon] != ':'
    ensures KeyAt(text, 1) == Err(ExpectedColon, colon)
    ensures SkipWs(text, 1) < |text| && text[SkipWs(text, 1)] == '"'
  {
    hide StringAt, KeyText, KeyOk, Has, SkipWs;
    KeyPlaces(text, 1, key);
    SkipNone(text, colon);
  }

  lemma QuoteIsNoBlank(text: string, pos: nat)
    requires pos < |text| && text[pos] == '"'
    ensures SkipWs(text, pos) == pos
  {
  }

  lemma KeyFails(text: string)
    requires |text| > 0 && KeyAt(text, 1).Err?
    ensures MembersAt(text, 1, 1, Object([], map[])) == Err(KeyAt(text, 1).problem, KeyAt(text, 1).at)
  {
    hide KeyAt;
  }

  lemma ObjectFails(text: string)
    requires |text| > 0 && text[0] == '{' && MembersAt(text, 1, 1, Object([], map[])).Err?
    requires SkipWs(text, 1) < |text| ==> text[SkipWs(text, 1)] != '}'
    ensures var r := MembersAt(text, 1, 1, Object([], map[])); ParseText(text) == Err(r.problem, r.at)
  {
    hide MembersAt, ValueAt, SkipWs;
    StartsHere(text);
    ObjectStep(text, 0, 0);
    SkipTwice(text, 1);
    SameMembers(text, 1, SkipWs(text, 1), 1, Object([], map[]));
  }

  lemma SameMembers(text: string, p: nat, q: nat, depth: nat, acc: Json)
    requires p <= |text| && q <= |text| && SkipWs(text, p) == SkipWs(text, q)
    ensures MembersAt(text, p, depth, acc) == MembersAt(text, q, depth, acc)
  {
    hide ValueAt, SkipWs, StringAt, SeparatorAt;
  }

  // ---- Strings -----------------------------------------------------------

  /** A string that does not end, ends in the middle of an escape, or has an escape that does not exist. */
  lemma BrokenString(ps: seq<Piece>, rest: string)
    requires PiecesOk(ps)
    ensures var at := 1 + |PiecesText(ps)|;
      var r := ParseText("\"" + (PiecesText(ps) + rest));
      && (rest == "" ==> r == Err(UnterminatedString, at))
      && (rest == "\\" ==> r == Err(UnterminatedEscape, at + 1))
      && (|rest| >= 2 && rest[0] == '\\' && rest[1] != 'u' && !IsSimpleEscape(rest[1]) ==> r == Err(InvalidEscape, at + 2))
      && (2 <= |rest| < 6 && rest[..2] == "\\u" ==> r == Err(TruncatedUnicode, at + 2))
      && (|rest| >= 6 && rest[..2] == "\\u" && !AllHex(rest[2..6]) ==> r == Err(InvalidUnicode, at + 2))
  {
    hide PiecesText, AllHex, CharsAt, IsSimpleEscape;
    var text, at := "\"" + (PiecesText(ps) + rest), 1 + |PiecesText(ps)|;
    assert text[1..] == PiecesText(ps) + rest;
    Placed(text, 1, PiecesText(ps), rest);
    PiecesPass(text, 1, "", ps);
    assert text[at..] == rest;
    EscapeBreaks(text, at, "" + PiecesMeaning(ps));
    if CharsAt(text, 1, "").Err? { StringFails(text); }
  }

  lemma {:induction false} PiecesPass(text: string, pos: nat, acc: string, ps: seq<Piece>)
    requires PiecesOk(ps) && Has(text, pos, PiecesText(ps))
    ensures pos + |PiecesText(ps)| <= |text|
    ensures CharsAt(text, pos, acc) == CharsAt(text, pos + |PiecesText(ps)|, acc + PiecesMeaning(ps))
    decreases |ps|
  {
    hide CharsAt, PieceText, PieceMeaning, PieceOk, PiecesText, PiecesMeaning;
    if |ps| == 0 {
      EmptyPieces();
      assert acc + "" == acc;
    } else {
      var p := ps[0];
      FirstPiece(ps);
      HasSplit(text, pos, PieceText(p), PiecesText(ps[1..]));
      PieceReads(text, pos, acc, p);
      PiecesPass(text, pos + |PieceText(p)|, acc + PieceMeaning(p), ps[1..]);
      AppendTwice(acc, PieceMeaning(p), PiecesMeaning(ps[1..]));
    }
  }

  lemma FirstPiece(ps: seq<Piece>)
    requires |ps| > 0 && PiecesOk(ps)
    ensures PiecesText(ps) == PieceText(ps[0]) + PiecesText(ps[1..])
    ensures PiecesMeaning(ps) == PieceMeaning(ps[0]) + PiecesMeaning(ps[1..])
  {
  }

  lemma EscapeBreaks(text: string, at: nat, acc: string)
    requires at <= |text|
    ensures var r, rest := CharsAt(text, at, acc), text[at..];
      && (rest == "" ==> r == Err(UnterminatedString, at))
      && (rest == "\\" ==> r == Err(UnterminatedEscape, at + 1))
      && (|rest| >= 2 && rest[0] == '\\' && rest[1] != 'u' && !IsSimpleEscape(rest[1]) ==> r == Err(InvalidEscape, at + 2))
      && (2 <= |rest| < 6 && rest[..2] == "\\u" ==> r == Err(TruncatedUnicode, at + 2))
      && (|rest| >= 6 && rest[..2] == "\\u" && !AllHex(rest[2..6]) ==> r == Err(InvalidUnicode, at + 2))
  {
    var rest := text[at..];
    if |rest| > 0 { assert rest[0] == text[at]; }
    if |rest| > 1 { assert rest[1] == text[at + 1] && rest[..2] == [rest[0], rest[1]]; }
    if |rest| >= 6 { assert rest[2..6] == text[at + 2..at + 6]; }
  }

  lemma StringFails(text: string)
    requires |text| > 0 && text[0] == '"' && CharsAt(text, 1, "").Err?
    ensures ParseText(text) == Err(CharsAt(text, 1, "").problem, CharsAt(text, 1, "").at)
  {
    hide CharsAt;
    QuoteIsNoBlank(text, 0);
  }

  // ---- The rest ----------------------------------------------------------

  /** Anything after a whole document is too much, and nothing at all is too little. */
  lemma TooMuchOrNothing(p: Padded, rest: string, blank: string)
    requires BlanksOk(p) && SyntaxOk(p.value) && Levels(p.value) <= 64 && |rest| > 0
    requires Stray(rest[0]) || rest[0] in {',', ']', '}'}
    requires IsBlank(blank)
    ensures ParseText(PaddedText(p) + rest) == Err(TrailingCharacters, |PaddedText(p)|)
    ensures ParseText(blank) == Err(UnexpectedEnd, |blank|)
  {
    hide PaddedText, SyntaxOk, Levels, BlanksOk, Meaning, ValueAt, SkipWs;
    var text, close := PaddedText(p) + rest, |PaddedText(p)|;
    assert text[0..] == text;
    Placed(text, 0, PaddedText(p), rest);
    PaddedReads(text, 0, p, 0);
    SkipNone(text, close);
    assert blank[0..|blank|] == blank;
    SkipBlank(blank, 0, blank);
    SkipNone(blank, |blank|);
    NothingThere(blank);
  }

  lemma NothingThere(text: string)
    requires SkipWs(text, 0) == |text|
    ensures ParseText(text) == Err(UnexpectedEnd, |text|)
  {
    hide SkipWs;
  }

  /** A text that starts like a literal and is none, or like nothing at all. */
  lemma NoValue(text: string)
    requires |text| > 0
    ensures text[0] == 't' && !Has(text, 0, "true") ==> ParseText(text) == Err(InvalidLiteral, 0)
    ensures text[0] == 'f' && !Has(text, 0, "false") ==> ParseText(text) == Err(InvalidLiteral, 0)
    ensures text[0] == 'n' && !Has(text, 0, "null") ==> ParseText(text) == Err(InvalidLiteral, 0)
    ensures Stray(text[0]) && text[0] !in {'t', 'f', 'n', '"', '[', '{'} ==> ParseText(text) == Err(InvalidNumber, 0)
  {
  }
}

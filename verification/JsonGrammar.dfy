/** The language of the parser: concrete syntax trees, what they spell and mean, and that it accepts exactly those. */
module JsonGrammar {
  import opened Chars
  import opened JsonParser
  import opened JsonRoundTrip
  import opened JsonValue
  import opened TextLaws
  import opened Wrappers

  // ---- Syntax trees ------------------------------------------------------

  /** One character of a string: itself, a two-character escape, or a \u escape with its four digits. */
  datatype Piece = Raw(c: char) | Simple(esc: char) | Unicode(digits: string)

  datatype Syntax =
    | Literal(value: Json)
    | Numeric(numeral: Numeral)
    | Quoted(pieces: seq<Piece>)
    | EmptyArray(blank: string)
    | EmptyObject(blank: string)
    | Elements(items: Items)
    | Fields(members: Members)

  /** A value between white space. */
  datatype Padded = Padded(before: string, value: Syntax, after: string)

  datatype Key = Key(before: string, pieces: seq<Piece>, after: string)

  datatype Items = Last(item: Padded) | More(item: Padded, rest: Items)

  datatype Members = LastMember(key: Key, item: Padded) | MoreMembers(key: Key, item: Padded, rest: Members)

  // ---- What a tree spells ------------------------------------------------

  function PieceText(p: Piece): string {
    match p
    case Raw(c) => [c]
    case Simple(esc) => ['\\', esc]
    case Unicode(digits) => ['\\', 'u'] + digits
  }

  function PiecesText(ps: seq<Piece>): string { if |ps| == 0 then "" else PieceText(ps[0]) + PiecesText(ps[1..]) }

  function QuotedText(ps: seq<Piece>): string { "\"" + (PiecesText(ps) + "\"") }

  function LiteralText(v: Json): string { if v == Null then "null" else if v == Bool(true) then "true" else "false" }

  function Text(s: Syntax): string {
    match s
    case Literal(v) => LiteralText(v)
    case Numeric(n) => NumeralText(n)
    case Quoted(ps) => QuotedText(ps)
    case EmptyArray(blank) => "[" + (blank + "]")
    case EmptyObject(blank) => "{" + (blank + "}")
    case Elements(items) => "[" + ItemsText(items)
    case Fields(members) => "{" + MembersText(members)
  }

  function PaddedText(p: Padded): string { p.before + (Text(p.value) + p.after) }

  function KeyText(k: Key): string { k.before + (QuotedText(k.pieces) + k.after) }

  function ItemsText(items: Items): string {
    match items
    case Last(item) => PaddedText(item) + "]"
    case More(item, rest) => PaddedText(item) + ("," + ItemsText(rest))
  }

  function MembersText(members: Members): string {
    match members
    case LastMember(key, item) => KeyText(key) + (":" + (PaddedText(item) + "}"))
    case MoreMembers(key, item, rest) => KeyText(key) + (":" + (PaddedText(item) + ("," + MembersText(rest))))
  }

  // ---- Which trees there are ---------------------------------------------

  predicate IsBlank(s: string) { forall i :: 0 <= i < |s| ==> IsWs(s[i]) }

  /** Any character but a quote or a backslash stands for itself. */
  predicate PieceOk(p: Piece) {
    match p
    case Raw(c) => c != '"' && c != '\\'
    case Simple(esc) => IsSimpleEscape(esc)
    case Unicode(digits) => |digits| == 4 && AllHex(digits)
  }

  predicate PiecesOk(ps: seq<Piece>) { forall i :: 0 <= i < |ps| ==> PieceOk(ps[i]) }

  predicate SyntaxOk(s: Syntax) {
    match s
    case Literal(v) => v.Null? || v.Bool?
    case Numeric(n) => WellFormed(n)
    case Quoted(ps) => PiecesOk(ps)
    case EmptyArray(blank) => IsBlank(blank)
    case EmptyObject(blank) => IsBlank(blank)
    case Elements(items) => ItemsOk(items)
    case Fields(members) => MembersOk(members)
  }

  predicate BlanksOk(p: Padded) { IsBlank(p.before) && IsBlank(p.after) }

  predicate KeyOk(k: Key) { IsBlank(k.before) && IsBlank(k.after) && PiecesOk(k.pieces) }

  predicate ItemsOk(items: Items) {
    BlanksOk(items.item) && SyntaxOk(items.item.value) && (items.More? ==> ItemsOk(items.rest))
  }

  predicate MembersOk(members: Members) {
    && KeyOk(members.key) && BlanksOk(members.item) && SyntaxOk(members.item.value)
    && (members.MoreMembers? ==> MembersOk(members.rest))
  }

  /** How many levels deep a tree is. */
  function Levels(s: Syntax): nat {
    match s
    case Elements(items) => 1 + ItemsLevels(items)
    case Fields(members) => 1 + MembersLevels(members)
    case _ => 1
  }

  function Max(a: nat, b: nat): nat { if a < b then b else a }

  function ItemsLevels(items: Items): nat {
    match items
    case Last(item) => Levels(item.value)
    case More(item, rest) => Max(Levels(item.value), ItemsLevels(rest))
  }

  function MembersLevels(members: Members): nat {
    match members
    case LastMember(_, item) => Levels(item.value)
    case MoreMembers(_, item, rest) => Max(Levels(item.value), MembersLevels(rest))
  }

  // ---- What a tree means -------------------------------------------------

  function PieceMeaning(p: Piece): string
    requires PieceOk(p)
  {
    match p
    case Raw(c) => [c]
    case Simple(esc) => [SimpleEscape(esc)]
    case Unicode(digits) => Utf8(HexCode(digits))
  }

  function PiecesMeaning(ps: seq<Piece>): string
    requires PiecesOk(ps)
  {
    if |ps| == 0 then "" else PieceMeaning(ps[0]) + PiecesMeaning(ps[1..])
  }

  function Meaning(s: Syntax): Json
    requires SyntaxOk(s)
  {
    match s
    case Literal(v) => v
    case Numeric(n) => Number(NumeralValue(n))
    case Quoted(ps) => String(PiecesMeaning(ps))
    case EmptyArray(_) => Array([])
    case EmptyObject(_) => Object([], map[])
    case Elements(items) => Array(ItemsMeaning(items))
    case Fields(members) => MembersMeaning(members, Object([], map[]))
  }

  function ItemsMeaning(items: Items): seq<Json>
    requires ItemsOk(items)
  {
    [Meaning(items.item.value)] + if items.More? then ItemsMeaning(items.rest) else []
  }

  /** The members are set one after the other: a key keeps its first place and takes its last value. */
  function MembersMeaning(members: Members, before: Json): Json
    requires MembersOk(members)
  {
    var here := before.Set(PiecesMeaning(members.key.pieces), Meaning(members.item.value));
    if members.MoreMembers? then MembersMeaning(members.rest, here) else here
  }

  // ---- Every tree is accepted --------------------------------------------

  /** What follows a number does not continue it. */
  ghost predicate NumberEnds(text: string, pos: nat) {
    pos < |text| ==> !IsDigit(text[pos]) && text[pos] !in {'.', 'e', 'E', '-', '+'}
  }

  lemma PiecesStep(ps: seq<Piece>)
    requires |ps| > 0 && PiecesOk(ps)
    ensures PiecesText(ps) + "\"" == PieceText(ps[0]) + (PiecesText(ps[1..]) + "\"")
    ensures PiecesMeaning(ps) == PieceMeaning(ps[0]) + PiecesMeaning(ps[1..])
    ensures |PiecesText(ps)| == |PieceText(ps[0])| + |PiecesText(ps[1..])|
  {
  }

  lemma PieceReads(text: string, pos: nat, acc: string, p: Piece)
    requires PieceOk(p) && Has(text, pos, PieceText(p))
    ensures CharsAt(text, pos, acc) == CharsAt(text, pos + |PieceText(p)|, acc + PieceMeaning(p))
  {
    HasAt(text, pos, PieceText(p), 0);
    if !p.Raw? { HasAt(text, pos, PieceText(p), 1); }
    if p.Unicode? {
      assert text[pos + 2..pos + 6] == text[pos..pos + 6][2..] == p.digits;
    }
  }

  lemma {:induction false} PiecesRead(text: string, pos: nat, acc: string, ps: seq<Piece>)
    requires PiecesOk(ps) && Has(text, pos, PiecesText(ps) + "\"")
    ensures CharsAt(text, pos, acc) == Ok(acc + PiecesMeaning(ps), pos + |PiecesText(ps)| + 1)
    decreases |ps|
  {
    hide CharsAt, PiecesText, PieceText, PiecesMeaning, PieceMeaning, PieceOk;
    if |ps| == 0 {
      NoPieces(text, pos, acc);
    } else {
      var p := ps[0];
      PiecesStep(ps);
      HasSplit(text, pos, PieceText(p), PiecesText(ps[1..]) + "\"");
      PieceReads(text, pos, acc, p);
      PiecesRead(text, pos + |PieceText(p)|, acc + PieceMeaning(p), ps[1..]);
      AppendTwice(acc, PieceMeaning(p), PiecesMeaning(ps[1..]));
    }
  }

  lemma NoPieces(text: string, pos: nat, acc: string)
    requires Has(text, pos, PiecesText([]) + "\"")
    ensures PiecesText([]) == "" && PiecesMeaning([]) == "" && CharsAt(text, pos, acc) == Ok(acc + "", pos + 1)
  {
    HasAt(text, pos, "\"", 0);
    assert acc + "" == acc;
  }

  lemma AppendTwice(a: string, b: string, c: string)
    ensures a + b + c == a + (b + c)
  {
  }

  lemma QuotedReads(text: string, pos: nat, ps: seq<Piece>)
    requires PiecesOk(ps) && Has(text, pos, QuotedText(ps))
    ensures StringAt(text, pos) == Ok(PiecesMeaning(ps), pos + |QuotedText(ps)|)
  {
    hide CharsAt, PiecesText, PiecesMeaning;
    HasSplit(text, pos, "\"", PiecesText(ps) + "\"");
    HasAt(text, pos, "\"", 0);
    PiecesRead(text, pos + 1, "", ps);
    assert "" + PiecesMeaning(ps) == PiecesMeaning(ps);
  }

  // ---- Numbers in a text -------------------------------------------------

  lemma {:induction false} DigitsLocal(text: string, pos: nat, len: nat, i: nat)
    requires pos + len <= |text| && i <= len && (pos + len < |text| ==> !IsDigit(text[pos + len]))
    ensures DigitsEnd(text, pos + i) == pos + DigitsEnd(text[pos..pos + len], i)
    decreases len - i
  {
    if i < len { DigitsLocal(text, pos, len, i + 1); }
  }

  lemma SignLocal(text: string, pos: nat, len: nat, i: nat)
    requires pos + len <= |text| && i <= len && NumberEnds(text, pos + len)
    ensures SignEnd(text, pos + i) == pos + SignEnd(text[pos..pos + len], i)
  {
  }

  lemma FractionLocal(text: string, pos: nat, len: nat, i: nat)
    requires pos + len <= |text| && i <= len && NumberEnds(text, pos + len)
    ensures FractionEnd(text, pos + i) == pos + FractionEnd(text[pos..pos + len], i)
  {
    if i < len { DigitsLocal(text, pos, len, i + 1); }
  }

  lemma ExponentLocal(text: string, pos: nat, len: nat, i: nat)
    requires pos + len <= |text| && i <= len && NumberEnds(text, pos + len)
    ensures ExponentEnd(text, pos + i) == pos + ExponentEnd(text[pos..pos + len], i)
  {
    hide SignEnd;
    if i < len {
      SignLocal(text, pos, len, i + 1);
      DigitsLocal(text, pos, len, SignEnd(text[pos..pos + len], i + 1));
    }
  }

  lemma NumeralReadsAt(text: string, pos: nat, n: Numeral)
    requires WellFormed(n) && Has(text, pos, NumeralText(n)) && NumberEnds(text, pos + |NumeralText(n)|)
    ensures NumberAt(text, pos) == Ok(Number(NumeralValue(n)), pos + |NumeralText(n)|)
  {
    hide NumeralText, NumeralValue, WellFormed, Strtod, SignEnd, DigitsEnd, FractionEnd, ExponentEnd;
    var t := NumeralText(n);
    NumeralReads(n);
    var start := SignEnd(t, 0);
    var dot := DigitsEnd(t, start);
    var exp := FractionEnd(t, dot);
    SignLocal(text, pos, |t|, 0);
    DigitsLocal(text, pos, |t|, start);
    FractionLocal(text, pos, |t|, dot);
    ExponentLocal(text, pos, |t|, exp);
    assert t[0..|t|] == t;
  }

  // ---- Values, elements and members --------------------------------------

  lemma NumeralStarts(n: Numeral)
    requires WellFormed(n)
    ensures |NumeralText(n)| > 0
    ensures var c := NumeralText(n)[0]; c == '-' || c == '+' || c == '.' || IsDigit(c)
  {
    var t := NumeralText(n);
    if |n.sign| > 0 {
      assert t[0] == n.sign[0];
    } else if |n.whole| > 0 {
      assert t[0] == n.whole[0];
    } else {
      assert t[0] == FractionText(n)[0];
    }
  }

  /** A numeral ends with a digit or its point, unless its exponent has no digits. */
  lemma NumeralStops(n: Numeral)
    requires WellFormed(n) && (n.exponent.Some? ==> |n.exponent.value.digits| > 0)
    ensures |NumeralText(n)| > 0
    ensures var c := NumeralText(n)[|NumeralText(n)| - 1]; c == '.' || IsDigit(c)
  {
    var t := NumeralText(n);
    if n.exponent.Some? {
      var d := n.exponent.value.digits;
      assert t[|t| - 1] == d[|d| - 1];
    } else if n.fraction.Some? {
      var f := "." + n.fraction.value;
      assert t[|t| - 1] == f[|f| - 1];
    } else {
      assert t[|t| - 1] == n.whole[|n.whole| - 1];
    }
  }

  lemma ScalarReads(text: string, pos: nat, s: Syntax, depth: nat)
    requires SyntaxOk(s) && Has(text, pos, Text(s)) && NumberEnds(text, pos + |Text(s)|) && depth < MAX_DEPTH
    requires s.Literal? || s.Numeric? || s.Quoted?
    ensures ValueAt(text, pos, depth) == Ok(Meaning(s), pos + |Text(s)|)
  {
    hide CharsAt, NumberAt, PiecesText, NumeralText, NumeralValue, WellFormed;
    match s {
      case Literal(v) => HasAt(text, pos, LiteralText(v), 0);
      case Numeric(n) =>
        NumeralStarts(n);
        HasAt(text, pos, NumeralText(n), 0);
        NumeralReadsAt(text, pos, n);
      case Quoted(ps) =>
        HasAt(text, pos, QuotedText(ps), 0);
        QuotedReads(text, pos, ps);
    }
  }

  lemma EmptyReads(text: string, pos: nat, s: Syntax, depth: nat)
    requires SyntaxOk(s) && Has(text, pos, Text(s)) && depth < MAX_DEPTH
    requires s.EmptyArray? || s.EmptyObject?
    ensures ValueAt(text, pos, depth) == Ok(Meaning(s), pos + |Text(s)|)
  {
    hide Has, ItemsAt, MembersAt, ValueAt, SkipWs;
    var open, close := if s.EmptyArray? then "[" else "{", if s.EmptyArray? then "]" else "}";
    var blank := s.blank;
    HasSplit(text, pos, open, blank + close);
    HasSplit(text, pos + 1, blank, close);
    HasAt(text, pos, open, 0);
    HasAt(text, pos + 1 + |blank|, close, 0);
    InText(text, pos + 1 + |blank|, close);
    SkipBlank(text, pos + 1, blank);
    SkipNone(text, pos + 1 + |blank|);
    if s.EmptyArray? { ArrayStep(text, pos, depth); } else { ObjectStep(text, pos, depth); }
  }

  lemma InText(text: string, pos: nat, s: string)
    requires Has(text, pos, s)
    ensures pos + |s| <= |text|
  {
  }

  /** A value between white space, before a comma or a closing bracket. */
  lemma {:induction false} PaddedReads(text: string, pos: nat, p: Padded, depth: nat)
    requires BlanksOk(p) && SyntaxOk(p.value) && Has(text, pos, PaddedText(p)) && depth + Levels(p.value) <= 64
    requires NumberEnds(text, pos + |PaddedText(p)|)
    ensures var end := pos + |p.before| + |Text(p.value)|;
      && end <= |text| && ValueAt(text, pos, depth) == Ok(Meaning(p.value), end)
      && SkipWs(text, end) == SkipWs(text, pos + |PaddedText(p)|)
    decreases p, 0
  {
    hide ValueAt, Text, Levels, SyntaxOk, Meaning, Has, SkipWs, BlanksOk, NumberEnds, PaddedText;
    var start := pos + |p.before|;
    PaddedPlaces(text, pos, p);
    SomeLevel(p.value);
    ValueReads(text, start, p.value, depth);
    ValueAfterBlank(text, pos, depth);
    ValueAfterBlank(text, start, depth);
  }

  lemma PaddedPlaces(text: string, pos: nat, p: Padded)
    requires BlanksOk(p) && Has(text, pos, PaddedText(p)) && NumberEnds(text, pos + |PaddedText(p)|)
    ensures var start := pos + |p.before|;
      var end := start + |Text(p.value)|;
      && end <= |text| && Has(text, start, Text(p.value)) && NumberEnds(text, end)
      && SkipWs(text, pos) == SkipWs(text, start) && SkipWs(text, end) == SkipWs(text, pos + |PaddedText(p)|)
  {
    hide Text, Has, SkipWs;
    var start := pos + |p.before|;
    var end := start + |Text(p.value)|;
    HasSplit(text, pos, p.before, Text(p.value) + p.after);
    HasSplit(text, start, Text(p.value), p.after);
    InText(text, end, p.after);
    if |p.after| > 0 { HasAt(text, end, p.after, 0); }
    SkipBlank(text, pos, p.before);
    SkipBlank(text, end, p.after);
  }

  lemma SomeLevel(s: Syntax)
    ensures Levels(s) > 0
  {
  }

  lemma {:induction false} ValueReads(text: string, pos: nat, s: Syntax, depth: nat)
    requires SyntaxOk(s) && Has(text, pos, Text(s)) && NumberEnds(text, pos + |Text(s)|) && depth + Levels(s) <= 64
    ensures ValueAt(text, pos, depth) == Ok(Meaning(s), pos + |Text(s)|)
    decreases s, 0
  {
    hide ValueAt, Has, Text, SyntaxOk, Meaning, Levels, ItemsText, MembersText, ItemsLevels, MembersLevels;
    hide ItemsMeaning, MembersMeaning, ItemsOk, MembersOk, ItemsAt, MembersAt, NumberEnds;
    SomeLevel(s);
    match s {
      case Elements(items) =>
        Inside(s);
        HasSplit(text, pos, "[", ItemsText(items));
        ItemsRead(text, pos + 1, items, depth + 1, []);
        ElementsRead(text, pos, items, depth);
      case Fields(members) =>
        Inside(s);
        HasSplit(text, pos, "{", MembersText(members));
        MembersRead(text, pos + 1, members, depth + 1, Object([], map[]));
        FieldsRead(text, pos, members, depth);
      case EmptyArray(_) => EmptyReads(text, pos, s, depth);
      case EmptyObject(_) => EmptyReads(text, pos, s, depth);
      case _ => ScalarReads(text, pos, s, depth);
    }
  }

  lemma Inside(s: Syntax)
    requires SyntaxOk(s)
    ensures s.Elements? ==>
      && ItemsOk(s.items) && Text(s) == "[" + ItemsText(s.items) && Meaning(s) == Array(ItemsMeaning(s.items))
      && Levels(s) == 1 + ItemsLevels(s.items) && ItemsLevels(s.items) > 0
    ensures s.Fields? ==>
      && MembersOk(s.members) && Text(s) == "{" + MembersText(s.members)
      && Meaning(s) == MembersMeaning(s.members, Object([], map[]))
      && Levels(s) == 1 + MembersLevels(s.members) && MembersLevels(s.members) > 0
  {
  }

  /** After a comma or a closing bracket, wherever white space leads to it. */
  lemma SeparatorReads(text: string, end: nat, close: nat, bracket: char, unterminated: Problem, expected: Problem)
    requires end <= |text| && close < |text| && SkipWs(text, end) == SkipWs(text, close)
    requires text[close] == ',' || text[close] == bracket
    requires bracket == ']' || bracket == '}'
    ensures SeparatorAt(text, end, bracket, unterminated, expected) == Ok(text[close] == ',', close + 1)
  {
    SkipNone(text, close);
  }

  /** The first element and what follows it. */
  lemma {:induction false} ItemReads(text: string, pos: nat, items: Items, depth: nat, acc: seq<Json>)
    requires ItemsOk(items) && Has(text, pos, ItemsText(items)) && depth + ItemsLevels(items) <= 64
    ensures var next, here := pos + |PaddedText(items.item)| + 1, Array(acc + [Meaning(items.item.value)]);
      && next <= |text| && (items.More? ==> Has(text, next, ItemsText(items.rest)))
      && ItemsAt(text, pos, depth, Array(acc)) == if items.More? then ItemsAt(text, next, depth, here) else Ok(here, next)
    decreases items, 0
  {
    hide ValueAt, Text, Has, SkipWs, SeparatorAt, Meaning, Levels, ItemsAt, ItemsText, ItemsMeaning, ItemsLevels;
    hide PaddedText, SyntaxOk, BlanksOk;
    var p, rest := items.item, if items.More? then "," + ItemsText(items.rest) else "]";
    ItemsUnfold(items);
    var close := pos + |PaddedText(p)|;
    HasSplit(text, pos, PaddedText(p), rest);
    HasAt(text, close, rest, 0);
    InText(text, close, rest);
    PaddedReads(text, pos, p, depth);
    var end, v := pos + |p.before| + |Text(p.value)|, Meaning(p.value);
    SeparatorReads(text, end, close, ']', UnterminatedArray, ExpectedCommaOrBracket);
    ItemsStep(text, pos, pos, depth, Array(acc), v, end);
    assert Array(acc).Push(v) == Array(acc + [v]);
    if items.More? { HasSplit(text, close, ",", ItemsText(items.rest)); }
  }

  lemma {:induction false} ItemsRead(text: string, pos: nat, items: Items, depth: nat, acc: seq<Json>)
    requires ItemsOk(items) && Has(text, pos, ItemsText(items)) && depth + ItemsLevels(items) <= 64
    ensures ItemsAt(text, pos, depth, Array(acc)) == Ok(Array(acc + ItemsMeaning(items)), pos + |ItemsText(items)|)
    decreases items, 1
  {
    hide Meaning, Has, Levels, PaddedText, ItemsAt, ItemsText, ItemsMeaning, ItemsLevels, BlanksOk, SyntaxOk;
    ItemsUnfold(items);
    ItemReads(text, pos, items, depth, acc);
    var v := Meaning(items.item.value);
    if items.More? {
      ItemsRead(text, pos + |PaddedText(items.item)| + 1, items.rest, depth, acc + [v]);
      assert acc + [v] + ItemsMeaning(items.rest) == acc + ([v] + ItemsMeaning(items.rest));
    } else {
      assert acc + [v] == acc + ([v] + []);
    }
  }

  /** A key between white space: where its string stands, and that nothing but white space follows it. */
  lemma KeyPlaces(text: string, pos: nat, key: Key)
    requires KeyOk(key) && Has(text, pos, KeyText(key))
    ensures var start := SkipWs(text, pos);
      && start < |text| && text[start] == '"' && StringAt(text, start).Ok?
      && StringAt(text, start).value == PiecesMeaning(key.pieces)
      && pos + |KeyText(key)| <= |text| && SkipWs(text, StringAt(text, start).pos) == SkipWs(text, pos + |KeyText(key)|)
  {
    hide StringAt, QuotedText, Has, PiecesMeaning, PiecesOk, SkipWs;
    var start := pos + |key.before|;
    HasSplit(text, pos, key.before, QuotedText(key.pieces) + key.after);
    HasSplit(text, start, QuotedText(key.pieces), key.after);
    InText(text, start + |QuotedText(key.pieces)|, key.after);
    QuotedReads(text, start, key.pieces);
    QuoteFirst(text, start, key.pieces);
    SkipBlank(text, pos, key.before);
    SkipNone(text, start);
    SkipBlank(text, start + |QuotedText(key.pieces)|, key.after);
  }

  lemma ItemsUnfold(items: Items)
    requires ItemsOk(items)
    ensures ItemsText(items) == PaddedText(items.item) + if items.More? then "," + ItemsText(items.rest) else "]"
    ensures ItemsMeaning(items) == [Meaning(items.item.value)] + if items.More? then ItemsMeaning(items.rest) else []
    ensures 0 < Levels(items.item.value) <= ItemsLevels(items)
    ensures items.More? ==> ItemsLevels(items.rest) <= ItemsLevels(items)
  {
  }

  lemma KeyReads(text: string, pos: nat, key: Key, after: string)
    requires KeyOk(key) && Has(text, pos, KeyText(key) + (":" + after))
    ensures KeyAt(text, pos) == Ok(PiecesMeaning(key.pieces), pos + |KeyText(key)| + 1)
  {
    hide StringAt, KeyText, Has, PiecesMeaning, SkipWs;
    var colon := pos + |KeyText(key)|;
    HasSplit(text, pos, KeyText(key), ":" + after);
    HasAt(text, colon, ":" + after, 0);
    InText(text, colon, ":" + after);
    KeyPlaces(text, pos, key);
    SkipNone(text, colon);
  }

  lemma QuoteFirst(text: string, pos: nat, ps: seq<Piece>)
    requires Has(text, pos, QuotedText(ps))
    ensures pos < |text| && text[pos] == '"'
  {
    HasAt(text, pos, QuotedText(ps), 0);
  }

  /** The first member and what follows it. */
  lemma {:induction false} MemberReads(text: string, pos: nat, members: Members, depth: nat, acc: Json)
    requires MembersOk(members) && Has(text, pos, MembersText(members)) && depth + MembersLevels(members) <= 64
    ensures var next := pos + |KeyText(members.key)| + 1 + |PaddedText(members.item)| + 1;
      var here := MemberSet(members, acc);
      && next <= |text| && (members.MoreMembers? ==> Has(text, next, MembersText(members.rest)))
      && MembersAt(text, pos, depth, acc)
         == if members.MoreMembers? then MembersAt(text, next, depth, here) else Ok(here, next)
    decreases members, 0
  {
    hide ValueAt, Text, KeyAt, KeyText, Has, SkipWs, SeparatorAt, Meaning, PiecesMeaning, Levels;
    hide MembersAt, MembersText, MembersMeaning, MembersLevels, PaddedText, BlanksOk, SyntaxOk, PiecesOk, IsBlank;
    var key, p := members.key, members.item;
    var rest := if members.MoreMembers? then "," + MembersText(members.rest) else "}";
    var start := pos + |KeyText(key)| + 1;
    var close := start + |PaddedText(p)|;
    MembersUnfold(members, acc);
    KeyReads(text, pos, key, PaddedText(p) + rest);
    HasMember(text, pos, KeyText(key), PaddedText(p), rest);
    PaddedReads(text, start, p, depth);
    var end := start + |p.before| + |Text(p.value)|;
    SeparatorReads(text, end, close, '}', UnterminatedObject, ExpectedCommaOrBrace);
    MembersStep(text, pos, depth, acc, PiecesMeaning(key.pieces), start, start, Meaning(p.value), end);
    if members.MoreMembers? { HasSplit(text, close, ",", MembersText(members.rest)); }
  }

  lemma HasMember(text: string, pos: nat, key: string, item: string, rest: string)
    requires Has(text, pos, key + (":" + (item + rest))) && |rest| > 0
    ensures var start := pos + |key| + 1;
      var close := start + |item|;
      && Has(text, start, item) && Has(text, close, rest) && close + |rest| <= |text| && text[close] == rest[0]
  {
    hide Has;
    var start := pos + |key| + 1;
    HasSplit(text, pos, key, ":" + (item + rest));
    HasSplit(text, start - 1, ":", item + rest);
    HasSplit(text, start, item, rest);
    HasAt(text, start + |item|, rest, 0);
    InText(text, start + |item|, rest);
  }

  lemma {:induction false} MembersRead(text: string, pos: nat, members: Members, depth: nat, acc: Json)
    requires MembersOk(members) && Has(text, pos, MembersText(members)) && depth + MembersLevels(members) <= 64
    ensures MembersAt(text, pos, depth, acc) == Ok(MembersMeaning(members, acc), pos + |MembersText(members)|)
    decreases members, 1
  {
    hide Meaning, PiecesMeaning, Has, Levels, KeyText, PaddedText, MembersAt, MembersText, MembersMeaning, MembersLevels;
    hide KeyOk, BlanksOk, SyntaxOk;
    MembersUnfold(members, acc);
    MemberReads(text, pos, members, depth, acc);
    if members.MoreMembers? {
      var next := pos + |KeyText(members.key)| + 1 + |PaddedText(members.item)| + 1;
      MembersRead(text, next, members.rest, depth, MemberSet(members, acc));
    }
  }

  lemma MembersUnfold(members: Members, acc: Json)
    requires MembersOk(members)
    ensures var rest := if members.MoreMembers? then "," + MembersText(members.rest) else "}";
      && MembersText(members) == KeyText(members.key) + (":" + (PaddedText(members.item) + rest))
      && Levels(members.item.value) <= MembersLevels(members) && Levels(members.item.value) > 0
      && (members.MoreMembers? ==> MembersLevels(members.rest) <= MembersLevels(members))
    ensures MembersMeaning(members, acc)
      == if members.MoreMembers? then MembersMeaning(members.rest, MemberSet(members, acc)) else MemberSet(members, acc)
  {
  }

  /** acc with the first member set. */
  function MemberSet(members: Members, acc: Json): Json
    requires MembersOk(members)
  {
    acc.Set(PiecesMeaning(members.key.pieces), Meaning(members.item.value))
  }

  lemma BracketIsNoValue(text: string, pos: nat, depth: nat)
    requires pos <= |text| && SkipWs(text, pos) < |text| && text[SkipWs(text, pos)] in {']', '}', ','}
    ensures ValueAt(text, pos, depth).Err?
  {
  }

  lemma ElementsRead(text: string, pos: nat, items: Items, depth: nat)
    requires ItemsOk(items) && Has(text, pos, "[" + ItemsText(items)) && depth + 1 < MAX_DEPTH
    requires ItemsAt(text, pos + 1, depth + 1, Array([]))
      == Ok(Array([] + ItemsMeaning(items)), pos + 1 + |ItemsText(items)|)
    ensures ValueAt(text, pos, depth) == Ok(Array(ItemsMeaning(items)), pos + |"[" + ItemsText(items)|)
  {
    hide ItemsText, ItemsMeaning, ValueAt, ItemsAt, SkipWs;
    HasAt(text, pos, "[" + ItemsText(items), 0);
    ArrayStep(text, pos, depth);
    SkipTwice(text, pos + 1);
    ItemsAfterBlank(text, pos + 1, SkipWs(text, pos + 1), depth + 1, Array([]));
    assert [] + ItemsMeaning(items) == ItemsMeaning(items);
    FirstIsValue(text, pos + 1, depth + 1);
  }

  lemma FirstIsValue(text: string, pos: nat, depth: nat)
    requires pos <= |text| && ItemsAt(text, pos, depth, Array([])).Ok?
    ensures SkipWs(text, pos) < |text| ==> text[SkipWs(text, pos)] != ']'
  {
    hide ValueAt, SkipWs;
    if SkipWs(text, pos) < |text| && text[SkipWs(text, pos)] == ']' { BracketIsNoValue(text, pos, depth); }
  }

  lemma FieldsRead(text: string, pos: nat, members: Members, depth: nat)
    requires MembersOk(members) && Has(text, pos, "{" + MembersText(members)) && depth + 1 < MAX_DEPTH
    requires MembersAt(text, pos + 1, depth + 1, Object([], map[]))
      == Ok(MembersMeaning(members, Object([], map[])), pos + 1 + |MembersText(members)|)
    ensures ValueAt(text, pos, depth)
      == Ok(MembersMeaning(members, Object([], map[])), pos + |"{" + MembersText(members)|)
  {
    hide MembersText, MembersMeaning, ValueAt, MembersAt, SkipWs;
    HasAt(text, pos, "{" + MembersText(members), 0);
    ObjectStep(text, pos, depth);
    SkipTwice(text, pos + 1);
    MembersAfterBlank(text, pos + 1, depth + 1, Object([], map[]));
  }

  lemma MembersAfterBlank(text: string, pos: nat, depth: nat, acc: Json)
    requires pos <= |text| && SkipWs(text, SkipWs(text, pos)) == SkipWs(text, pos)
    ensures MembersAt(text, pos, depth, acc) == MembersAt(text, SkipWs(text, pos), depth, acc)
    ensures MembersAt(text, pos, depth, acc).Ok? ==> SkipWs(text, pos) < |text| && text[SkipWs(text, pos)] != '}'
  {
    hide ValueAt, StringAt, SeparatorAt, SkipWs;
    if KeyAt(text, pos).Ok? { KeyStarts(text, pos); }
  }

  lemma KeyStarts(text: string, pos: nat)
    requires pos <= |text| && KeyAt(text, pos).Ok?
    ensures SkipWs(text, pos) < |text| && text[SkipWs(text, pos)] == '"'
  {
    hide CharsAt, SkipWs;
  }

  // ---- Nothing else is accepted ------------------------------------------

  lemma Cut(text: string, a: nat, b: nat, c: nat)
    requires a <= b <= c <= |text|
    ensures text[a..c] == text[a..b] + text[b..c]
  {
  }

  lemma {:induction false} BlankRun(text: string, pos: nat)
    requires pos <= |text|
    ensures IsBlank(text[pos..SkipWs(text, pos)])
    ensures SkipWs(text, pos) < |text| ==> !IsWs(text[SkipWs(text, pos)])
    decreases |text| - pos
  {
    if pos < |text| && IsWs(text[pos]) {
      BlankRun(text, pos + 1);
      Cut(text, pos, pos + 1, SkipWs(text, pos + 1));
    }
  }

  /** The first piece of what is left of a string, before its closing quote. */
  lemma PieceDerives(text: string, pos: nat, acc: string) returns (p: Piece)
    requires pos <= |text| && CharsAt(text, pos, acc).Ok? && text[pos] != '"'
    ensures PieceOk(p) && pos + |PieceText(p)| <= |text| && text[pos..pos + |PieceText(p)|] == PieceText(p)
    ensures |PieceText(p)| > 0
    ensures CharsAt(text, pos, acc) == CharsAt(text, pos + |PieceText(p)|, acc + PieceMeaning(p))
  {
    if text[pos] != '\\' {
      p := Raw(text[pos]);
    } else if text[pos + 1] == 'u' {
      p := Unicode(text[pos + 2..pos + 6]);
      Cut(text, pos, pos + 2, pos + 6);
    } else {
      p := Simple(text[pos + 1]);
    }
  }

  lemma {:induction false} CharsDerive(text: string, pos: nat, acc: string) returns (ps: seq<Piece>)
    requires pos <= |text| && CharsAt(text, pos, acc).Ok?
    ensures PiecesOk(ps)
    ensures CharsAt(text, pos, acc).value == acc + PiecesMeaning(ps)
    ensures text[pos..CharsAt(text, pos, acc).pos] == PiecesText(ps) + "\""
    decreases |text| - pos
  {
    hide CharsAt, PieceText, PieceMeaning, PieceOk, PiecesText, PiecesMeaning;
    StringGoesOn(text, pos, acc);
    if text[pos] == '"' {
      ps := [];
      assert text[pos..pos + 1] == "\"";
      EmptyPieces();
      assert acc + "" == acc && "" + "\"" == "\"";
    } else {
      var p := PieceDerives(text, pos, acc);
      var next := pos + |PieceText(p)|;
      var rest := CharsDerive(text, next, acc + PieceMeaning(p));
      ps := [p] + rest;
      PiecesStep(ps);
      AppendTwice(acc, PieceMeaning(p), PiecesMeaning(rest));
      Cut(text, pos, next, CharsAt(text, pos, acc).pos);
    }
  }

  lemma EmptyPieces()
    ensures PiecesText([]) == "" && PiecesMeaning([]) == ""
  {
  }

  lemma StringGoesOn(text: string, pos: nat, acc: string)
    requires pos <= |text| && CharsAt(text, pos, acc).Ok?
    ensures pos < |text| && (text[pos] == '"' ==> CharsAt(text, pos, acc) == Ok(acc, pos + 1))
  {
  }

  lemma StringDerives(text: string, pos: nat) returns (ps: seq<Piece>)
    requires pos <= |text| && StringAt(text, pos).Ok?
    ensures PiecesOk(ps) && StringAt(text, pos).value == PiecesMeaning(ps)
    ensures text[pos..StringAt(text, pos).pos] == QuotedText(ps)
  {
    hide CharsAt, PiecesText, PiecesMeaning;
    ps := CharsDerive(text, pos + 1, "");
    assert "" + PiecesMeaning(ps) == PiecesMeaning(ps);
    Cut(text, pos, pos + 1, StringAt(text, pos).pos);
    assert text[pos..pos + 1] == "\"";
  }

  lemma SignDerives(text: string, pos: nat)
    requires pos <= |text|
    ensures IsSign(text[pos..SignEnd(text, pos)])
  {
    if SignEnd(text, pos) > pos { assert text[pos..pos + 1] == [text[pos]]; }
  }

  lemma FractionDerives(text: string, dot: nat) returns (fraction: Option<string>)
    requires dot <= |text|
    ensures fraction.Some? ==> AllDigits(fraction.value) && dot + 1 + |fraction.value| == FractionEnd(text, dot)
    ensures fraction.None? ==> FractionEnd(text, dot) == dot
    ensures text[dot..FractionEnd(text, dot)] == if fraction.Some? then "." + fraction.value else ""
  {
    hide DigitsEnd;
    var exp := FractionEnd(text, dot);
    fraction := None;
    if dot < exp {
      fraction := Some(text[dot + 1..exp]);
      Cut(text, dot, dot + 1, exp);
    }
  }

  lemma ExponentDerives(text: string, exp: nat) returns (exponent: Option<Exponent>)
    requires exp <= |text|
    ensures exponent.Some? ==>
      var e := exponent.value; IsSign(e.sign) && AllDigits(e.digits) && e.mark in {'e', 'E'}
    ensures text[exp..ExponentEnd(text, exp)]
      == if exponent.Some? then [exponent.value.mark] + exponent.value.sign + exponent.value.digits else ""
  {
    hide DigitsEnd, SignEnd, IsSign;
    var end := ExponentEnd(text, exp);
    exponent := None;
    if exp < |text| && (text[exp] == 'e' || text[exp] == 'E') {
      var digits := SignEnd(text, exp + 1);
      SignDerives(text, exp + 1);
      exponent := Some(Exponent(text[exp], text[exp + 1..digits], text[digits..end]));
      Cut(text, exp, exp + 1, digits);
      Cut(text, exp, digits, end);
    }
  }

  lemma NumberDerives(text: string, pos: nat) returns (n: Numeral)
    requires pos <= |text| && NumberAt(text, pos).Ok?
    ensures WellFormed(n) && NumberAt(text, pos).value == Number(NumeralValue(n))
    ensures text[pos..NumberAt(text, pos).pos] == NumeralText(n)
  {
    hide Strtod, DigitsEnd, SignEnd, FractionEnd, ExponentEnd, NumeralValue, IsSign;
    var start := SignEnd(text, pos);
    var dot := DigitsEnd(text, start);
    var exp := FractionEnd(text, dot);
    var end := ExponentEnd(text, exp);
    SignDerives(text, pos);
    var fraction := FractionDerives(text, dot);
    var exponent := ExponentDerives(text, exp);
    n := Numeral(text[pos..start], text[start..dot], fraction, exponent);
    Cut(text, pos, start, dot);
    Cut(text, pos, dot, exp);
    Cut(text, pos, exp, end);
    NumeralIsValue(n);
  }

  lemma LiteralDerives(text: string, pos: nat, word: string, value: Json)
    requires pos <= |text| && |word| > 0 && LiteralAt(text, pos, word, value).Ok?
    ensures text[pos..LiteralAt(text, pos, word, value).pos] == word && LiteralAt(text, pos, word, value).value == value
  {
  }

  /** A value that is neither an array nor an object, from its first character on. */
  lemma ScalarDerives(text: string, pos: nat, depth: nat) returns (s: Syntax)
    requires pos < |text| && ValueAt(text, pos, depth).Ok? && !IsWs(text[pos]) && text[pos] != '[' && text[pos] != '{'
    ensures SyntaxOk(s) && Levels(s) == 1
    ensures text[pos..ValueAt(text, pos, depth).pos] == Text(s) && Meaning(s) == ValueAt(text, pos, depth).value
  {
    hide StringAt, NumberAt, LiteralAt, QuotedText, NumeralText, PiecesMeaning, NumeralValue, WellFormed, PiecesOk;
    SkipNone(text, pos);
    if text[pos] == '"' {
      var ps := StringDerives(text, pos);
      s := Quoted(ps);
    } else if text[pos] == 't' {
      LiteralDerives(text, pos, "true", Bool(true));
      s := Literal(Bool(true));
    } else if text[pos] == 'f' {
      LiteralDerives(text, pos, "false", Bool(false));
      s := Literal(Bool(false));
    } else if text[pos] == 'n' {
      LiteralDerives(text, pos, "null", Null);
      s := Literal(Null);
    } else {
      var n := NumberDerives(text, pos);
      s := Numeric(n);
    }
  }

  /** White space and the comma or bracket after it. */
  lemma SeparatorDerives(text: string, pos: nat, close: char, unterminated: Problem, expected: Problem)
    returns (after: string)
    requires pos <= |text| && SeparatorAt(text, pos, close, unterminated, expected).Ok?
    ensures var r := SeparatorAt(text, pos, close, unterminated, expected);
      IsBlank(after) && text[pos..r.pos] == after + if r.value then "," else [close]
  {
    hide SkipWs;
    var q := SkipWs(text, pos);
    BlankRun(text, pos);
    after := text[pos..q];
    Cut(text, pos, q, q + 1);
    assert text[q..q + 1] == [text[q]];
  }

  lemma {:induction false} ValueDerives(text: string, pos: nat, depth: nat) returns (before: string, s: Syntax)
    requires pos <= |text| && ValueAt(text, pos, depth).Ok?
    ensures IsBlank(before) && SyntaxOk(s) && depth + Levels(s) <= 64
    ensures text[pos..ValueAt(text, pos, depth).pos] == before + Text(s)
    ensures Meaning(s) == ValueAt(text, pos, depth).value
    decreases |text| - pos, 1
  {
    hide ValueAt, SkipWs, Text, Meaning, Levels, SyntaxOk, ItemsAt, MembersAt, IsBlank, IsWs;
    ValueStarts(text, pos, depth);
    var p, end := SkipWs(text, pos), ValueAt(text, pos, depth).pos;
    BlankRun(text, pos);
    before := text[pos..p];
    Cut(text, pos, p, end);
    if text[p] == '[' {
      s := ArrayDerives(text, p, depth);
    } else if text[p] == '{' {
      s := ObjectDerives(text, p, depth);
    } else {
      s := ScalarDerives(text, p, depth);
    }
  }

  lemma ValueStarts(text: string, pos: nat, depth: nat)
    requires pos <= |text| && ValueAt(text, pos, depth).Ok?
    ensures depth < MAX_DEPTH && pos <= SkipWs(text, pos) < |text| && SkipWs(text, pos) <= ValueAt(text, pos, depth).pos
    ensures ValueAt(text, pos, depth) == ValueAt(text, SkipWs(text, pos), depth)
  {
    hide SkipWs;
    if depth < MAX_DEPTH { ValueAfterBlank(text, pos, depth); }
  }

  lemma {:induction false} ArrayDerives(text: string, pos: nat, depth: nat) returns (s: Syntax)
    requires pos < |text| && ValueAt(text, pos, depth).Ok? && text[pos] == '[' && depth < MAX_DEPTH
    ensures SyntaxOk(s) && depth + Levels(s) <= 64
    ensures text[pos..ValueAt(text, pos, depth).pos] == Text(s) && Meaning(s) == ValueAt(text, pos, depth).value
    decreases |text| - pos, 0
  {
    hide ValueAt, SkipWs, ItemsAt, ItemsText, ItemsMeaning, ItemsOk, ItemsLevels;
    ArrayStep(text, pos, depth);
    BlankRun(text, pos + 1);
    var q, end := SkipWs(text, pos + 1), ValueAt(text, pos, depth).pos;
    assert text[pos..pos + 1] == "[";
    Cut(text, pos, pos + 1, end);
    if q < |text| && text[q] == ']' {
      s := EmptyArray(text[pos + 1..q]);
      Cut(text, pos + 1, q, end);
      assert text[q..q + 1] == "]";
    } else {
      ItemsStart(text, q, depth + 1, Array([]));
      SkipTwice(text, pos + 1);
      ItemsAfterBlank(text, pos + 1, q, depth + 1, Array([]));
      var items := ItemsDerive(text, pos + 1, depth + 1, []);
      s := Elements(items);
      assert [] + ItemsMeaning(items) == ItemsMeaning(items);
    }
  }

  lemma ItemsStart(text: string, pos: nat, depth: nat, acc: Json)
    requires pos <= |text| && ItemsAt(text, pos, depth, acc).Ok?
    ensures depth < MAX_DEPTH && ValueAt(text, pos, depth).Ok?
  {
  }

  lemma {:induction false} ItemsDerive(text: string, pos: nat, depth: nat, acc: seq<Json>) returns (items: Items)
    requires pos <= |text| && ItemsAt(text, pos, depth, Array(acc)).Ok?
    ensures ItemsOk(items) && depth + ItemsLevels(items) <= 64
    ensures text[pos..ItemsAt(text, pos, depth, Array(acc)).pos] == ItemsText(items)
    ensures ItemsAt(text, pos, depth, Array(acc)).value == Array(acc + ItemsMeaning(items))
    decreases |text| - pos, 2
  {
    hide ValueAt, SeparatorAt, Text, Meaning, Levels, SyntaxOk, IsBlank;
    ItemsStart(text, pos, depth, Array(acc));
    var before, s := ValueDerives(text, pos, depth);
    var end, v := ValueAt(text, pos, depth).pos, Meaning(s);
    var after := SeparatorDerives(text, end, ']', UnterminatedArray, ExpectedCommaOrBracket);
    var separator := SeparatorAt(text, end, ']', UnterminatedArray, ExpectedCommaOrBracket);
    var item := Padded(before, s, after);
    Cut(text, pos, end, separator.pos);
    assert Array(acc).Push(v) == Array(acc + [v]);
    Appended(before, Text(s), after, if separator.value then "," else "]");
    if separator.value {
      var rest := ItemsDerive(text, separator.pos, depth, acc + [v]);
      items := More(item, rest);
      Cut(text, pos, separator.pos, ItemsAt(text, pos, depth, Array(acc)).pos);
      Appended(PaddedText(item), ",", ItemsText(rest), "");
      assert acc + [v] + ItemsMeaning(rest) == acc + ([v] + ItemsMeaning(rest));
    } else {
      items := Last(item);
      assert acc + [v] == acc + ([v] + []);
    }
  }

  lemma Appended(a: string, b: string, c: string, d: string)
    ensures a + b + (c + d) == a + (b + c) + d && a + b + c == a + (b + c)
  {
  }

  lemma {:induction false} ObjectDerives(text: string, pos: nat, depth: nat) returns (s: Syntax)
    requires pos < |text| && ValueAt(text, pos, depth).Ok? && text[pos] == '{' && depth < MAX_DEPTH
    ensures SyntaxOk(s) && depth + Levels(s) <= 64
    ensures text[pos..ValueAt(text, pos, depth).pos] == Text(s) && Meaning(s) == ValueAt(text, pos, depth).value
    decreases |text| - pos, 0
  {
    hide ValueAt, SkipWs, MembersAt, MembersText, MembersMeaning, MembersOk, MembersLevels;
    ObjectStep(text, pos, depth);
    BlankRun(text, pos + 1);
    var q, end := SkipWs(text, pos + 1), ValueAt(text, pos, depth).pos;
    assert text[pos..pos + 1] == "{";
    Cut(text, pos, pos + 1, end);
    if q < |text| && text[q] == '}' {
      s := EmptyObject(text[pos + 1..q]);
      Cut(text, pos + 1, q, end);
      assert text[q..q + 1] == "}";
    } else {
      SkipTwice(text, pos + 1);
      MembersAfterBlank(text, pos + 1, depth + 1, Object([], map[]));
      var members := MembersDerive(text, pos + 1, depth + 1, Object([], map[]));
      s := Fields(members);
    }
  }

  lemma KeyDerives(text: string, pos: nat) returns (key: Key)
    requires pos <= |text| && KeyAt(text, pos).Ok?
    ensures KeyOk(key) && KeyAt(text, pos).value == PiecesMeaning(key.pieces)
    ensures text[pos..KeyAt(text, pos).pos] == KeyText(key) + ":"
  {
    hide StringAt, QuotedText, SkipWs, PiecesMeaning, PiecesOk;
    var start := SkipWs(text, pos);
    var ps := StringDerives(text, start);
    var end := StringAt(text, start).pos;
    var colon := SkipWs(text, end);
    BlankRun(text, pos);
    BlankRun(text, end);
    key := Key(text[pos..start], ps, text[end..colon]);
    Cut(text, pos, start, end);
    Cut(text, pos, end, colon);
    Cut(text, pos, colon, colon + 1);
    assert text[colon..colon + 1] == ":";
    Appended(key.before, QuotedText(ps), key.after, "");
  }

  lemma {:induction false} MembersDerive(text: string, pos: nat, depth: nat, acc: Json) returns (members: Members)
    requires pos <= |text| && MembersAt(text, pos, depth, acc).Ok?
    ensures MembersOk(members) && depth + MembersLevels(members) <= 64
    ensures text[pos..MembersAt(text, pos, depth, acc).pos] == MembersText(members)
    ensures MembersAt(text, pos, depth, acc).value == MembersMeaning(members, acc)
    decreases |text| - pos, 2
  {
    hide ValueAt, SeparatorAt, KeyAt, Text, Meaning, Levels, SyntaxOk, IsBlank, KeyText, PiecesMeaning;
    var key := KeyDerives(text, pos);
    var start := KeyAt(text, pos).pos;
    var before, s := ValueDerives(text, start, depth);
    var end, v := ValueAt(text, start, depth).pos, Meaning(s);
    var after := SeparatorDerives(text, end, '}', UnterminatedObject, ExpectedCommaOrBrace);
    var separator := SeparatorAt(text, end, '}', UnterminatedObject, ExpectedCommaOrBrace);
    var item, mark := Padded(before, s, after), if separator.value then "," else "}";
    Cut(text, start, end, separator.pos);
    Appended(before, Text(s), after, mark);
    Cut(text, pos, start, separator.pos);
    Appended(KeyText(key), ":", PaddedText(item), mark);
    var here := acc.Set(PiecesMeaning(key.pieces), v);
    if separator.value {
      var rest := MembersDerive(text, separator.pos, depth, here);
      members := MoreMembers(key, item, rest);
      Cut(text, pos, separator.pos, MembersAt(text, pos, depth, acc).pos);
      MemberParts(KeyText(key), PaddedText(item), MembersText(rest));
    } else {
      members := LastMember(key, item);
      MemberParts(KeyText(key), PaddedText(item), "");
    }
  }

  lemma MemberParts(key: string, item: string, rest: string)
    ensures key + (":" + item) + "," + rest == key + (":" + (item + ("," + rest)))
    ensures key + (":" + item) + "}" == key + (":" + (item + "}"))
  {
  }

  // ---- The language ------------------------------------------------------

  /** A document that spells this text and means this value, at most 64 levels deep. */
  ghost predicate Spells(p: Padded, text: string, v: Json) {
    BlanksOk(p) && SyntaxOk(p.value) && Levels(p.value) <= 64 && PaddedText(p) == text && Meaning(p.value) == v
  }

  /** The parser accepts exactly the texts that some document spells, and returns what the document means. */
  lemma AcceptsExactly(text: string, v: Json)
    ensures ParseText(text) == Ok(v, |text|) <==> exists p :: Spells(p, text, v)
  {
    if ParseText(text) == Ok(v, |text|) {
      DocumentDerives(text);
    }
    forall p | Spells(p, text, v) ensures ParseText(text) == Ok(v, |text|) {
      DocumentReads(text, p);
    }
  }

  lemma DocumentReads(text: string, p: Padded)
    requires BlanksOk(p) && SyntaxOk(p.value) && Levels(p.value) <= 64 && PaddedText(p) == text
    ensures ParseText(text) == Ok(Meaning(p.value), |text|)
  {
    hide ValueAt, Levels, SyntaxOk, Meaning, PaddedText, BlanksOk;
    assert text[0..|text|] == text;
    PaddedReads(text, 0, p, 0);
    SkipNone(text, |text|);
  }

  lemma DocumentDerives(text: string)
    requires ParseText(text).Ok?
    ensures exists p :: Spells(p, text, ParseText(text).value)
  {
    hide ValueAt, SkipWs, Text, Levels, SyntaxOk, Meaning;
    var before, s := ValueDerives(text, 0, 0);
    var end := ValueAt(text, 0, 0).pos;
    BlankRun(text, end);
    var p := Padded(before, s, text[end..|text|]);
    Cut(text, 0, end, |text|);
    assert text[0..|text|] == text;
    Appended(before, Text(s), p.after, "");
    assert Spells(p, text, ParseText(text).value);
  }

  // ---- Repeated keys -----------------------------------------------------

  function KeyName(key: Key): string
    requires KeyOk(key)
  {
    PiecesMeaning(key.pieces)
  }

  /** The value of the last member with this key. */
  function LastValue(members: Members, name: string): Option<Json>
    requires MembersOk(members)
  {
    var here := if KeyName(members.key) == name then Some(Meaning(members.item.value)) else None;
    if members.LastMember? then here
    else
      var later := LastValue(members.rest, name);
      if later.Some? then later else here
  }

  /** The keys in the order in which they first appear, but for those already seen. */
  function FirstKeys(members: Members, seen: set<string>): seq<string>
    requires MembersOk(members)
  {
    var name := KeyName(members.key);
    (if name in seen then [] else [name]) + if members.LastMember? then [] else FirstKeys(members.rest, seen + {name})
  }

  /** An object has every key once, where it first appears, with its last value. */
  lemma {:induction false} MembersMean(members: Members, before: Json)
    requires MembersOk(members) && before.Object?
    ensures var v := MembersMeaning(members, before);
      && v.Object? && v.keys == before.keys + FirstKeys(members, before.members.Keys)
      && forall name :: ValueIs(members, before, v.members, name)
    decreases members
  {
    hide Meaning, PiecesMeaning, KeyName, LastValue, ValueIs;
    var name, value := KeyName(members.key), Meaning(members.item.value);
    var here, v := MemberSet(members, before), MembersMeaning(members, before);
    SetIs(before, name, value);
    NameIs(members.key);
    if members.MoreMembers? { MembersMean(members.rest, here); }
    forall other ensures ValueIs(members, before, v.members, other) {
      if members.MoreMembers? { assert ValueIs(members.rest, here, v.members, other); }
      OneValue(members, before, here, v.members, other);
    }
    if members.MoreMembers? {
      KeysGoOn(before.keys, if name in before.members then [] else [name], FirstKeys(members.rest, here.members.Keys));
    }
  }

  lemma NameIs(key: Key)
    requires KeyOk(key)
    ensures KeyName(key) == PiecesMeaning(key.pieces)
  {
  }

  lemma SetIs(before: Json, name: string, value: Json)
    requires before.Object?
    ensures var here := before.Set(name, value);
      && here.Object? && here.members == before.members[name := value]
      && here.members.Keys == before.members.Keys + {name}
      && here.keys == before.keys + if name in before.members then [] else [name]
  {
    assert before.keys + [] == before.keys;
  }

  lemma OneValue(members: Members, before: Json, here: Json, after: map<string, Json>, name: string)
    requires MembersOk(members) && before.Object? && here.Object?
    requires here.members == before.members[KeyName(members.key) := Meaning(members.item.value)]
    requires if members.MoreMembers? then ValueIs(members.rest, here, after, name) else after == here.members
    ensures ValueIs(members, before, after, name)
  {
    hide Meaning, PiecesMeaning, KeyName;
  }

  lemma KeysGoOn(a: seq<string>, b: seq<string>, c: seq<string>)
    ensures a + b + c == a + (b + c)
  {
  }

  /** What a key stands for: its last value among the members, or what it stood for before them. */
  ghost predicate ValueIs(members: Members, before: Json, after: map<string, Json>, name: string)
    requires MembersOk(members) && before.Object?
  {
    match LastValue(members, name)
    case Some(value) => name in after && after[name] == value
    case None => (name in after <==> name in before.members) && (name in after ==> after[name] == before.members[name])
  }
}

/** The other half of the JSON round trip: a printed value that is nested too deep is refused for that reason. */
module JsonDepth {
  import opened JsonValue
  import opened JsonParser
  import opened JsonPrinter
  import opened JsonRoundTrip

  /** What the printer prints exactly, whatever its depth: distinct keys and small integers. */
  ghost predicate Plain(v: Json) {
    match v
    case Number(n) => n == n.Floor as real && -9_000_000_000_000_000.0 < n < 9_000_000_000_000_000.0
    case Array(items) => forall i | 0 <= i < |items| :: Plain(items[i])
    case Object(keys, members) =>
      && (forall i, j | 0 <= i < j < |keys| :: keys[i] != keys[j])
      && (forall i | 0 <= i < |keys| :: keys[i] in members)
      && (forall k | k in members :: k in keys)
      && (forall k | k in members :: Plain(members[k]))
    case _ => true
  }

  /** Some node of v, which stands at this depth itself, is at or below the parser's limit. */
  ghost predicate Deep(v: Json, depth: nat) {
    || depth >= 64
    || match v
       case Array(items) => exists i | 0 <= i < |items| :: Deep(items[i], depth + 1)
       case Object(keys, members) => exists k | k in members :: Deep(members[k], depth + 1)
       case _ => false
  }

  lemma {:induction false} PlainIsPrintable(v: Json)
    requires Plain(v)
    ensures Printable(v)
    decreases v
  {
    match v
    case Array(items) => forall i | 0 <= i < |items| ensures Printable(items[i]) { PlainIsPrintable(items[i]); }
    case Object(keys, members) => forall k | k in members ensures Printable(members[k]) { PlainIsPrintable(members[k]); }
    case _ =>
  }

  lemma {:induction false} ExactUnlessDeep(v: Json, depth: nat)
    requires Plain(v)
    ensures Exact(v, depth) <==> !Deep(v, depth)
    decreases v
  {
    match v
    case Array(items) =>
      forall i | 0 <= i < |items| ensures Exact(items[i], depth + 1) <==> !Deep(items[i], depth + 1) {
        ExactUnlessDeep(items[i], depth + 1);
      }
    case Object(keys, members) =>
      forall k | k in members ensures Exact(members[k], depth + 1) <==> !Deep(members[k], depth + 1) {
        ExactUnlessDeep(members[k], depth + 1);
      }
    case _ =>
  }

  ghost predicate TooDeep(r: Parsed<Json>) { r.Err? && r.problem == NestingTooDeep }

  /** A printed value with a node at the limit is refused wherever it stands in a text. */
  lemma {:induction false} DeepValue(text: string, pos: nat, v: Json, indent: int, depth: nat, fmt: Formatter)
    requires Plain(v) && Printable(v) && Deep(v, depth) && Has(text, pos, Dump(v, indent, depth, fmt))
    ensures pos <= |text| && TooDeep(ValueAt(text, pos, depth))
    decreases v, 1, 0
  {
    if depth < MAX_DEPTH {
      match v {
        case Array(_) => DeepArray(text, pos, v, indent, depth, fmt);
        case Object(_, _) => DeepObject(text, pos, v, indent, depth, fmt);
      }
    }
  }

  // ---- Arrays ------------------------------------------------------------

  lemma {:induction false} DeepArray(text: string, pos: nat, v: Json, indent: int, depth: nat, fmt: Formatter)
    requires v.Array? && Plain(v) && Printable(v) && Deep(v, depth) && depth < MAX_DEPTH
    requires Has(text, pos, Dump(v, indent, depth, fmt))
    ensures pos <= |text| && TooDeep(ValueAt(text, pos, depth))
    decreases v, 0, |v.items| + 1
  {
    hide ValueAt, ItemsAt, DumpItems, Has, SkipWs, Indentation, Newline;
    var j :| 0 <= j < |v.items| && Deep(v.items[j], depth + 1);
    assert Plain(v.items[0]);
    var nl := Newline(indent);
    var first := pos + 1 + |nl|;
    ArrayText(text, pos, v, indent, depth, fmt);
    ArrayStep(text, pos, depth);
    Layout(indent, depth);
    BlankIsSkipped(text, pos + 1, nl);
    FirstItem(text, first, v, indent, depth, fmt);
    SkipTwice(text, first);
    DeepItems(text, SkipWs(text, first), first, v, 0, j, Array([]), indent, depth, fmt);
  }

  lemma ItemFails(text: string, q: nat, p: nat, depth: nat, acc: Json)
    requires q <= |text| && p <= |text| && SkipWs(text, q) == SkipWs(text, p) && TooDeep(ValueAt(text, p, depth))
    ensures TooDeep(ItemsAt(text, q, depth, acc))
  {
    if depth < MAX_DEPTH { ItemsAfterBlank(text, q, p, depth, acc); }
  }

  /** The elements from the i-th on, when the j-th is nested too deep. */
  lemma {:induction false} DeepItems(text: string, q: nat, pos: nat, v: Json, i: nat, j: nat, acc: Json, indent: int,
                                     depth: nat, fmt: Formatter)
    requires v.Array? && Plain(v) && Printable(v) && i <= j < |v.items| && Deep(v.items[j], depth + 1)
    requires Has(text, pos, DumpItems(v, i, indent, depth, fmt) + (Indentation(indent, depth) + "]"))
    requires q <= |text| && SkipWs(text, q) == SkipWs(text, pos) && acc.Array?
    ensures TooDeep(ItemsAt(text, q, depth + 1, acc))
    decreases v, 0, |v.items| - i
  {
    hide Dump, DumpItems, ValueAt, ItemsAt, SeparatorAt, SkipWs, Has, Indentation, Newline, Follows, Stops, Exact, Deep;
    var item := v.items[i];
    var p := pos + |Indentation(indent, depth + 1)|;
    var end := p + |Dump(item, indent, depth + 1, fmt)|;
    var close := pos + |DumpItems(v, i, indent, depth, fmt)| + |Indentation(indent, depth)|;
    ItemLayout(text, pos, v, i, indent, depth, fmt);
    if Deep(item, depth + 1) {
      DeepValue(text, p, item, indent, depth + 1, fmt);
      ItemFails(text, q, p, depth + 1, acc);
    } else {
      ExactUnlessDeep(item, depth + 1);
      ExactInDepth(item, depth + 1);
      ValueStops(text, end, close, true, Newline(indent), ']');
      PrintedValue(text, p, item, indent, depth + 1, fmt);
      ItemsStep(text, q, p, depth + 1, acc, item, end);
      CommaFollows(text, end, close, Newline(indent), ']', UnterminatedArray, ExpectedCommaOrBracket);
      DeepItems(text, end + 1, end + 1 + |Newline(indent)|, v, i + 1, j, acc.Push(item), indent, depth, fmt);
    }
  }

  lemma ExactInDepth(v: Json, depth: nat)
    requires Exact(v, depth)
    ensures depth < MAX_DEPTH
  {
  }

  // ---- Objects -----------------------------------------------------------

  lemma {:induction false} DeepObject(text: string, pos: nat, v: Json, indent: int, depth: nat, fmt: Formatter)
    requires v.Object? && Plain(v) && Printable(v) && Deep(v, depth) && depth < MAX_DEPTH
    requires Has(text, pos, Dump(v, indent, depth, fmt))
    ensures pos <= |text| && TooDeep(ValueAt(text, pos, depth))
    decreases v, 0, |v.keys| + 1
  {
    hide ValueAt, MembersAt, DumpMembers, Has, SkipWs, Indentation, Newline;
    var k :| k in v.members && Deep(v.members[k], depth + 1);
    var j :| 0 <= j < |v.keys| && v.keys[j] == k;
    var nl := Newline(indent);
    var first := pos + 1 + |nl|;
    ObjectText(text, pos, v, indent, depth, fmt);
    ObjectStep(text, pos, depth);
    Layout(indent, depth);
    BlankIsSkipped(text, pos + 1, nl);
    FirstMember(text, first, v, indent, depth, fmt);
    SkipTwice(text, first);
    DeepMembers(text, SkipWs(text, first), first, v, 0, j, Object([], map[]), indent, depth, fmt);
  }

  lemma MemberFails(text: string, q: nat, depth: nat, acc: Json, key: string, start: nat, p: nat)
    requires q <= |text| && KeyAt(text, q) == Ok(key, start) && p <= |text| && SkipWs(text, start) == SkipWs(text, p)
    requires TooDeep(ValueAt(text, p, depth))
    ensures TooDeep(MembersAt(text, q, depth, acc))
  {
    if depth < MAX_DEPTH {
      ValueAfterBlank(text, start, depth);
      ValueAfterBlank(text, p, depth);
    }
  }

  lemma MemberIsPlain(v: Json, i: nat)
    requires v.Object? && Plain(v) && i < |v.keys|
    ensures v.keys[i] in v.members && Plain(v.members[v.keys[i]])
  {
  }

  /** The members from the i-th on, when the value of the j-th is nested too deep. */
  lemma {:induction false} DeepMembers(text: string, q: nat, pos: nat, v: Json, i: nat, j: nat, acc: Json, indent: int,
                                       depth: nat, fmt: Formatter)
    requires v.Object? && Plain(v) && Printable(v) && i <= j < |v.keys| && Deep(v.members[v.keys[j]], depth + 1)
    requires Has(text, pos, DumpMembers(v, i, indent, depth, fmt) + (Indentation(indent, depth) + "}"))
    requires q <= |text| && SkipWs(text, q) == SkipWs(text, pos) && acc.Object?
    ensures TooDeep(MembersAt(text, q, depth + 1, acc))
    decreases v, 0, |v.keys| - i
  {
    hide Dump, DumpMembers, ValueAt, MembersAt, KeyAt, SeparatorAt, SkipWs, Has, Indentation, Newline, Escape, Colon;
    hide Follows, Stops, Exact, Deep, Plain;
    MemberIsPlain(v, i);
    var key := v.keys[i];
    var item := v.members[key];
    var start := pos + |Indentation(indent, depth + 1)|;
    var colon := start + |Escape(key)|;
    var p := colon + |Colon(indent)|;
    var end := p + |Dump(item, indent, depth + 1, fmt)|;
    var close := pos + |DumpMembers(v, i, indent, depth, fmt)| + |Indentation(indent, depth)|;
    MemberLayout(text, pos, v, i, indent, depth, fmt);
    PrintedKey(text, q, start, key, indent);
    if Deep(item, depth + 1) {
      DeepValue(text, p, item, indent, depth + 1, fmt);
      MemberFails(text, q, depth + 1, acc, key, colon + 1, p);
    } else {
      ExactUnlessDeep(item, depth + 1);
      ExactInDepth(item, depth + 1);
      ValueStops(text, end, close, true, Newline(indent), '}');
      PrintedValue(text, p, item, indent, depth + 1, fmt);
      MembersStep(text, q, depth + 1, acc, key, colon + 1, p, item, end);
      CommaFollows(text, end, close, Newline(indent), '}', UnterminatedObject, ExpectedCommaOrBrace);
      DeepMembers(text, end + 1, end + 1 + |Newline(indent)|, v, i + 1, j, acc.Set(key, item), indent, depth, fmt);
    }
  }

  // ---- The round trip, both ways -----------------------------------------

  /** A printed value parses back to itself exactly when no node reaches the limit, and fails for that reason otherwise. */
  lemma ParseDumpIffShallow(v: Json, indent: int, fmt: Formatter)
    requires Plain(v)
    ensures Printable(v)
    ensures var text := Dump(v, indent, 0, fmt);
      if Deep(v, 0) then TooDeep(ParseText(text)) else ParseText(text) == Ok(v, |text|)
  {
    hide Dump, ValueAt, Exact, Deep, Plain;
    PlainIsPrintable(v);
    ExactUnlessDeep(v, 0);
    if Deep(v, 0) {
      var text := Dump(v, indent, 0, fmt);
      assert text[0..|text|] == text;
      DeepValue(text, 0, v, indent, 0, fmt);
    } else {
      ParseDump(v, indent, fmt);
    }
  }
}

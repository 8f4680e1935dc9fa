/** jsonEscape, dumpTo and dump of src/util/json.cpp. */
module JsonPrinter {
  import opened Chars
  import opened JsonValue

  /** snprintf("%.10g") of a number that is not a small integer. */
  type Formatter = real -> string

  function EscapeChar(c: char): string {
    if c == '"' then "\\\""
    else if c == '\\' then "\\\\"
    else if c == BACKSPACE then "\\b"
    else if c == FORM_FEED then "\\f"
    else if c == '\n' then "\\n"
    else if c == '\r' then "\\r"
    else if c == '\t' then "\\t"
    else if c as int < 0x20 then "\\u00" + [HexChar(c as int / 16), HexChar(c as int % 16)]
    else [c]
  }

  function EscapeBody(s: string): string {
    if |s| == 0 then "" else EscapeChar(s[0]) + EscapeBody(s[1..])
  }

  function Escape(s: string): string { "\"" + EscapeBody(s) + "\"" }

  method JsonEscape(input: string) returns (out: string)
    ensures out == Escape(input)
  {
    out := "\"";
    for i := 0 to |input|
      invariant out + EscapeBody(input[i..]) == "\"" + EscapeBody(input)
    {
      assert input[i..][1..] == input[i + 1..];
      out := out + EscapeChar(input[i]);
    }
    assert input[|input|..] == "";
    out := out + "\"";
  }

  predicate IsSmallInteger(n: real) { n == n.Floor as real && -9.0e15 < n < 9.0e15 }

  function NumberText(n: real, fmt: Formatter): string {
    if IsSmallInteger(n) then IntToString(n.Floor) else fmt(n)
  }

  function Spaces(n: nat): (s: string)
    ensures |s| == n && forall i :: 0 <= i < n ==> s[i] == ' '
  {
    seq(n, _ => ' ')
  }

  function Indentation(indent: int, levels: nat): string { if indent > 0 then Spaces(indent * levels) else "" }

  function Newline(indent: int): string { if indent > 0 then "\n" else "" }

  function Comma(more: bool): string { if more then "," else "" }

  function Colon(indent: int): string { if indent > 0 then ": " else ":" }

  /** Every key listed has a member. */
  predicate Printable(v: Json) {
    match v
    case Array(items) => forall i | 0 <= i < |items| :: Printable(items[i])
    case Object(keys, members) =>
      (forall i | 0 <= i < |keys| :: keys[i] in members) && (forall k | k in members :: Printable(members[k]))
    case _ => true
  }

  function Dump(v: Json, indent: int, depth: nat, fmt: Formatter): string
    requires Printable(v)
    decreases v, 1, 0
  {
    match v
    case Null => "null"
    case Bool(b) => if b then "true" else "false"
    case Number(n) => NumberText(n, fmt)
    case String(s) => Escape(s)
    case Array(items) =>
      if |items| == 0 then "[]"
      else "[" + (Newline(indent) + (DumpItems(v, 0, indent, depth, fmt) + (Indentation(indent, depth) + "]")))
    case Object(keys, members) =>
      if |keys| == 0 then "{}"
      else "{" + (Newline(indent) + (DumpMembers(v, 0, indent, depth, fmt) + (Indentation(indent, depth) + "}")))
  }

  /** The elements from the i-th on, each on its own line. */
  function DumpItems(v: Json, i: nat, indent: int, depth: nat, fmt: Formatter): string
    requires v.Array? && Printable(v) && i <= |v.items|
    decreases v, 0, |v.items| - i
  {
    if i == |v.items| then ""
    else
      var comma := Comma(i + 1 < |v.items|);
      Indentation(indent, depth + 1) + (Dump(v.items[i], indent, depth + 1, fmt) + (comma + (Newline(indent)
        + DumpItems(v, i + 1, indent, depth, fmt))))
  }

  /** The members from the i-th key on, each on its own line. */
  function DumpMembers(v: Json, i: nat, indent: int, depth: nat, fmt: Formatter): string
    requires v.Object? && Printable(v) && i <= |v.keys|
    decreases v, 0, |v.keys| - i
  {
    if i == |v.keys| then ""
    else
      var comma := Comma(i + 1 < |v.keys|);
      Indentation(indent, depth + 1) + (Escape(v.keys[i]) + (Colon(indent)
        + (Dump(v.members[v.keys[i]], indent, depth + 1, fmt) + (comma + (Newline(indent)
        + DumpMembers(v, i + 1, indent, depth, fmt))))))
  }

  lemma MemberText(v: Json, i: nat, indent: int, depth: nat, fmt: Formatter)
    requires v.Object? && Printable(v) && i < |v.keys|
    ensures var pad, nl := Indentation(indent, depth + 1), Newline(indent);
      var key, s := Escape(v.keys[i]), Dump(v.members[v.keys[i]], indent, depth + 1, fmt);
      var comma, rest := Comma(i + 1 < |v.keys|), DumpMembers(v, i + 1, indent, depth, fmt);
      && DumpMembers(v, i, indent, depth, fmt) == pad + (key + (Colon(indent) + (s + (comma + (nl + rest)))))
      && |DumpMembers(v, i, indent, depth, fmt)| == |pad| + |key| + |Colon(indent)| + |s| + |comma| + |nl| + |rest|
      && (i + 1 == |v.keys| ==> rest == "")
  {
  }

  lemma ObjectDump(v: Json, indent: int, depth: nat, fmt: Formatter)
    requires v.Object? && Printable(v)
    ensures DumpMembers(v, |v.keys|, indent, depth, fmt) == ""
    ensures Dump(v, indent, depth, fmt) == if |v.keys| == 0 then "{}"
      else "{" + (Newline(indent) + (DumpMembers(v, 0, indent, depth, fmt) + (Indentation(indent, depth) + "}")))
  {
  }

  /** The text of an object after before, as the loop assembles it. */
  lemma WholeObject(before: string, v: Json, indent: int, depth: nat, fmt: Formatter)
    requires v.Object? && Printable(v)
    ensures before + Dump(v, indent, depth, fmt) == if |v.keys| == 0 then before + "{}"
      else before + "{" + Newline(indent) + DumpMembers(v, 0, indent, depth, fmt) + Indentation(indent, depth) + "}"
  {
    hide Dump, DumpMembers, Indentation, Newline;
    ObjectDump(v, indent, depth, fmt);
    Regroup(before, "{", Newline(indent), DumpMembers(v, 0, indent, depth, fmt), Indentation(indent, depth), "}");
  }

  lemma NoMoreMembers(out: string, v: Json, indent: int, depth: nat, fmt: Formatter)
    requires v.Object? && Printable(v)
    ensures out + DumpMembers(v, |v.keys|, indent, depth, fmt) == out
  {
  }

  lemma MemberPrintable(v: Json, i: nat)
    requires v.Object? && Printable(v) && i < |v.keys|
    ensures v.keys[i] in v.members && Printable(v.members[v.keys[i]])
  {
  }

  lemma Regroup(out: string, a: string, b: string, c: string, d: string, rest: string)
    ensures out + a + b + c + d + rest == out + (a + (b + (c + (d + rest))))
  {
  }

  lemma RegroupMember(out: string, pad: string, key: string, colon: string, value: string,
                      comma: string, nl: string, rest: string)
    ensures out + pad + key + colon + value + comma + nl + rest
      == out + (pad + (key + (colon + (value + (comma + (nl + rest))))))
  {
  }

  lemma MemberStep(out: string, v: Json, i: nat, indent: int, depth: nat, fmt: Formatter)
    requires v.Object? && Printable(v) && i < |v.keys|
    ensures var pad, nl := Indentation(indent, depth + 1), Newline(indent);
      var key, s := Escape(v.keys[i]), Dump(v.members[v.keys[i]], indent, depth + 1, fmt);
      out + DumpMembers(v, i, indent, depth, fmt)
      == out + pad + key + Colon(indent) + s + Comma(i + 1 < |v.keys|) + nl + DumpMembers(v, i + 1, indent, depth, fmt)
  {
    hide Dump, DumpMembers, Indentation, Newline, Escape, Colon, Comma;
    MemberText(v, i, indent, depth, fmt);
    RegroupMember(out, Indentation(indent, depth + 1), Escape(v.keys[i]), Colon(indent),
                  Dump(v.members[v.keys[i]], indent, depth + 1, fmt), Comma(i + 1 < |v.keys|), Newline(indent),
                  DumpMembers(v, i + 1, indent, depth, fmt));
  }

  lemma ItemText(v: Json, i: nat, indent: int, depth: nat, fmt: Formatter)
    requires v.Array? && Printable(v) && i < |v.items|
    ensures var pad, nl, s := Indentation(indent, depth + 1), Newline(indent), Dump(v.items[i], indent, depth + 1, fmt);
      var comma, rest := Comma(i + 1 < |v.items|), DumpItems(v, i + 1, indent, depth, fmt);
      && DumpItems(v, i, indent, depth, fmt) == pad + (s + (comma + (nl + rest)))
      && |DumpItems(v, i, indent, depth, fmt)| == |pad| + |s| + |comma| + |nl| + |rest|
      && (i + 1 == |v.items| ==> rest == "")
  {
  }

  /** With an indentation every element has a line of its own, indented by its depth; without one nothing is added. */
  lemma ElementLine(v: Json, i: nat, indent: int, depth: nat, fmt: Formatter)
    requires v.Array? && Printable(v) && i < |v.items|
    ensures var item, rest := Dump(v.items[i], indent, depth + 1, fmt), DumpItems(v, i + 1, indent, depth, fmt);
      var comma := if i + 1 < |v.items| then "," else "";
      DumpItems(v, i, indent, depth, fmt)
      == if indent > 0 then seq(indent * (depth + 1), _ => ' ') + (item + (comma + ("\n" + rest)))
         else item + (comma + rest)
  {
    hide Dump, DumpItems;
    ItemText(v, i, indent, depth, fmt);
    Widths(indent, depth);
  }

  /** The same for members, with a space after the colon. */
  lemma MemberLine(v: Json, i: nat, indent: int, depth: nat, fmt: Formatter)
    requires v.Object? && Printable(v) && i < |v.keys|
    ensures var key, member := Escape(v.keys[i]), Dump(v.members[v.keys[i]], indent, depth + 1, fmt);
      var rest, comma := DumpMembers(v, i + 1, indent, depth, fmt), if i + 1 < |v.keys| then "," else "";
      DumpMembers(v, i, indent, depth, fmt)
      == if indent > 0
         then seq(indent * (depth + 1), _ => ' ') + (key + (": " + (member + (comma + ("\n" + rest)))))
         else key + (":" + (member + (comma + rest)))
  {
    hide Dump, DumpMembers, Escape;
    MemberText(v, i, indent, depth, fmt);
    Widths(indent, depth);
  }

  lemma Widths(indent: int, depth: nat)
    ensures indent > 0 ==> indent * (depth + 1) >= 0
    ensures indent > 0 ==> Indentation(indent, depth + 1) == seq(indent * (depth + 1), _ => ' ')
  {
  }

  /** Appends the text of v to before. */
  method DumpTo(v: Json, before: string, indent: int, depth: nat, fmt: Formatter) returns (out: string)
    requires Printable(v)
    ensures out == before + Dump(v, indent, depth, fmt)
    decreases v, 1
  {
    match v {
      case Null => out := before + "null";
      case Bool(b) => out := before + (if b then "true" else "false");
      case Number(n) => out := before + NumberText(n, fmt);
      case String(s) =>
        var text := JsonEscape(s);
        out := before + text;
      case Array(items) => out := DumpArrayTo(v, before, indent, depth, fmt);
      case Object(keys, members) => out := DumpObjectTo(v, before, indent, depth, fmt);
    }
  }

  method DumpArrayTo(v: Json, before: string, indent: int, depth: nat, fmt: Formatter) returns (out: string)
    requires v.Array? && Printable(v)
    ensures out == before + Dump(v, indent, depth, fmt)
    decreases v, 0
  {
    var items := v.items;
    if |items| == 0 { return before + "[]"; }
    var pad, padEnd, newline := Indentation(indent, depth + 1), Indentation(indent, depth), Newline(indent);
    out := before + "[" + newline;
    ghost var all := DumpItems(v, 0, indent, depth, fmt);
    for i := 0 to |items|
      invariant out + DumpItems(v, i, indent, depth, fmt) == before + "[" + newline + all
    {
      var comma := Comma(i + 1 < |items|);
      Regroup(out, pad, Dump(items[i], indent, depth + 1, fmt), comma, newline, DumpItems(v, i + 1, indent, depth, fmt));
      out := out + pad;
      out := DumpTo(items[i], out, indent, depth + 1, fmt);
      out := out + comma;
      out := out + newline;
    }
    Regroup(before, "[", newline, all, padEnd, "]");
    out := out + padEnd + "]";
  }

  method DumpObjectTo(v: Json, before: string, indent: int, depth: nat, fmt: Formatter) returns (out: string)
    requires v.Object? && Printable(v)
    ensures out == before + Dump(v, indent, depth, fmt)
    decreases v, 0
  {
    hide Dump, DumpMembers, Escape, Indentation, Newline, Colon, Comma, Printable;
    WholeObject(before, v, indent, depth, fmt);
    var keys := v.keys;
    if |keys| == 0 { return before + "{}"; }
    var pad, padEnd, newline := Indentation(indent, depth + 1), Indentation(indent, depth), Newline(indent);
    out := before + "{" + newline;
    ghost var all := DumpMembers(v, 0, indent, depth, fmt);
    for i := 0 to |keys|
      invariant out + DumpMembers(v, i, indent, depth, fmt) == before + "{" + newline + all
    {
      var comma := Comma(i + 1 < |keys|);
      MemberStep(out, v, i, indent, depth, fmt);
      MemberPrintable(v, i);
      var key := JsonEscape(keys[i]);
      out := out + pad;
      out := out + key;
      out := out + Colon(indent);
      out := DumpTo(v.members[keys[i]], out, indent, depth + 1, fmt);
      out := out + comma;
      out := out + newline;
    }
    NoMoreMembers(out, v, indent, depth, fmt);
    out := out + padEnd + "}";
  }
}

/** The request lines that the client sends: the builders of src/stratum/message.cpp. */
module Requests {
  import opened JsonValue
  import opened JsonParser
  import opened JsonPrinter
  import opened JsonRoundTrip

  /** The value that a request line denotes. */
  function Request(id: int, name: string, params: Json): Json {
    Object(["id", "method", "params"], map["id" := Number(id as real), "method" := String(name), "params" := params])
  }

  function Strings(fields: seq<string>): Json { Array(seq(|fields|, i requires 0 <= i < |fields| => String(fields[i]))) }

  function WrapText(id: int, name: string, paramsJson: string): string {
    "{\"id\":" + IntToString(id) + ",\"method\":" + Escape(name) + ",\"params\":" + paramsJson + "}\n"
  }

  method WrapRequest(id: int, name: string, paramsJson: string) returns (out: string)
    ensures out == WrapText(id, name, paramsJson)
  {
    hide Escape, IntToString;
    out := "{\"id\":";
    out := out + IntToString(id);
    out := out + ",\"method\":";
    var quoted := JsonEscape(name);
    out := out + quoted;
    out := out + ",\"params\":";
    out := out + paramsJson;
    out := out + "}\n";
  }

  /** Quoted strings from the i-th on, with commas between. */
  function Quoted(fields: seq<string>, i: nat): string
    requires i <= |fields|
    decreases |fields| - i
  {
    if i == |fields| then "" else Escape(fields[i]) + (Comma(i + 1 < |fields|) + Quoted(fields, i + 1))
  }

  method BuildSubmit(id: int, username: string, jobId: string, extranonce2Hex: string, nTimeHex: string, nonceHex: string)
    returns (line: string)
    ensures line
      == WrapText(id, "mining.submit", "[" + Quoted([username, jobId, extranonce2Hex, nTimeHex, nonceHex], 0) + "]")
  {
    hide Escape, WrapText;
    var user := JsonEscape(username);
    var job := JsonEscape(jobId);
    var extranonce2 := JsonEscape(extranonce2Hex);
    var time := JsonEscape(nTimeHex);
    var nonce := JsonEscape(nonceHex);
    var params := "[";
    params := params + user;
    params := params + ",";
    params := params + job;
    params := params + ",";
    params := params + extranonce2;
    params := params + ",";
    params := params + time;
    params := params + ",";
    params := params + nonce;
    params := params + "]";
    FiveQuoted(username, jobId, extranonce2Hex, nTimeHex, nonceHex);
    line := WrapRequest(id, "mining.submit", params);
  }

  lemma FiveQuoted(a: string, b: string, c: string, d: string, e: string)
    ensures "[" + Quoted([a, b, c, d, e], 0) + "]"
      == "[" + Escape(a) + "," + Escape(b) + "," + Escape(c) + "," + Escape(d) + "," + Escape(e) + "]"
  {
    hide Escape;
    var f := [a, b, c, d, e];
    var comma, none := ",", "";
    assert Comma(true) == comma && Comma(false) == none;
    QuotedStep(f, 4);
    QuotedStep(f, 3);
    QuotedStep(f, 2);
    QuotedStep(f, 1);
    QuotedStep(f, 0);
    FiveParts("[", Escape(a), Escape(b), Escape(c), Escape(d), Escape(e), comma, "]");
  }

  lemma QuotedStep(fields: seq<string>, i: nat)
    requires i < |fields|
    ensures Quoted(fields, i) == Escape(fields[i]) + (Comma(i + 1 < |fields|) + Quoted(fields, i + 1))
    ensures i + 1 == |fields| ==> Quoted(fields, i) == Escape(fields[i])
  {
  }

  lemma FiveParts(open: string, a: string, b: string, c: string, d: string, e: string, comma: string, close: string)
    ensures open + (a + (comma + (b + (comma + (c + (comma + (d + (comma + e)))))))) + close
      == open + a + comma + b + comma + c + comma + d + comma + e + close
  {
  }

  // ---- A request line is the text of its request --------------------------

  /** Characters that the printer leaves alone. */
  predicate Plain(s: string) { forall i :: 0 <= i < |s| ==> EscapeChar(s[i]) == [s[i]] }

  lemma {:induction false} PlainEscape(s: string)
    requires Plain(s)
    ensures Escape(s) == "\"" + s + "\""
  {
    PlainBody(s);
  }

  lemma {:induction false} PlainBody(s: string)
    requires Plain(s)
    ensures EscapeBody(s) == s
  {
    if |s| > 0 {
      PlainBody(s[1..]);
      assert s == [s[0]] + s[1..];
    }
  }

  /** The quoted strings are what the printer makes of an array of strings. */
  lemma {:induction false} QuotedIsDump(fields: seq<string>, i: nat, depth: nat, fmt: Formatter)
    requires i <= |fields| && Printable(Strings(fields))
    ensures DumpItems(Strings(fields), i, 0, depth, fmt) == Quoted(fields, i)
    decreases |fields| - i
  {
    hide Escape, Comma, Dump, DumpItems, Quoted;
    if i == |fields| {
      NothingQuoted(fields, depth, fmt);
    } else {
      QuotedIsDump(fields, i + 1, depth, fmt);
      ItemText(Strings(fields), i, 0, depth, fmt);
      StringDump(fields[i], depth + 1, fmt);
      QuotedStep(fields, i);
    }
  }

  lemma NothingQuoted(fields: seq<string>, depth: nat, fmt: Formatter)
    requires Printable(Strings(fields))
    ensures DumpItems(Strings(fields), |fields|, 0, depth, fmt) == "" && Quoted(fields, |fields|) == ""
  {
  }

  lemma StringDump(s: string, depth: nat, fmt: Formatter)
    ensures Dump(String(s), 0, depth, fmt) == Escape(s) && Indentation(0, depth) == "" && Newline(0) == ""
  {
  }

  lemma StringsDump(fields: seq<string>, depth: nat, fmt: Formatter)
    requires |fields| > 0 && Printable(Strings(fields))
    ensures Dump(Strings(fields), 0, depth, fmt) == "[" + Quoted(fields, 0) + "]"
  {
    hide Quoted, DumpItems;
    QuotedIsDump(fields, 0, depth, fmt);
  }

  lemma RequestKeys(indent: int)
    requires indent == 0
    ensures Escape("id") == "\"id\"" && Escape("method") == "\"method\"" && Escape("params") == "\"params\""
    ensures Colon(indent) == ":"
  {
    hide Escape;
    WordEscape("id");
    WordEscape("method");
    WordEscape("params");
  }

  lemma WordEscape(s: string)
    requires forall i :: 0 <= i < |s| ==> 'a' <= s[i] <= 'z'
    ensures Escape(s) == "\"" + s + "\""
  {
    PlainEscape(s);
  }

  lemma RequestDump(id: int, name: string, params: Json, fmt: Formatter)
    requires Printable(params) && Printable(Request(id, name, params)) && IsSmallInteger(id as real)
    ensures Dump(Request(id, name, params), 0, 0, fmt) + "\n" == WrapText(id, name, Dump(params, 0, 1, fmt))
  {
    hide Escape, IntToString, Dump, DumpMembers;
    var v := Request(id, name, params);
    RequestFields(id, name, params, fmt);
    ObjectDump(v, 0, 0, fmt);
    MemberText(v, 0, 0, 0, fmt);
    MemberText(v, 1, 0, 0, fmt);
    MemberText(v, 2, 0, 0, fmt);
    RequestKeys(0);
    RequestParts(IntToString(id), Escape(name), Dump(params, 0, 1, fmt),
                 DumpMembers(v, 0, 0, 0, fmt), DumpMembers(v, 1, 0, 0, fmt), DumpMembers(v, 2, 0, 0, fmt));
  }

  lemma RequestFields(id: int, name: string, params: Json, fmt: Formatter)
    requires Printable(params) && IsSmallInteger(id as real)
    ensures var v := Request(id, name, params);
      && v.keys[0] == "id" && v.keys[1] == "method" && v.keys[2] == "params" && v.members["params"] == params
      && Dump(v.members["id"], 0, 1, fmt) == IntToString(id) && Dump(v.members["method"], 0, 1, fmt) == Escape(name)
    ensures Indentation(0, 1) == "" && Indentation(0, 0) == "" && Newline(0) == ""
  {
    hide Escape, IntToString;
  }

  lemma RequestIsExact(id: int, name: string, params: Json)
    requires IsSmallInteger(id as real) && Exact(params, 1)
    ensures Exact(Request(id, name, params), 0)
  {
  }

  /** A request line, read without its newline, parses to exactly the request. */
  lemma RequestParses(id: int, name: string, params: Json, fmt: Formatter)
    requires IsSmallInteger(id as real) && Exact(params, 1)
    ensures Printable(params) && var line := WrapText(id, name, Dump(params, 0, 1, fmt));
      |line| > 0 && line[|line| - 1] == '\n'
      && ParseText(line[..|line| - 1]) == Ok(Request(id, name, params), |line| - 1)
    ensures var request := Request(id, name, params);
      && request.keys == ["id", "method", "params"] && request.members["id"] == Number(id as real)
      && request.members["method"] == String(name) && request.members["params"] == params
  {
    hide Dump, Exact, WrapText, ParseText, Request;
    ExactIsPrintable(params, 1);
    RequestIsExact(id, name, params);
    ParseDump(Request(id, name, params), 0, fmt);
    RequestDump(id, name, params, fmt);
    var text := Dump(Request(id, name, params), 0, 0, fmt);
    assert (text + "\n")[..|text|] == text;
    RequestMembers(id, name, params);
  }

  lemma RequestMembers(id: int, name: string, params: Json)
    ensures var request := Request(id, name, params);
      && request.keys == ["id", "method", "params"] && request.members["id"] == Number(id as real)
      && request.members["method"] == String(name) && request.members["params"] == params
  {
  }

  lemma RequestParts(id: string, name: string, params: string, m0: string, m1: string, m2: string)
    requires m0 == "" + ("\"id\"" + (":" + (id + ("," + ("" + m1)))))
    requires m1 == "" + ("\"method\"" + (":" + (name + ("," + ("" + m2)))))
    requires m2 == "" + ("\"params\"" + (":" + (params + ("" + ("" + "")))))
    ensures "{" + ("" + (m0 + ("" + "}"))) + "\n" == "{\"id\":" + id + ",\"method\":" + name + ",\"params\":" + params + "}\n"
  {
  }

  /** A list of strings is printed exactly. */
  lemma StringsAreExact(fields: seq<string>)
    ensures Exact(Strings(fields), 1)
  {
  }

  /** A submit line carries exactly the strings it was built from. */
  lemma SubmitLineParses(id: int, fields: seq<string>)
    requires IsSmallInteger(id as real) && |fields| > 0
    ensures var line := WrapText(id, "mining.submit", "[" + Quoted(fields, 0) + "]");
      |line| > 0 && ParseText(line[..|line| - 1]) == Ok(Request(id, "mining.submit", Strings(fields)), |line| - 1)
  {
    hide WrapText, Quoted, Dump, ParseText, Request, Strings;
    var fmt: Formatter := (_: real) => "";
    StringsAreExact(fields);
    RequestParses(id, "mining.submit", Strings(fields), fmt);
    StringsDump(fields, 1, fmt);
  }
}

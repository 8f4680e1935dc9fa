/** TCP line framing: LineBuffer of src/stratum/message.cpp, and the read loop of src/stratum/client.cpp that drains it. */
module LineBuffers {
  import opened Bytes

  const MAX_LINE: nat := 0x10_0000
  const READ_SIZE: nat := 8192

  predicate Unbroken(s: string) { forall i :: 0 <= i < |s| ==> s[i] != '\n' }

  /** The index of the first newline, or the length of s. */
  function Newline(s: string): (n: nat)
    ensures n <= |s| && Unbroken(s[..n]) && (n < |s| ==> s[n] == '\n')
  {
    if |s| == 0 || s[0] == '\n' then 0
    else
      assert s == [s[0]] + s[1..];
      1 + Newline(s[1..])
  }

  /** Without its last character when that is a carriage return. */
  function StripCr(line: string): string {
    if |line| > 0 && line[|line| - 1] == '\r' then line[..|line| - 1] else line
  }

  /** What precedes each newline of a stream. */
  function RawLines(s: string): seq<string> {
    var n := Newline(s);
    if n == |s| then [] else [s[..n]] + RawLines(s[n + 1..])
  }

  /** The complete lines of a stream. */
  function Lines(s: string): seq<string> {
    var n := Newline(s);
    if n == |s| then [] else [StripCr(s[..n])] + Lines(s[n + 1..])
  }

  /** What follows the last newline. */
  function Rest(s: string): string {
    var n := Newline(s);
    if n == |s| then s else Rest(s[n + 1..])
  }

  function Joined(lines: seq<string>): string {
    if |lines| == 0 then "" else lines[0] + "\n" + Joined(lines[1..])
  }

  /** The lines are the only way to cut the stream at its newlines. */
  lemma {:induction false} SplitRejoins(s: string)
    ensures Joined(RawLines(s)) + Rest(s) == s && Unbroken(Rest(s))
    decreases |s|
  {
    var n := Newline(s);
    if n < |s| {
      var tail := s[n + 1..];
      SplitRejoins(tail);
      JoinedCons(s[..n], RawLines(tail));
      Regroup(s[..n], "\n", Joined(RawLines(tail)), Rest(tail));
      CutAt(s, n);
    } else {
      assert s[..n] == s;
    }
  }

  lemma JoinedCons(first: string, rest: seq<string>)
    ensures Joined([first] + rest) == first + "\n" + Joined(rest)
  {
  }

  lemma CutAt(s: string, n: nat)
    requires n < |s| && s[n] == '\n'
    ensures s == s[..n] + "\n" + s[n + 1..]
  {
  }

  /** A raw line is its line with a carriage return after it, or the line itself, which then does not end with one. */
  predicate LosesReturn(raw: string, line: string) {
    raw == line + "\r" || (raw == line && (|line| > 0 ==> line[|line| - 1] != '\r'))
  }

  /** No line contains a newline, and each loses one carriage return at its end, if it has one, and nothing else. */
  lemma {:induction false} LinesAreStripped(s: string)
    ensures |Lines(s)| == |RawLines(s)|
    ensures forall i :: 0 <= i < |Lines(s)| ==> Unbroken(RawLines(s)[i]) && LosesReturn(RawLines(s)[i], Lines(s)[i])
    decreases |s|
  {
    hide StripCr, LosesReturn;
    var n := Newline(s);
    if n < |s| {
      LinesAreStripped(s[n + 1..]);
      StripLosesReturn(s[..n]);
    }
  }

  lemma StripLosesReturn(raw: string)
    ensures LosesReturn(raw, StripCr(raw))
  {
  }

  lemma Regroup(a: string, b: string, c: string, d: string)
    ensures a + b + c + d == a + b + (c + d)
  {
  }

  lemma {:induction false} FirstNewline(s: string, n: nat)
    requires n < |s| && Unbroken(s[..n]) && s[n] == '\n'
    ensures Newline(s) == n
    decreases n
  {
    if n > 0 {
      assert s[..n][0] == s[0] && s[..n][1..] == s[1..][..n - 1];
      FirstNewline(s[1..], n - 1);
    }
  }

  /** Empty, or ending with a newline. */
  ghost predicate Ended(s: string) { |s| == 0 || s[|s| - 1] == '\n' }

  lemma LinesStep(s: string, n: nat)
    requires n < |s| && Unbroken(s[..n]) && s[n] == '\n'
    ensures Lines(s) == [StripCr(s[..n])] + Lines(s[n + 1..]) && Rest(s) == Rest(s[n + 1..])
  {
    hide StripCr, Newline;
    FirstNewline(s, n);
  }

  lemma EndedHasNewline(a: string)
    requires Ended(a) && |a| > 0
    ensures Newline(a) < |a| && Ended(a[Newline(a) + 1..])
  {
  }

  /** What is read after whole lines does not change those lines. */
  lemma {:induction false} LinesConcat(a: string, b: string)
    requires Ended(a)
    ensures Lines(a + b) == Lines(a) + Lines(b) && Rest(a + b) == Rest(b)
    decreases |a|
  {
    hide Lines, Rest, StripCr, Unbroken, Newline;
    if |a| == 0 {
      LinesOfNothing(a, b);
    } else {
      EndedHasNewline(a);
      var n := Newline(a);
      var tail := a[n + 1..];
      CutInFirst(a, b, n);
      LinesStep(a, n);
      LinesStep(a + b, n);
      LinesConcat(tail, b);
      Associative([StripCr(a[..n])], Lines(tail), Lines(b));
    }
  }

  lemma LinesOfNothing(a: string, b: string)
    requires |a| == 0
    ensures a + b == b && Lines(a) == [] && Lines(a) + Lines(b) == Lines(b)
  {
  }

  lemma CutInFirst(a: string, b: string, n: nat)
    requires n < |a|
    ensures (a + b)[..n] == a[..n] && (a + b)[n] == a[n] && (a + b)[n + 1..] == a[n + 1..] + b
  {
  }

  lemma OneLine(a: string)
    requires Unbroken(a)
    ensures Lines(a + "\n") == [StripCr(a)]
  {
    var s := a + "\n";
    assert s[..|a|] == a && s[|a| + 1..] == "";
    FirstNewline(s, |a|);
  }

  lemma TakeLine(taken: string, buffer: string, n: nat)
    requires n < |buffer| && n == Newline(buffer) && Ended(taken)
    ensures var raw, next := buffer[..n], taken + (buffer[..n] + "\n");
      && buffer == raw + "\n" + buffer[n + 1..] && taken + buffer == next + buffer[n + 1..]
      && Ended(next) && Lines(next) == Lines(taken) + [StripCr(raw)]
      && Unbroken(raw) && !Unbroken(buffer)
  {
    hide Lines, StripCr;
    var raw := buffer[..n];
    OneLine(raw);
    CutAt(buffer, n);
    LinesConcat(taken, raw + "\n");
    Regroup(taken, raw, "\n", buffer[n + 1..]);
    assert buffer[n] == '\n';
  }

  class LineBuffer {
    var buffer: string
    var overflowed: bool

    /** Everything appended since the last Clear, the whole lines already taken out of it, and what they were. */
    ghost var stream: string
    ghost var taken: string
    ghost var yielded: seq<string>
    /** The longest that the buffer has ever been. */
    ghost var peak: nat

    ghost predicate Valid()
      reads this
    {
      && (overflowed ==> buffer == "")
      && (!overflowed ==> stream == taken + buffer && Ended(taken) && yielded == Lines(taken))
    }

    /** However the stream was cut into appends and whenever lines were taken, nothing is lost, invented or reordered. */
    lemma Framing()
      requires Valid() && !overflowed
      ensures yielded + Lines(buffer) == Lines(stream) && Rest(buffer) == Rest(stream)
    {
      LinesConcat(taken, buffer);
    }

    constructor ()
      ensures Valid() && !overflowed && buffer == "" && stream == "" && yielded == [] && peak == 0
    {
      buffer, overflowed := "", false;
      stream, taken, yielded, peak := "", "", [], 0;
    }

    method Append(data: string)
      requires Valid()
      modifies this
      ensures Valid() && yielded == old(yielded) && taken == old(taken)
      ensures stream == if old(overflowed) then old(stream) else old(stream) + data
      ensures overflowed <==> old(overflowed) || (|old(buffer) + data| > 0x10_0000 && Unbroken(old(buffer) + data))
      ensures !overflowed ==> buffer == old(buffer) + data
      ensures peak == if old(overflowed) || old(peak) >= |old(buffer) + data| then old(peak) else |old(buffer) + data|
    {
      if overflowed { return; }
      assert stream + data == taken + (buffer + data);
      buffer := buffer + data;
      stream := stream + data;
      peak := if peak >= |buffer| then peak else |buffer|;
      if |buffer| > MAX_LINE && Newline(buffer) == |buffer| {
        overflowed := true;
        buffer := "";
      }
      assert !overflowed ==> Newline(buffer) < |buffer| || |buffer| <= MAX_LINE;
    }

    method NextLine() returns (ok: bool, line: string)
      requires Valid()
      modifies this
      ensures Valid() && overflowed == old(overflowed) && stream == old(stream) && peak == old(peak)
      ensures ok <==> !Unbroken(old(buffer))
      ensures ok ==> !overflowed && yielded == old(yielded) + [line] && |buffer| < |old(buffer)|
      ensures !ok ==> buffer == old(buffer) && yielded == old(yielded)
      ensures ok ==> exists raw :: Unbroken(raw) && old(buffer) == raw + "\n" + buffer && LosesReturn(raw, line)
    {
      var newline := Newline(buffer);
      if newline == |buffer| {
        assert buffer == buffer[..newline];
        return false, "";
      }
      hide LosesReturn, Lines;
      TakeLine(taken, buffer, newline);
      StripLosesReturn(buffer[..newline]);
      line := buffer[..newline];
      taken := taken + (line + "\n");
      buffer := buffer[newline + 1..];
      if |line| > 0 && line[|line| - 1] == '\r' { line := line[..|line| - 1]; }
      yielded := yielded + [line];
      ok := true;
    }

    /** The overflow mark survives. */
    method Clear()
      requires Valid()
      modifies this
      ensures Valid() && overflowed == old(overflowed) && peak == old(peak)
      ensures buffer == "" && stream == "" && taken == "" && yielded == []
    {
      buffer := "";
      stream, taken, yielded := "", "", [];
    }
  }

  // ---- The client's read loop --------------------------------------------

  /** Takes every complete line out of the buffer. */
  method Drain(lines: LineBuffer, before: seq<string>) returns (all: seq<string>)
    requires lines.Valid() && (!lines.overflowed ==> before == lines.yielded)
    modifies lines
    ensures lines.Valid() && lines.overflowed == old(lines.overflowed) && lines.stream == old(lines.stream)
    ensures lines.peak == old(lines.peak) && Unbroken(lines.buffer)
    ensures if lines.overflowed then all == before else all == lines.yielded
    ensures |lines.buffer| <= |old(lines.buffer)|
  {
    all := before;
    var ok, line := lines.NextLine();
    while ok
      invariant lines.Valid() && lines.overflowed == old(lines.overflowed) && lines.stream == old(lines.stream)
      invariant lines.peak == old(lines.peak) && |lines.buffer| <= |old(lines.buffer)|
      invariant ok ==> !lines.overflowed && lines.yielded == all + [line]
      invariant !ok ==> Unbroken(lines.buffer) && if lines.overflowed then all == before else all == lines.yielded
      decreases ok, |lines.buffer|
    {
      all := all + [line];
      ok, line := lines.NextLine();
    }
  }

  ghost predicate TooLong(chunks: seq<string>, k: nat)
    requires k <= |chunks|
  {
    |Rest(Concat(chunks[..k]))| > 0x10_0000
  }

  /** The k-th read is the first to leave an unfinished line that is too long. */
  ghost predicate FirstTooLong(chunks: seq<string>, k: nat) {
    0 < k <= |chunks| && TooLong(chunks, k) && forall j :: 0 <= j < k ==> !TooLong(chunks, j)
  }

  lemma DrainedBuffer(lines: LineBuffer)
    requires lines.Valid() && !lines.overflowed && Unbroken(lines.buffer)
    ensures lines.yielded == Lines(lines.stream) && lines.buffer == Rest(lines.stream)
  {
    lines.Framing();
    NoLines(lines.buffer);
  }

  lemma NoLines(s: string)
    requires Unbroken(s)
    ensures Lines(s) == [] && Rest(s) == s
  {
  }

  lemma {:induction false} RestLength(s: string)
    ensures |Rest(s)| <= |s|
    decreases |s|
  {
    var n := Newline(s);
    if n < |s| { RestLength(s[n + 1..]); }
  }

  /** The unfinished line after one more read. */
  lemma RestOfRead(stream: string, data: string)
    ensures Newline(data) == |data| ==> Rest(stream + data) == Rest(stream) + data
    ensures Newline(data) < |data| ==> |Rest(stream + data)| < |data|
  {
    hide Rest, Lines, RawLines, Joined, Newline;
    var lines, rest := Joined(RawLines(stream)), Rest(stream);
    SplitRejoins(stream);
    JoinedEnds(RawLines(stream));
    assert lines + (rest + data) == lines + rest + data;
    LinesConcat(lines, rest + data);
    if Newline(data) == |data| {
      assert data[..|data|] == data;
      NoLines(rest + data);
    } else {
      RestOfLine(rest, data);
    }
  }

  lemma RestOfLine(rest: string, data: string)
    requires Unbroken(rest) && Newline(data) < |data|
    ensures |Rest(rest + data)| < |data|
  {
    hide Rest, Lines, Newline;
    var line, m := rest + data, Newline(data);
    var n := |rest| + m;
    assert line[..n] == rest + data[..m];
    LinesStep(line, n);
    assert line[n + 1..] == data[m + 1..];
    RestLength(data[m + 1..]);
  }

  lemma {:induction false} JoinedEnds(lines: seq<string>)
    ensures Ended(Joined(lines))
    decreases |lines|
  {
    if |lines| > 0 {
      JoinedEnds(lines[1..]);
    }
  }

  /**
   * One connection: the buffer is cleared, then every chunk read is appended and drained until an overflow.
   * The lines handed on are those of the whole stream, however the network cut it, or, on an overflow, of all reads
   * before the one that overflowed; the buffer stays bounded; and after an overflow no later connection gets a line.
   */
  method Session(lines: LineBuffer, chunks: seq<string>) returns (all: seq<string>)
    requires lines.Valid() && forall i :: 0 <= i < |chunks| ==> |chunks[i]| <= 8192
    modifies lines
    ensures lines.Valid()
    ensures !lines.overflowed ==> all == Lines(Concat(chunks))
    ensures lines.overflowed && !old(lines.overflowed) ==>
      exists k :: FirstTooLong(chunks, k) && all == Lines(Concat(chunks[..k - 1]))
    ensures lines.overflowed <==> old(lines.overflowed) || exists k :: 0 <= k <= |chunks| && TooLong(chunks, k)
    ensures old(lines.overflowed) ==> all == []
    ensures lines.peak <= if old(lines.peak) > 0x10_0000 + 8192 then old(lines.peak) else 0x10_0000 + 8192
  {
    hide Lines, Rest, Concat, Newline;
    lines.Clear();
    all := [];
    ConcatNothing(chunks);
    for i := 0 to |chunks|
      invariant lines.Valid() && lines.overflowed == old(lines.overflowed)
      invariant !lines.overflowed ==> lines.stream == Concat(chunks[..i]) && Unbroken(lines.buffer)
      invariant !lines.overflowed ==> all == Lines(Concat(chunks[..i])) && lines.buffer == Rest(Concat(chunks[..i]))
      invariant !lines.overflowed ==> all == lines.yielded && |lines.buffer| <= MAX_LINE
      invariant !lines.overflowed ==> forall k :: 0 <= k <= i ==> !TooLong(chunks, k)
      invariant lines.overflowed ==> all == [] && i == 0
      invariant lines.peak <= if old(lines.peak) > MAX_LINE + READ_SIZE then old(lines.peak) else MAX_LINE + READ_SIZE
    {
      ConcatStep(chunks, i);
      ghost var before := lines.buffer;
      RestOfRead(Concat(chunks[..i]), chunks[i]);
      NewlineIn(before, chunks[i]);
      lines.Append(chunks[i]);
      if lines.overflowed {
        assert !old(lines.overflowed) ==> TooLong(chunks, i + 1) && FirstTooLong(chunks, i + 1);
        return;
      }
      all := Drain(lines, all);
      DrainedBuffer(lines);
    }
    assert chunks[..|chunks|] == chunks;
  }

  lemma ConcatNothing(chunks: seq<string>)
    ensures Concat(chunks[..0]) == "" && Lines("") == [] && Rest("") == ""
  {
  }

  lemma ConcatStep(chunks: seq<string>, i: nat)
    requires i < |chunks|
    ensures Concat(chunks[..i + 1]) == Concat(chunks[..i]) + chunks[i]
  {
    assert chunks[..i + 1][..i] == chunks[..i];
  }

  lemma NewlineIn(a: string, b: string)
    requires Unbroken(a)
    ensures !Unbroken(a + b) <==> Newline(b) < |b|
  {
    if Newline(b) < |b| {
      assert (a + b)[|a| + Newline(b)] == '\n';
    } else {
      assert b[..|b|] == b;
    }
  }
}

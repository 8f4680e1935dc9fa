/** Hexadecimal text: src/util/hex.cpp. */
module Hex {
  import opened Bytes
  import opened Chars
  import opened Wrappers

  function ByteText(b: Byte): (text: string)
    ensures |text| == 2
  {
    [HexChar(b / 16), HexChar(b % 16)]
  }

  function HexText(data: seq<Byte>): (text: string)
    ensures |text| == 2 * |data|
  {
    if |data| == 0 then "" else ByteText(data[0]) + HexText(data[1..])
  }

  lemma {:induction false} HexTextConcat(a: seq<Byte>, b: seq<Byte>)
    ensures HexText(a + b) == HexText(a) + HexText(b)
    decreases |a|
  {
    if |a| == 0 {
      assert a + b == b;
    } else {
      assert (a + b)[0] == a[0] && (a + b)[1..] == a[1..] + b;
      HexTextConcat(a[1..], b);
    }
  }

  /** The byte that two hexadecimal digits denote. */
  function DigitPair(hi: char, lo: char): Byte
    requires IsHexDigit(hi) && IsHexDigit(lo)
  {
    HexValue(hi) * 16 + HexValue(lo)
  }

  /** What a text denotes: nothing unless it is an even number of hexadecimal digits. */
  function Unhex(hex: string): (data: Option<seq<Byte>>)
    ensures data.Some? <==> |hex| % 2 == 0 && AllHex(hex)
    ensures data.Some? ==> 2 * |data.value| == |hex|
  {
    if |hex| == 0 then Some([])
    else if |hex| == 1 then None
    else
      AllHexFrom(hex);
      var rest := Unhex(hex[2..]);
      if IsHexDigit(hex[0]) && IsHexDigit(hex[1]) && rest.Some? then Some([DigitPair(hex[0], hex[1])] + rest.value) else None
  }

  lemma AllHexFrom(hex: string)
    requires |hex| >= 2
    ensures AllHex(hex) <==> IsHexDigit(hex[0]) && IsHexDigit(hex[1]) && AllHex(hex[2..])
  {
    hide IsHexDigit;
    assert forall i :: 2 <= i < |hex| ==> hex[i] == hex[2..][i - 2];
  }

  method ToHex(data: seq<Byte>) returns (out: string)
    ensures out == HexText(data)
  {
    hide HexText;
    var text := new char[2 * |data|];
    assert data[0..] == data;
    for i := 0 to |data|
      invariant text[..2 * i] + HexText(data[i..]) == HexText(data)
    {
      HexTextStep(text[..2 * i], data, i);
      ghost var before := text[..2 * i];
      text[i * 2] := HexChar(data[i] / 16);
      text[i * 2 + 1] := HexChar(data[i] % 16);
      assert text[..2 * i] == before;
      assert text[..2 * (i + 1)] == before + ByteText(data[i]);
    }
    out := text[..];
    assert data[|data|..] == [];
  }

  lemma HexTextStep(before: string, data: seq<Byte>, i: nat)
    requires i < |data|
    ensures before + HexText(data[i..]) == before + ByteText(data[i]) + HexText(data[i + 1..])
  {
  }

  method FromHex(hex: string) returns (ok: bool, out: seq<Byte>)
    ensures ok <==> Unhex(hex).Some?
    ensures ok ==> Unhex(hex) == Some(out)
  {
    out := [];
    if |hex| % 2 != 0 { return false, out; }
    var i := 0;
    assert hex[0..] == hex;
    PrependNothing(Unhex(hex));
    while i < |hex|
      invariant 0 <= i <= |hex| && i % 2 == 0
      invariant Unhex(hex) == Prepend(out, Unhex(hex[i..]))
      decreases |hex| - i
    {
      if !IsHexDigit(hex[i]) || !IsHexDigit(hex[i + 1]) { return false, []; }
      assert hex[i..][2..] == hex[i + 2..];
      PrependMore(out, DigitPair(hex[i], hex[i + 1]), Unhex(hex[i + 2..]));
      out := out + [DigitPair(hex[i], hex[i + 1])];
      i := i + 2;
    }
    assert hex[i..] == "" && out + [] == out;
    ok := true;
  }

  ghost function Prepend(front: seq<Byte>, back: Option<seq<Byte>>): Option<seq<Byte>> {
    if back.Some? then Some(front + back.value) else None
  }

  lemma PrependNothing(back: Option<seq<Byte>>)
    ensures Prepend([], back) == back
  {
    if back.Some? { assert [] + back.value == back.value; }
  }

  lemma PrependMore(front: seq<Byte>, b: Byte, back: Option<seq<Byte>>)
    ensures Prepend(front + [b], back) == Prepend(front, if back.Some? then Some([b] + back.value) else None)
  {
    if back.Some? { assert front + [b] + back.value == front + ([b] + back.value); }
  }

  /** Fills a fixed buffer, or leaves it alone. */
  method FromHexFixed(hex: string, out: array<Byte>) returns (ok: bool)
    modifies out
    ensures ok <==> |hex| == 2 * out.Length && AllHex(hex)
    ensures if ok then Unhex(hex) == Some(out[..]) else out[..] == old(out[..])
  {
    if |hex| != out.Length * 2 { return false; }
    var tmp;
    ok, tmp := FromHex(hex);
    if !ok { return; }
    for i := 0 to out.Length
      invariant out[..i] == tmp[..i]
    {
      out[i] := tmp[i];
    }
    assert out[..] == tmp;
  }

  /** Reading hexadecimal text back gives the bytes that were written. */
  lemma {:induction false} UnhexHexText(data: seq<Byte>)
    ensures Unhex(HexText(data)) == Some(data)
  {
    hide ByteText, DigitPair, IsHexDigit;
    if |data| > 0 {
      var text, rest := HexText(data), HexText(data[1..]);
      UnhexHexText(data[1..]);
      PairOfByte(data[0]);
      assert text[..2] == ByteText(data[0]) && text[2..] == rest;
      assert text[0] == ByteText(data[0])[0] && text[1] == ByteText(data[0])[1];
      assert data == [data[0]] + data[1..];
    }
  }

  lemma PairOfByte(b: Byte)
    ensures var t := ByteText(b); |t| == 2 && IsHexDigit(t[0]) && IsHexDigit(t[1]) && DigitPair(t[0], t[1]) == b
  {
  }

  function Lower(c: char): char { if 'A' <= c <= 'F' then (c as int - 'A' as int + 'a' as int) as char else c }

  function LowerText(text: string): string { if |text| == 0 then "" else [Lower(text[0])] + LowerText(text[1..]) }

  lemma LowerPair(hi: char, lo: char)
    requires IsHexDigit(hi) && IsHexDigit(lo)
    ensures ByteText(DigitPair(hi, lo)) == [Lower(hi), Lower(lo)]
  {
    hide HexValue, HexChar, Lower, IsHexDigit;
    LowerDigit(hi);
    LowerDigit(lo);
  }

  lemma LowerDigit(c: char)
    requires IsHexDigit(c)
    ensures HexChar(HexValue(c)) == Lower(c)
  {
  }

  /** Writing what was read gives the same text in lower case. */
  lemma {:induction false} HexTextUnhex(hex: string)
    requires Unhex(hex).Some?
    ensures HexText(Unhex(hex).value) == LowerText(hex)
    decreases |hex|
  {
    hide Lower, ByteText, DigitPair;
    if |hex| > 1 {
      HexTextUnhex(hex[2..]);
      var data, rest := Unhex(hex).value, Unhex(hex[2..]).value;
      assert data == [DigitPair(hex[0], hex[1])] + rest && data[1..] == rest;
      LowerPair(hex[0], hex[1]);
      assert hex[1..][1..] == hex[2..];
    }
  }
}

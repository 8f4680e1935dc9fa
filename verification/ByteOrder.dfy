/** What the byte orders denote: header words, displayed hashes and swapped words, as numbers. */
module ByteOrder {
  import opened Arith
  import opened Bytes
  import opened Chars
  import opened HashCodec
  import opened Header
  import opened HeaderRoundTrip
  import opened Hex
  import opened MockPool
  import opened StratumMessage
  import opened Uint256Hash
  import opened Work
  import opened Wrappers

  /** Header words are little-endian. */
  lemma HeaderWord(w: Word)
    ensures LeValue(Le32(w)) == w
  {
    hide LeValue;
    var b := Le32(w);
    LeFour(b[0], b[1], b[2], b[3]);
    FourDigits(w);
  }

  lemma LeFour(a: Byte, b: Byte, c: Byte, d: Byte)
    ensures LeValue([a, b, c, d]) == a + b * 0x100 + c * 0x1_0000 + d * 0x100_0000
  {
    LeStep(a, [b, c, d]);
    LeStep(b, [c, d]);
    LeStep(c, [d]);
    LeStep(d, []);
  }

  lemma LeStep(a: Byte, rest: seq<Byte>)
    ensures LeValue([a] + rest) == a + 256 * LeValue(rest) && LeValue([]) == 0
  {
  }

  // ---- Displayed hashes --------------------------------------------------

  /** All bytes in the opposite order. */
  function Backwards(b: seq<Byte>): (r: seq<Byte>)
    ensures |r| == |b|
  {
    seq(|b|, i requires 0 <= i < |b| => b[|b| - 1 - i])
  }

  /** Reading the most significant byte first is reading the reverse with the least significant first. */
  lemma {:induction false} BackwardsValue(b: seq<Byte>)
    ensures BeValue(Backwards(b)) == LeValue(b)
  {
    if |b| > 0 {
      BackwardsValue(b[1..]);
      assert Backwards(b)[..|b| - 1] == Backwards(b[1..]);
    }
  }

  /** Hexadecimal text, read as one number, is the big-endian value of its bytes. */
  lemma {:induction false} TextIsNumber(b: seq<Byte>)
    ensures AllHex(HexText(b)) && DigitsNumber(HexText(b)) == BeValue(b)
    decreases |b|
  {
    if |b| > 0 {
      hide HexText, DigitsNumber, BeValue, AllHex, ByteText;
      var front, last := b[..|b| - 1], b[|b| - 1];
      TextIsNumber(front);
      assert b == front + [last];
      HexTextConcat(front, [last]);
      OneByteText(last);
      LastDigits(HexText(front), last);
      BeValueStep(b);
    }
  }

  lemma LastDigits(text: string, last: Byte)
    requires AllHex(text)
    ensures AllHex(text + ByteText(last)) && DigitsNumber(text + ByteText(last)) == DigitsNumber(text) * 256 + last
  {
    var whole := text + ByteText(last);
    assert whole[..|whole| - 1] == text + [HexChar(last / 16)];
    assert whole[..|whole| - 1][..|text|] == text;
  }

  /** The form in which a hash is shown is the number that is compared with the target, in hexadecimal. */
  lemma ShownIsCompared(hash: Hash256)
    ensures HexNumber(HexText(Reverse(hash))) == Some(LeValue(hash))
  {
    hide HexText, DigitsNumber, BeValue, LeValue;
    assert Reverse(hash) == Backwards(hash);
    BackwardsValue(hash);
    TextIsNumber(Reverse(hash));
  }

  // ---- Swapped words -----------------------------------------------------

  /** Swapping leaves each word in its place and turns its big-endian number into a little-endian one. */
  lemma SwappedWord(hash: Hash256, word: nat)
    requires word < 8
    ensures LeValue(SwapWords(hash)[4 * word..4 * word + 4]) == BeValue(hash[4 * word..4 * word + 4])
  {
    hide BeValue, LeValue;
    var part, swapped := hash[4 * word..4 * word + 4], SwapWords(hash)[4 * word..4 * word + 4];
    assert swapped == [part[3], part[2], part[1], part[0]];
    LeFour(part[3], part[2], part[1], part[0]);
    BeValueFour(part);
  }
}

/** The byte orders of a 256-bit hash: src/bitcoin/hash.cpp. */
module HashCodec {
  import opened Bytes
  import opened Chars
  import opened Hex
  import opened Wrappers

  /** Reverses the bytes within each 4-byte word and leaves the words where they are. */
  function SwapWords(h: Hash256): Hash256 { seq(32, i requires 0 <= i < 32 => h[i / 4 * 4 + (3 - i % 4)]) }

  /** The order in which a hash is shown to people. */
  function Reverse(h: Hash256): Hash256 { seq(32, i requires 0 <= i < 32 => h[31 - i]) }

  method SwapWordBytes(input: Hash256) returns (out: Hash256)
    ensures out == SwapWords(input)
  {
    hide SwapWords;
    var bytes: array<Byte> := new Byte[32](_ => 0);
    for word := 0 to 8
      invariant bytes[..4 * word] == SwapWords(input)[..4 * word]
    {
      for i := 0 to 4
        invariant bytes[..4 * word + i] == SwapWords(input)[..4 * word + i]
      {
        bytes[word * 4 + i] := input[word * 4 + (3 - (i as int))];
        SwappedByte(input, word, i);
        assert SwapWords(input)[word * 4 + i] == input[word * 4 + (3 - (i as int))];
      }
    }
    out := bytes[..];
  }

  lemma SwappedByte(h: Hash256, word: int, i: int)
    requires 0 <= word < 8 && 0 <= i < 4
    ensures SwapWords(h)[word * 4 + i] == h[word * 4 + (3 - i)]
  {
  }

  lemma SwapWordsInvolution(h: Hash256)
    ensures SwapWords(SwapWords(h)) == h
  {
  }

  /** Hash256::fromRawHex */
  method FromRawHex(hex: string) returns (ok: bool, out: Hash256)
    ensures ok <==> |hex| == 64 && AllHex(hex)
    ensures ok ==> Unhex(hex) == Some(out)
    ensures !ok ==> out == ZeroHash()
  {
    var tmp: array<Byte> := new Byte[32](_ => 0);
    ok := FromHexFixed(hex, tmp);
    if !ok { return false, ZeroHash(); }
    out := tmp[..];
  }

  /** Hash256::toDisplayHex */
  method ToDisplayHex(h: Hash256) returns (text: string)
    ensures text == HexText(Reverse(h))
  {
    var reversed: array<Byte> := new Byte[32](_ => 0);
    for i := 0 to 32
      invariant reversed[..i] == Reverse(h)[..i]
    {
      reversed[i] := h[31 - (i as int)];
    }
    assert reversed[..] == Reverse(h);
    text := ToHex(reversed[..]);
  }

  /** Hash256::fromDisplayHex */
  method FromDisplayHex(hex: string) returns (ok: bool, out: Hash256)
    ensures ok <==> |hex| == 64 && AllHex(hex)
    ensures ok ==> Unhex(hex) == Some(Reverse(out))
    ensures !ok ==> out == ZeroHash()
  {
    var tmp: array<Byte> := new Byte[32](_ => 0);
    ok := FromHexFixed(hex, tmp);
    if !ok { return false, ZeroHash(); }
    ghost var read := tmp[..];
    ReverseInPlace(tmp);
    out := tmp[..];
    ReverseTwice(read);
  }

  /** std::reverse */
  method ReverseInPlace(a: array<Byte>)
    requires a.Length == 32
    modifies a
    ensures a[..] == Reverse(old(a[..]))
  {
    for i := 0 to 16
      invariant forall k :: 0 <= k < i ==> a[k] == old(a[31 - k]) && a[31 - k] == old(a[k])
      invariant forall k :: i <= k < 32 - i ==> a[k] == old(a[k])
    {
      a[i], a[31 - (i as int)] := a[31 - (i as int)], a[i];
    }
  }

  lemma ReverseTwice(h: Hash256)
    ensures Reverse(Reverse(h)) == h
  {
  }

  /** The displayed form of a hash reads back as that hash. */
  lemma DisplayRoundTrip(h: Hash256)
    ensures Unhex(HexText(Reverse(h))) == Some(Reverse(h)) && Reverse(Reverse(h)) == h
  {
    UnhexHexText(Reverse(h));
    ReverseTwice(h);
  }
}

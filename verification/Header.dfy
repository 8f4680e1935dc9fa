/** The 80-byte block header: src/bitcoin/block_header.cpp. */
module Header {
  import opened Arith
  import opened Bytes
  import opened Wrappers

  const HEADER_SIZE: nat := 80
  const NONCE_OFFSET: nat := 76

  datatype BlockHeader = BlockHeader(
    version: Word, previousBlockHash: Hash256, merkleRoot: Hash256, timestamp: Word, bits: Word, nonce: Word)

  /** A 32-bit integer, least significant byte first. */
  function Le32(w: Word): (b: seq<Byte>)
    ensures |b| == 4
  {
    [w % 0x100, w / 0x100 % 0x100, w / 0x1_0000 % 0x100, w / 0x100_0000 % 0x100]
  }

  function ReadLe32(b: seq<Byte>): Word
    requires |b| == 4
  {
    (b[0] as int) + (b[1] as int) * 0x100 + (b[2] as int) * 0x1_0000 + (b[3] as int) * 0x100_0000
  }

  lemma Le32RoundTrip(w: Word, b: seq<Byte>)
    requires |b| == 4
    ensures ReadLe32(Le32(w)) == w && Le32(ReadLe32(b)) == b
  {
    FourDigits(w);
    DigitsOf(b[3], b[2], b[1], b[0]);
  }

  function Serialize(h: BlockHeader): (data: seq<Byte>)
    ensures |data| == HEADER_SIZE
  {
    Le32(h.version) + h.previousBlockHash + h.merkleRoot + Le32(h.timestamp) + Le32(h.bits) + Le32(h.nonce)
  }

  method WriteLE32(out: array<Byte>, at: nat, value: Word)
    requires at + 4 <= out.Length
    modifies out
    ensures out[..] == old(out[..at]) + Le32(value) + old(out[at + 4..])
  {
    out[at] := value % 0x100;
    out[at + 1] := value / 0x100 % 0x100;
    out[at + 2] := value / 0x1_0000 % 0x100;
    out[at + 3] := value / 0x100_0000 % 0x100;
  }

  method CopyInto(out: array<Byte>, at: nat, bytes: Hash256)
    requires at + 32 <= out.Length
    modifies out
    ensures out[..] == old(out[..at]) + bytes + old(out[at + 32..])
  {
    for i := 0 to 32
      invariant out[..at] == old(out[..at]) && out[at + 32..] == old(out[at + 32..])
      invariant out[at..at + i] == bytes[..i]
    {
      out[at + i] := bytes[i];
    }
    assert out[..] == out[..at] + out[at..at + 32] + out[at + 32..];
  }

  method SerializeInto(h: BlockHeader, out: array<Byte>)
    requires out.Length == HEADER_SIZE
    modifies out
    ensures out[..] == Serialize(h)
  {
    hide Le32;
    WriteLE32(out, 0, h.version);
    assert out[..4] == Le32(h.version);
    CopyInto(out, 4, h.previousBlockHash);
    assert out[..36] == Le32(h.version) + h.previousBlockHash;
    CopyInto(out, 36, h.merkleRoot);
    assert out[..68] == Le32(h.version) + h.previousBlockHash + h.merkleRoot;
    WriteLE32(out, 68, h.timestamp);
    assert out[..72] == Le32(h.version) + h.previousBlockHash + h.merkleRoot + Le32(h.timestamp);
    WriteLE32(out, 72, h.bits);
    assert out[..76] == Le32(h.version) + h.previousBlockHash + h.merkleRoot + Le32(h.timestamp) + Le32(h.bits);
    WriteLE32(out, 76, h.nonce);
  }

  /** A header with another nonce in its last four bytes. */
  function WithNonce(header: seq<Byte>, nonce: Word): (data: seq<Byte>)
    requires |header| == HEADER_SIZE
    ensures |data| == HEADER_SIZE
  {
    header[..NONCE_OFFSET] + Le32(nonce)
  }

  method SetHeaderNonce(header: array<Byte>, nonce: Word)
    requires header.Length == HEADER_SIZE
    modifies header
    ensures header[..] == WithNonce(old(header[..]), nonce)
  {
    WriteLE32(header, NONCE_OFFSET, nonce);
  }

  method Deserialize(data: seq<Byte>) returns (h: Option<BlockHeader>)
    ensures h.Some? <==> |data| == HEADER_SIZE
    ensures h.Some? ==> Serialize(h.value) == data
  {
    if |data| != HEADER_SIZE { return None; }
    var header := BlockHeader(ReadLe32(data[0..4]), data[4..36], data[36..68], ReadLe32(data[68..72]), ReadLe32(data[72..76]),
                              ReadLe32(data[76..80]));
    Le32RoundTrip(0, data[0..4]);
    Le32RoundTrip(0, data[68..72]);
    Le32RoundTrip(0, data[72..76]);
    Le32RoundTrip(0, data[76..80]);
    h := Some(header);
  }

  /** The layout is unambiguous, so Deserialize undoes Serialize. */
  lemma SerializeInjective(a: BlockHeader, b: BlockHeader)
    requires Serialize(a) == Serialize(b)
    ensures a == b
  {
    Pieces(a);
    Pieces(b);
    Le32RoundTrip(a.version, Le32(0));
    Le32RoundTrip(b.version, Le32(0));
    Le32RoundTrip(a.timestamp, Le32(0));
    Le32RoundTrip(b.timestamp, Le32(0));
    Le32RoundTrip(a.bits, Le32(0));
    Le32RoundTrip(b.bits, Le32(0));
    Le32RoundTrip(a.nonce, Le32(0));
    Le32RoundTrip(b.nonce, Le32(0));
  }

  lemma Pieces(h: BlockHeader)
    ensures var d := Serialize(h);
      && d[0..4] == Le32(h.version) && d[4..36] == h.previousBlockHash && d[36..68] == h.merkleRoot
      && d[68..72] == Le32(h.timestamp) && d[72..76] == Le32(h.bits) && d[76..80] == Le32(h.nonce)
  {
  }

  /** Patching the nonce of a serialized header serializes the header with that nonce. */
  lemma PatchedNonce(h: BlockHeader, nonce: Word)
    ensures WithNonce(Serialize(h), nonce) == Serialize(h.(nonce := nonce))
  {
  }
}

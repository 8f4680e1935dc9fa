/**
 * The self-test of src/mining/miner.cpp: the genesis block's hash, from the header's fields to the text shown to people.
 * Here the hash is SHA-256d itself.
 */
module Genesis {
  import opened Arith
  import opened Bytes
  import opened Chars
  import opened Hex
  import opened HashCodec
  import opened Header
  import opened Uint256
  import opened Uint256Hash
  import opened CompactBits
  import opened Work
  import opened CpuMiner
  import Spec = Sha256Spec
  import Cuda = CudaSha256
  import Sha = Sha256
  import Rounds = GenesisRounds
  import ShareDifficulty

  function ToBits(data: seq<Byte>): (bits: seq<bv8>)
    ensures |bits| == |data|
  {
    seq(|data|, i requires 0 <= i < |data| => data[i] as bv8)
  }

  function ToBytes(bits: seq<bv8>): (data: seq<Byte>)
    ensures |data| == |bits|
  {
    seq(|bits|, i requires 0 <= i < |bits| => bits[i] as int)
  }

  /** SHA-256d of fewer than 2^61 bytes. */
  function DoubleSha256(data: seq<Byte>): Hash256 {
    if |data| < 0x2000_0000_0000_0000 then ToBytes(Spec.Sha256d(ToBits(data))) else ZeroHash()
  }

  const MERKLE_ROOT: Hash256 := [
    0x3b, 0xa3, 0xed, 0xfd, 0x7a, 0x7b, 0x12, 0xb2, 0x7a, 0xc7, 0x2c, 0x3e, 0x67, 0x76, 0x8f, 0x61]
    + [0x7f, 0xc8, 0x1b, 0xc3, 0x88, 0x8a, 0x51, 0x32, 0x3a, 0x9f, 0xb8, 0xaa, 0x4b, 0x1e, 0x5e, 0x4a]

  const GENESIS: BlockHeader := BlockHeader(1, ZeroHash(), MERKLE_ROOT, 1231006505, 0x1d00ffff, 2083236893)

  /** The bytes of the genesis header, field by field. */
  lemma HeaderParts()
    ensures var h := Serialize(GENESIS);
      && h[..36] == [1, 0, 0, 0] + ZeroHash() && h[36..68] == MERKLE_ROOT
      && h[68..] == [0x29, 0xab, 0x5f, 0x49, 0xff, 0xff, 0x00, 0x1d, 0x1d, 0xac, 0x2b, 0x7c]
  {
    hide Serialize, Le32, MERKLE_ROOT;
    Pieces(GENESIS);
    NumberBytes();
    Joined(Serialize(GENESIS));
  }

  lemma NumberBytes()
    ensures Le32(1) == [1, 0, 0, 0] && Le32(1231006505) == [0x29, 0xab, 0x5f, 0x49]
    ensures Le32(0x1d00ffff) == [0xff, 0xff, 0x00, 0x1d] && Le32(2083236893) == [0x1d, 0xac, 0x2b, 0x7c]
  {
  }

  lemma Joined(h: seq<Byte>)
    requires |h| == HEADER_SIZE
    ensures h[..36] == h[0..4] + h[4..36] && h[68..] == h[68..72] + h[72..76] + h[76..80]
  {
  }

  /** Four bytes as a word. */
  lemma WordIs(h: seq<Byte>, i: nat, b3: bv8, b2: bv8, b1: bv8, b0: bv8)
    requires 4 * i + 4 <= |h| && h[4 * i] == b3 as int && h[4 * i + 1] == b2 as int
    requires h[4 * i + 2] == b1 as int && h[4 * i + 3] == b0 as int
    ensures WordAt(h, i) == Spec.ReadBE32([b3, b2, b1, b0])
  {
    assert ToBits(h)[4 * i..4 * i + 4] == [b3, b2, b1, b0];
  }

  function WordAt(h: seq<Byte>, i: nat): bv32
    requires 4 * i + 4 <= |h|
  {
    Spec.ReadBE32(ToBits(h)[4 * i..4 * i + 4])
  }

  lemma HeadIs()
    ensures Rounds.HeadWords1(Spec.WordsOf(ToBits(Serialize(GENESIS))[..64]))
  {
    var h := Serialize(GENESIS);
    HeaderParts();
    hide Serialize, ToBits, MERKLE_ROOT, Spec.ReadBE32;
    FrontIs(h);
    BackIs(h);
    EndIs(h);
    forall i | 0 <= i < 16 ensures Spec.WordsOf(ToBits(h)[..64])[i] == WordAt(h, i) {
      assert ToBits(h)[..64][4 * i..4 * i + 4] == ToBits(h)[4 * i..4 * i + 4];
    }
  }

  lemma FrontIs(h: seq<Byte>)
    requires |h| == HEADER_SIZE && h[..36] == [1, 0, 0, 0] + ZeroHash()
    ensures WordAt(h, 0) == 0x01000000 && forall i :: 1 <= i < 9 ==> WordAt(h, i) == 0
  {
    hide ToBits;
    assert forall k :: 0 <= k < 36 ==> h[k] == h[..36][k];
    WordIs(h, 0, 1, 0, 0, 0);
    forall i | 1 <= i < 9 ensures WordAt(h, i) == 0 {
      WordIs(h, i, 0, 0, 0, 0);
    }
  }

  lemma BackIs(h: seq<Byte>)
    requires |h| == HEADER_SIZE && h[36..68] == MERKLE_ROOT
    ensures WordAt(h, 9) == 0x3ba3edfd && WordAt(h, 10) == 0x7a7b12b2 && WordAt(h, 11) == 0x7ac72c3e
    ensures WordAt(h, 12) == 0x67768f61
  {
    hide ToBits;
    assert h[36..52] == MERKLE_ROOT[..16];
    WordIs(h, 9, 0x3b, 0xa3, 0xed, 0xfd);
    WordIs(h, 10, 0x7a, 0x7b, 0x12, 0xb2);
    WordIs(h, 11, 0x7a, 0xc7, 0x2c, 0x3e);
    WordIs(h, 12, 0x67, 0x76, 0x8f, 0x61);
  }

  lemma EndIs(h: seq<Byte>)
    requires |h| == HEADER_SIZE && h[36..68] == MERKLE_ROOT
    ensures WordAt(h, 13) == 0x7fc81bc3 && WordAt(h, 14) == 0x888a5132 && WordAt(h, 15) == 0x3a9fb8aa
  {
    hide ToBits;
    assert h[52..68] == MERKLE_ROOT[16..];
    WordIs(h, 13, 0x7f, 0xc8, 0x1b, 0xc3);
    WordIs(h, 14, 0x88, 0x8a, 0x51, 0x32);
    WordIs(h, 15, 0x3a, 0x9f, 0xb8, 0xaa);
  }

  lemma TailIs()
    ensures Rounds.TailWords1(Cuda.PaddedWords(Cuda.TailWords(ToBits(Serialize(GENESIS))[64..], 4), 640))
  {
    var h := Serialize(GENESIS);
    HeaderParts();
    hide Serialize, ToBits;
    WordIs(h, 16, 0x4b, 0x1e, 0x5e, 0x4a);
    WordIs(h, 17, 0x29, 0xab, 0x5f, 0x49);
    WordIs(h, 18, 0xff, 0xff, 0x00, 0x1d);
    WordIs(h, 19, 0x1d, 0xac, 0x2b, 0x7c);
    forall i: nat | i < 4 ensures ToBits(h)[64..][4 * i..4 * i + 4] == ToBits(h)[64 + 4 * i..68 + 4 * i] {
      TailPart(ToBits(h), i);
    }
  }

  lemma TailPart(bits: seq<bv8>, i: nat)
    requires |bits| == HEADER_SIZE && i < 4
    ensures bits[64..][4 * i..4 * i + 4] == bits[64 + 4 * i..68 + 4 * i]
  {
  }

  lemma OuterIs()
    ensures Rounds.OuterWords1(Cuda.PaddedWords(Rounds.INNER, 256))
  {
  }

  // ---- The hash ----------------------------------------------------------

  /** The hash in internal byte order. */
  const HASH: Hash256 := [
    0x6f, 0xe2, 0x8c, 0x0a, 0xb6, 0xf1, 0xb3, 0x72, 0xc1, 0xa6, 0xa2, 0x46, 0xae, 0x63, 0xf7, 0x4f]
    + [0x93, 0x1e, 0x83, 0x65, 0xe1, 0x5a, 0x08, 0x9c, 0x68, 0xd6, 0x19, 0x00, 0x00, 0x00, 0x00, 0x00]

  lemma DigestIs()
    ensures Spec.Sha256d(ToBits(Serialize(GENESIS))) == Spec.Digest(Rounds.OUTER)
  {
    hide Serialize, ToBits, Spec.Compress, Spec.Sha256, Spec.WordsOf, Spec.Digest;
    hide Cuda.PaddedWords, Cuda.TailWords, Rounds.HeadWords1, Rounds.TailWords1, Rounds.OuterWords1;
    var h := ToBits(Serialize(GENESIS));
    HeadIs();
    TailIs();
    OuterIs();
    Rounds.HeadBlock(Spec.WordsOf(h[..64]));
    Rounds.TailBlock(Cuda.PaddedWords(Cuda.TailWords(h[64..], 4), 640));
    Rounds.OuterBlock(Cuda.PaddedWords(Rounds.INNER, 256));
    Cuda.HeaderDigest(h);
    Cuda.DigestOfState(Rounds.INNER);
  }

  lemma DigestBytes()
    ensures ToBytes(Spec.Digest(Rounds.OUTER)) == HASH
  {
    FirstBytes(Rounds.OUTER);
    LastBytes(Rounds.OUTER);
  }

  lemma FirstBytes(s: Spec.State)
    requires s[0] == 0x6fe28c0a && s[1] == 0xb6f1b372 && s[2] == 0xc1a6a246 && s[3] == 0xae63f74f
    ensures ToBytes(Spec.DigestWords(s, 4)) == HASH[..16]
  {
    hide Spec.DigestWords, ToBytes;
    NoBytes(s);
    FourBytes(s, 0, 0x6f, 0xe2, 0x8c, 0x0a);
    FourBytes(s, 1, 0xb6, 0xf1, 0xb3, 0x72);
    FourBytes(s, 2, 0xc1, 0xa6, 0xa2, 0x46);
    FourBytes(s, 3, 0xae, 0x63, 0xf7, 0x4f);
  }

  lemma LastBytes(s: Spec.State)
    requires s[4] == 0x931e8365 && s[5] == 0xe15a089c && s[6] == 0x68d61900 && s[7] == 0
    ensures ToBytes(Spec.DigestWords(s, 8)) == ToBytes(Spec.DigestWords(s, 4)) + HASH[16..]
  {
    hide Spec.DigestWords, ToBytes;
    FourBytes(s, 4, 0x93, 0x1e, 0x83, 0x65);
    FourBytes(s, 5, 0xe1, 0x5a, 0x08, 0x9c);
    FourBytes(s, 6, 0x68, 0xd6, 0x19, 0x00);
    FourBytes(s, 7, 0x00, 0x00, 0x00, 0x00);
  }

  lemma NoBytes(s: Spec.State)
    ensures ToBytes(Spec.DigestWords(s, 0)) == []
  {
  }

  lemma FourBytes(s: Spec.State, n: nat, b3: bv8, b2: bv8, b1: bv8, b0: bv8)
    requires n < 8 && Spec.WriteBE32(s[n]) == [b3, b2, b1, b0]
    ensures ToBytes(Spec.DigestWords(s, n + 1))
      == ToBytes(Spec.DigestWords(s, n)) + [b3 as int, b2 as int, b1 as int, b0 as int]
  {
    hide Spec.WriteBE32;
  }

  /** The hash of the genesis header, computed by the standard's own definition. */
  lemma HashIs()
    ensures DoubleSha256(Serialize(GENESIS)) == HASH
  {
    hide Serialize, Spec.Sha256d, Spec.Digest, ToBits, ToBytes;
    DigestIs();
    DigestBytes();
  }

  // ---- What is shown -----------------------------------------------------

  const SHOWN_HASH: string :=
    "00000000" + "0019d668" + "9c085ae1" + "65831e93"
    + "4ff763ae" + "46a2a6c1" + "72b3f1b6" + "0a8ce26f"
  const SHOWN_ROOT: string :=
    "4a5e1e4b" + "aab89f3a" + "32518a88" + "c31bc87f"
    + "618f7667" + "3e2cc77a" + "b2127b7a" + "fdeda33b"
  const SHOWN_ZERO: string := seq(64, _ => '0')

  lemma EightTexts(h: Hash256)
    ensures HexText(h) == HexText(h[0..4]) + HexText(h[4..8]) + HexText(h[8..12]) + HexText(h[12..16])
      + HexText(h[16..20]) + HexText(h[20..24]) + HexText(h[24..28]) + HexText(h[28..32])
  {
    hide HexText;
    assert h[0..4] == h[..4] && h[..32] == h;
    OneMoreText(h, 4);
    OneMoreText(h, 8);
    OneMoreText(h, 12);
    OneMoreText(h, 16);
    OneMoreText(h, 20);
    OneMoreText(h, 24);
    OneMoreText(h, 28);
  }

  lemma OneMoreText(h: Hash256, k: nat)
    requires k + 4 <= 32
    ensures HexText(h[..k + 4]) == HexText(h[..k]) + HexText(h[k..k + 4])
  {
    HexTextConcat(h[..k], h[k..k + 4]);
    assert h[..k] + h[k..k + 4] == h[..k + 4];
  }

  /** Four bytes of a hash as they are shown: from the far end, and backwards. */
  lemma ShownText(h: Hash256, i: nat, b3: Byte, b2: Byte, b1: Byte, b0: Byte)
    requires i < 8 && h[31 - 4 * i] == b3 && h[30 - 4 * i] == b2 && h[29 - 4 * i] == b1 && h[28 - 4 * i] == b0
    ensures HexText(Reverse(h)[4 * i..4 * i + 4]) == [
      HexChar(b3 / 16), HexChar(b3 % 16), HexChar(b2 / 16), HexChar(b2 % 16),
      HexChar(b1 / 16), HexChar(b1 % 16), HexChar(b0 / 16), HexChar(b0 % 16)]
  {
    assert Reverse(h)[4 * i..4 * i + 4] == [b3, b2, b1, b0];
    assert HexText([b1, b0]) == ByteText(b1) + HexText([b0]) && HexText([b0]) == ByteText(b0) + HexText([]);
    assert HexText([b3, b2, b1, b0]) == ByteText(b3) + HexText([b2, b1, b0]);
    assert HexText([b2, b1, b0]) == ByteText(b2) + HexText([b1, b0]);
  }

  lemma HashText1(h: Hash256)
    requires h == HASH
    ensures HexText(Reverse(h)[0..4]) == "00000000"
    ensures HexText(Reverse(h)[4..8]) == "0019d668"
  {
    hide Reverse, HexText;
    ShownText(h, 0, 0x00, 0x00, 0x00, 0x00);
    ShownText(h, 1, 0x00, 0x19, 0xd6, 0x68);
  }

  lemma HashText2(h: Hash256)
    requires h == HASH
    ensures HexText(Reverse(h)[8..12]) == "9c085ae1"
    ensures HexText(Reverse(h)[12..16]) == "65831e93"
  {
    hide Reverse, HexText;
    ShownText(h, 2, 0x9c, 0x08, 0x5a, 0xe1);
    ShownText(h, 3, 0x65, 0x83, 0x1e, 0x93);
  }

  lemma HashText3(h: Hash256)
    requires h == HASH
    ensures HexText(Reverse(h)[16..20]) == "4ff763ae"
    ensures HexText(Reverse(h)[20..24]) == "46a2a6c1"
  {
    hide Reverse, HexText;
    ShownText(h, 4, 0x4f, 0xf7, 0x63, 0xae);
    ShownText(h, 5, 0x46, 0xa2, 0xa6, 0xc1);
  }

  lemma HashText4(h: Hash256)
    requires h == HASH
    ensures HexText(Reverse(h)[24..28]) == "72b3f1b6"
    ensures HexText(Reverse(h)[28..32]) == "0a8ce26f"
  {
    hide Reverse, HexText;
    ShownText(h, 6, 0x72, 0xb3, 0xf1, 0xb6);
    ShownText(h, 7, 0x0a, 0x8c, 0xe2, 0x6f);
  }

  lemma RootText1(h: Hash256)
    requires h == MERKLE_ROOT
    ensures HexText(Reverse(h)[0..4]) == "4a5e1e4b"
    ensures HexText(Reverse(h)[4..8]) == "aab89f3a"
  {
    hide Reverse, HexText;
    ShownText(h, 0, 0x4a, 0x5e, 0x1e, 0x4b);
    ShownText(h, 1, 0xaa, 0xb8, 0x9f, 0x3a);
  }

  lemma RootText2(h: Hash256)
    requires h == MERKLE_ROOT
    ensures HexText(Reverse(h)[8..12]) == "32518a88"
    ensures HexText(Reverse(h)[12..16]) == "c31bc87f"
  {
    hide Reverse, HexText;
    ShownText(h, 2, 0x32, 0x51, 0x8a, 0x88);
    ShownText(h, 3, 0xc3, 0x1b, 0xc8, 0x7f);
  }

  lemma RootText3(h: Hash256)
    requires h == MERKLE_ROOT
    ensures HexText(Reverse(h)[16..20]) == "618f7667"
    ensures HexText(Reverse(h)[20..24]) == "3e2cc77a"
  {
    hide Reverse, HexText;
    ShownText(h, 4, 0x61, 0x8f, 0x76, 0x67);
    ShownText(h, 5, 0x3e, 0x2c, 0xc7, 0x7a);
  }

  lemma RootText4(h: Hash256)
    requires h == MERKLE_ROOT
    ensures HexText(Reverse(h)[24..28]) == "b2127b7a"
    ensures HexText(Reverse(h)[28..32]) == "fdeda33b"
  {
    hide Reverse, HexText;
    ShownText(h, 6, 0xb2, 0x12, 0x7b, 0x7a);
    ShownText(h, 7, 0xfd, 0xed, 0xa3, 0x3b);
  }

  /** The hash and the Merkle root as people write them. */
  lemma AreShown()
    ensures HexText(Reverse(HASH)) == SHOWN_HASH && HexText(Reverse(MERKLE_ROOT)) == SHOWN_ROOT
  {
    hide HexText, Reverse, HASH, MERKLE_ROOT;
    EightTexts(Reverse(HASH));
    HashText1(HASH);
    HashText2(HASH);
    HashText3(HASH);
    HashText4(HASH);
    EightTexts(Reverse(MERKLE_ROOT));
    RootText1(MERKLE_ROOT);
    RootText2(MERKLE_ROOT);
    RootText3(MERKLE_ROOT);
    RootText4(MERKLE_ROOT);
  }

  lemma ZeroIsShown()
    ensures HexText(ZeroHash()) == SHOWN_ZERO && Reverse(ZeroHash()) == ZeroHash()
  {
    ZerosText(32);
  }

  lemma {:induction false} ZerosText(n: nat)
    ensures HexText(seq(n, _ => 0)) == seq(2 * n, _ => '0')
  {
    if n > 0 {
      var zeros: seq<Byte> := seq(n, _ => 0);
      assert zeros[1..] == seq(n - 1, _ => 0);
      ZerosText(n - 1);
    }
  }

  // ---- The target --------------------------------------------------------

  /** The hash is below the target of its own header, which is the target of difficulty one. */
  lemma MeetsOwnTarget()
    ensures ShareDifficulty.Meets(LeValue(HASH), NetworkTarget(GENESIS.bits))
    ensures NetworkTarget(GENESIS.bits) == ShareDifficulty.ShareTarget(ShareDifficulty.Finite(1.0))
  {
    hide Pow2, LeValue, NetworkTarget, HASH;
    ShareDifficulty.UnitOfDifficulty();
    HighBytes();
    LeConcat(HASH[..27], [0x00, 0x00, 0x00, 0x00, 0x00]);
    LeBound(HASH[..27]);
    Pow2Add(208, 8);
    Pow2Of8();
    ZeroBytes();
  }

  lemma HighBytes()
    ensures HASH == HASH[..27] + [0x00, 0x00, 0x00, 0x00, 0x00]
  {
  }

  lemma ZeroBytes()
    ensures LeValue([0x00, 0x00, 0x00, 0x00, 0x00]) == 0
  {
  }

  lemma Pow2Of8()
    ensures Pow2(8) == 256
  {
  }

  // ---- The self-test -----------------------------------------------------

  /** Its first part: the genesis header, filled in from text, has the hash that everybody knows. */
  method SelfTest() returns (pass: bool)
    ensures pass
  {
    hide HexText, Reverse, HASH, MERKLE_ROOT, Serialize, Spec.Sha256d;
    AreShown();
    HashIs();
    UnhexHexText(Reverse(MERKLE_ROOT));
    UnhexHexText(ZeroHash());
    ZeroIsShown();
    var _, previous := FromDisplayHex(SHOWN_ZERO);
    var _, root := FromDisplayHex(SHOWN_ROOT);
    ReverseTwice(root);
    ReverseTwice(MERKLE_ROOT);
    ReverseTwice(previous);
    var header := BlockHeader(1, previous, root, 1231006505, 0x1d00ffff, 2083236893);
    var bytes: array<Byte> := new Byte[HEADER_SIZE](_ => 0);
    SerializeInto(header, bytes);
    var digest := Sha.DoubleDigestOf(ToBits(bytes[..]));
    var text := ToDisplayHex(ToBytes(digest));
    pass := text == SHOWN_HASH;
  }

  /** The genesis header with this nonce meets its target. */
  ghost predicate GenesisWins(nonce: Word) {
    ShareDifficulty.Meets(LeValue(DoubleSha256(Serialize(GENESIS.(nonce := nonce)))), NetworkTarget(0x1d00ffff))
  }

  /**
   * Its second part: the search from 50000 nonces below the known one finds a winner, at the latest the known nonce
   * itself, and so passes exactly when none of those below it wins.
   */
  method SelfTestSearch() returns (result: MiningResult, pass: bool)
    ensures result.found && 0 < result.hashesPerformed <= 50001 && result.nonce == 2083186892 + result.hashesPerformed
    ensures GenesisWins(result.nonce)
    ensures pass <==> forall nonce: Word :: 2083186893 <= nonce < 2083236893 ==> !GenesisWins(nonce)
  {
    hide Serialize, DoubleSha256, LeValue, NetworkTarget, HASH, Value, GenesisWins, Wins, HashOf, HashAt, Scan, EmptyWork;
    var header := GENESIS.(nonce := 0);
    var bytes: array<Byte> := new Byte[HEADER_SIZE](_ => 0);
    SerializeInto(header, bytes);
    var target := TargetFromCompactBits(0x1d00ffff);
    var work := EmptyWork("selftest", []).(header := header, headerBytes := bytes[..], networkTarget := target,
                                           shareTarget := target, valid := true);
    forall nonce: Word ensures Wins(DoubleSha256, work, nonce) <==> GenesisWins(nonce) {
      WinsIsGenesis(work, nonce);
    }
    KnownNonceWins();
    var start: Word := 2083236893 - 50000;
    assert NonceAt(start, 50000) == 2083236893;
    ghost var hashed;
    result, hashed := Mine(DoubleSha256, work, start, 100000, _ => false);
    pass := result.found && result.nonce == 2083236893;
    assert result.nonce == NonceAt(start, result.hashesPerformed - 1) && GenesisWins(result.nonce);
    forall nonce: Word | 2083186893 <= nonce < 2083236893 && pass ensures !GenesisWins(nonce) {
      assert NonceAt(start, nonce - start) == nonce;
    }
  }

  lemma WinsIsGenesis(work: MiningWork, nonce: Word)
    requires work.headerBytes == Serialize(GENESIS.(nonce := 0))
    requires Value(work.shareTarget) == NetworkTarget(0x1d00ffff)
    ensures Wins(DoubleSha256, work, nonce) <==> GenesisWins(nonce)
  {
    hide Serialize, DoubleSha256, LeValue, NetworkTarget, Value;
    PatchedNonce(GENESIS.(nonce := 0), nonce);
  }

  lemma KnownNonceWins()
    ensures GenesisWins(2083236893)
  {
    hide Serialize, DoubleSha256, LeValue, NetworkTarget, HASH;
    HashIs();
    MeetsOwnTarget();
    assert GENESIS.(nonce := 2083236893) == GENESIS;
  }
}

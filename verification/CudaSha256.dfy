/** The device-side SHA-256d of src/cuda/cuda_backend.cu, whose padding is written out as constants. */
module CudaSha256 {
  import opened Spec = Sha256Spec

  /** One compression over a 16-word message block, in place. */
  method Sha256Compress(state: array<bv32>, block: array<bv32>)
    requires state.Length == 8 && block.Length == 16
    modifies state
    ensures state[..] == Compress(old(state[..]), block[..])
  {
    var w := ExpandWords(block);
    var a, b, c, d := state[0], state[1], state[2], state[3];
    var e, f, g, h := state[4], state[5], state[6], state[7];
    ghost var s0, schedule := state[..], w[..];
    for i := 0 to 64
      invariant Vars(a, b, c, d, e, f, g, h) == Rounds(s0, schedule, i)
    {
      var t1 := Temp1(e, f, g, h, ROUND_CONSTANTS[i], w[i]);
      var t2 := Temp2(a, b, c);
      h, g, f, e := g, f, e, Add(d, t1);
      d, c, b, a := c, b, a, Add(t1, t2);
    }
    AddToState(state, a, b, c, d, e, f, g, h);
  }

  method AddToState(state: array<bv32>, a: bv32, b: bv32, c: bv32, d: bv32, e: bv32, f: bv32, g: bv32, h: bv32)
    requires state.Length == 8
    modifies state
    ensures state[..] == AddState(old(state[..]), Vars(a, b, c, d, e, f, g, h))
  {
    hide Add;
    var v := [a, b, c, d, e, f, g, h];
    for i := 0 to 8
      invariant forall j :: 0 <= j < 8 ==> state[j] == if j < i then Add(old(state[j]), v[j]) else old(state[j])
    {
      state[i] := Add(state[i], v[i]);
    }
  }

  method ExpandWords(block: array<bv32>) returns (w: array<bv32>)
    requires block.Length == 16
    ensures fresh(w) && w[..] == Schedule(block[..], 64)
  {
    hide Schedule, NextWord;
    w := new bv32[64];
    for i := 0 to 16
      invariant forall k :: 0 <= k < i ==> w[k] == block[k]
    {
      w[i] := block[i];
    }
    ghost var m: Block := block[..];
    ScheduleStep(m, 16);
    ghost var sch := Schedule(m, 16);
    for i := 16 to 64
      invariant block[..] == m && sch == Schedule(m, i)
      invariant forall k :: 0 <= k < i ==> w[k] == sch[k]
    {
      ScheduleStep(m, i);
      w[i] := NextWord(w[i - 2], w[i - 7], w[i - 15], w[i - 16]);
      sch := sch + [w[i]];
    }
    assert w[..] == sch;
  }

  method InitState(state: array<bv32>)
    requires state.Length == 8
    modifies state
    ensures state[..] == INITIAL
  {
    state[0], state[1], state[2], state[3] := 0x6a09e667, 0xbb67ae85, 0x3c6ef372, 0xa54ff53a;
    state[4], state[5], state[6], state[7] := 0x510e527f, 0x9b05688c, 0x1f83d9ab, 0x5be0cd19;
  }

  /** The hard-wired padding: a one bit, zeros, and the length in bits in the last word. */
  method PadWords(block: array<bv32>, from: nat, bits: bv32)
    requires block.Length == 16 && from < 15
    modifies block
    ensures block[..] == PaddedWords(old(block[..from]), bits)
  {
    block[from] := 0x8000_0000;
    for i := from + 1 to 15
      invariant forall k :: 0 <= k < from ==> block[k] == old(block[k])
      invariant block[from] == 0x8000_0000
      invariant forall k :: from < k < i ==> block[k] == 0
    {
      block[i] := 0;
    }
    block[15] := bits;
  }

  ghost function PaddedWords(words: seq<bv32>, bits: bv32): Block
    requires |words| < 15
  {
    words + [0x8000_0000] + seq(14 - |words|, _ => 0) + [bits]
  }

  /** SHA-256d of an 80-byte header in three compressions. */
  method Sha256dHeader(header: seq<bv8>) returns (out: Digest256)
    requires |header| == 80
    ensures out == Sha256d(header)
  {
    var state := new bv32[8];
    var block := new bv32[16];
    FirstHash(header, state, block);
    SecondHash(state, block);
    out := StoreWords(state[..]);
  }

  /** The two compressions over the header and its padding. */
  method FirstHash(header: seq<bv8>, state: array<bv32>, block: array<bv32>)
    requires |header| == 80 && state.Length == 8 && block.Length == 16
    modifies state, block
    ensures Digest(state[..]) == Sha256(header)
  {
    hide Compress, PaddedWords, Sha256, Digest, ReadBE32;
    InitState(state);
    LoadWords(block, header[..64], 16);
    assert block[..] == WordsOf(header[..64]);
    hide WordsOf;
    Sha256Compress(state, block);

    LoadWords(block, header[64..], 4);
    assert block[..4] == TailWords(header[64..], 4);
    PadWords(block, 4, 640);
    Sha256Compress(state, block);
    HeaderDigest(header);
  }

  /** The compression over the 32-byte digest and its padding. */
  method SecondHash(state: array<bv32>, block: array<bv32>)
    requires state.Length == 8 && block.Length == 16
    modifies state, block
    ensures Digest(state[..]) == Sha256(Digest(old(state[..])))
  {
    var inner := state[..];
    InitState(state);
    CopyWords(block, inner);
    PadWords(block, 8, 256);
    Sha256Compress(state, block);
    DigestOfState(inner);
  }

  method CopyWords(block: array<bv32>, inner: State)
    requires block.Length == 16
    modifies block
    ensures block[..8] == inner
  {
    for i := 0 to 8
      invariant block[..i] == inner[..i]
    {
      block[i] := inner[i];
    }
  }

  /** The first k big-endian words of tail. */
  ghost function TailWords(tail: seq<bv8>, k: nat): (words: seq<bv32>)
    requires |tail| == 4 * k
    ensures |words| == k
  {
    seq(k, i requires 0 <= i < k => ReadBE32(tail[4 * i..4 * i + 4]))
  }

  /** A last block: k whole words of message, then padding, then a length below 2^16 bits. */
  lemma PaddedBlockWords(tail: seq<bv8>, k: nat, b1: bv8, b0: bv8, bits: bv32)
    requires |tail| == 4 * k && k < 14 && ReadBE32([0, 0, b1, b0]) == bits
    ensures WordsOf(tail + ([0x80] + (Zeros(55 - 4 * k) + (Zeros(6) + [b1, b0])))) == PaddedWords(TailWords(tail, k), bits)
  {
    hide ReadBE32;
    var block := tail + ([0x80] + (Zeros(55 - 4 * k) + (Zeros(6) + [b1, b0])));
    PaddingWords();
    forall i | 0 <= i < 16 ensures WordsOf(block)[i] == PaddedWords(TailWords(tail, k), bits)[i] {
      PaddedBlockWord(tail, k, b1, b0, i);
    }
  }

  /** The i-th word's bytes. */
  lemma PaddedBlockWord(tail: seq<bv8>, k: nat, b1: bv8, b0: bv8, i: nat)
    requires |tail| == 4 * k && k < 14 && i < 16
    ensures var block := tail + ([0x80] + (Zeros(55 - 4 * k) + (Zeros(6) + [b1, b0])));
      block[4 * i..4 * i + 4] == if i < k then tail[4 * i..4 * i + 4] else if i == k then [0x80, 0, 0, 0]
        else if i < 15 then [0, 0, 0, 0] else [0, 0, b1, b0]
  {
  }

  lemma HeaderDigest(header: seq<bv8>)
    requires |header| == 80
    ensures Sha256(header) == Digest(
      Compress(Compress(INITIAL, WordsOf(header[..64])), PaddedWords(TailWords(header[64..], 4), 640)))
  {
    BitLengths();
    PaddingWords();
    var p := Pad(header);
    var tail := header[64..];
    var padding := [0x80] + (Zeros(39) + (Zeros(6) + [2, 0x80]));
    assert p == header + padding;
    assert p[64 * 1..64 * 2] == tail + padding;
    PaddedBlockWords(tail, 4, 2, 0x80, 640);
    assert p[64 * 0..64 * 1] == header[..64];
    TwoBlocks(p);
  }

  lemma TwoBlocks(p: seq<bv8>)
    requires |p| == 128
    ensures Absorb(p, 2) == Compress(Compress(INITIAL, WordsOf(p[64 * 0..64 * 1])), WordsOf(p[64 * 1..64 * 2]))
  {
    assert Absorb(p, 1) == Compress(Absorb(p, 0), WordsOf(p[64 * 0..64 * 1]));
  }

  lemma DigestOfState(s: State)
    ensures Sha256(Digest(s)) == Digest(Compress(INITIAL, PaddedWords(s, 256)))
  {
    var d := Digest(s);
    forall i | 0 <= i < 8 ensures TailWords(d, 8)[i] == s[i] { DigestReads(s, 8, i); }
    assert TailWords(d, 8) == s;
    ShortDigest(d);
  }

  lemma ShortDigest(d: Digest256)
    ensures Sha256(d) == Digest(Compress(INITIAL, PaddedWords(TailWords(d, 8), 256)))
  {
    BitLengths();
    PaddingWords();
    var p := Pad(d);
    var padding := [0x80] + (Zeros(23) + (Zeros(6) + [1, 0]));
    assert p == d + padding;
    assert p[64 * 0..64 * 1] == d + padding;
    PaddedBlockWords(d, 8, 1, 0, 256);
    assert Absorb(p, 1) == Compress(Absorb(p, 0), WordsOf(p[64 * 0..64 * 1]));
  }

  /** Loads the first n big-endian words. */
  method LoadWords(block: array<bv32>, bytes: seq<bv8>, n: nat)
    requires block.Length == 16 && n <= 16 && |bytes| == 4 * n
    modifies block
    ensures forall k :: 0 <= k < n ==> block[k] == ReadBE32(bytes[4 * k..4 * k + 4])
  {
    for i := 0 to n
      invariant forall k :: 0 <= k < i ==> block[k] == ReadBE32(bytes[4 * k..4 * k + 4])
    {
      block[i] := ReadBE32(bytes[4 * i..4 * i + 4]);
    }
  }

  method StoreWords(state: State) returns (out: Digest256)
    ensures out == Digest(state)
  {
    var bytes: seq<bv8> := [];
    for i := 0 to 8
      invariant bytes == DigestWords(state, i)
    {
      bytes := bytes + WriteBE32(state[i]);
    }
    out := bytes;
  }

  /** The words of a digest are the words of the state it came from. */
  lemma {:induction false} DigestReads(s: State, n: nat, i: nat)
    requires i < n <= 8
    ensures ReadBE32(DigestWords(s, n)[4 * i..4 * i + 4]) == s[i]
  {
    var d := DigestWords(s, n - 1);
    if i == n - 1 {
      assert (d + WriteBE32(s[i]))[4 * i..4 * i + 4] == WriteBE32(s[i]);
      ReadWriteBE32(s[i]);
    } else {
      DigestReads(s, n - 1, i);
      assert (d + WriteBE32(s[n - 1]))[4 * i..4 * i + 4] == d[4 * i..4 * i + 4];
    }
  }

  lemma {:induction false} BigEndianZero(k: nat)
    ensures BigEndian(0, k) == Zeros(k)
  {
    if k > 0 { BigEndianZero(k - 1); }
  }

  lemma BitLengths()
    ensures BigEndian(640, 8) == Zeros(6) + [2, 0x80]
    ensures BigEndian(256, 8) == Zeros(6) + [1, 0]
  {
    BigEndianZero(6);
    assert ByteOf(128) == 0x80 && ByteOf(2) == 2 && ByteOf(1) == 1 && ByteOf(0) == 0;
    assert BigEndian(2, 7) == BigEndian(0, 6) + [ByteOf(2)];
    assert BigEndian(1, 7) == BigEndian(0, 6) + [ByteOf(1)];
  }

  lemma PaddingWords()
    ensures ReadBE32([0x80, 0, 0, 0]) == 0x8000_0000 && ReadBE32([0, 0, 0, 0]) == 0
    ensures ReadBE32([0, 0, 2, 0x80]) == 640 && ReadBE32([0, 0, 1, 0]) == 256
  {
  }
}

/** The streaming implementation of src/bitcoin/sha256.cpp, refining FIPS 180-4. */
module Sha256 {
  import opened Arith
  import opened Bytes
  import opened Spec = Sha256Spec

  /** Arithmetic on uint64_t. */
  function Wrap64(n: nat): nat { n % 0x1_0000_0000_0000_0000 }

  class SHA256 {
    const state: array<bv32>
    const buffer: array<bv8>
    var bitLength: nat
    var bufferLen: nat

    /** Every byte absorbed since the last reset, and the whole blocks among them. */
    ghost var message: seq<bv8>
    ghost var blocks: nat
    /** The hash values H(0), H(1), ..., H(blocks). */
    ghost var chain: seq<State>

    /** The message is the blocks behind state, then the buffer, then rest, which is still to be read. */
    ghost predicate Consistent(rest: seq<bv8>)
      reads this, state, buffer
    {
      && state.Length == 8 && buffer.Length == BLOCK_SIZE && bufferLen <= BLOCK_SIZE
      && IsChain(chain, message, blocks) && state[..] == chain[blocks]
      && |message| == BLOCK_SIZE * blocks + bufferLen + |rest|
      && message[BLOCK_SIZE * blocks..] == buffer[..bufferLen] + rest
    }

    /** state, buffer and bitLength represent exactly the bytes in message. */
    ghost predicate Valid()
      reads this, state, buffer
    {
      Consistent([]) && bufferLen < BLOCK_SIZE && bitLength == Wrap64(8 * |message|)
    }

    constructor ()
      ensures Valid() && message == []
      ensures fresh(state) && fresh(buffer)
    {
      state := new bv32[8];
      buffer := new bv8[BLOCK_SIZE];
      message := [];
      bitLength, bufferLen := 0, 0;
      new;
      Reset();
    }

    method Reset()
      requires state.Length == 8 && buffer.Length == BLOCK_SIZE
      modifies this, state, buffer
      ensures Valid() && message == []
    {
      state[0], state[1], state[2], state[3] := 0x6a09e667, 0xbb67ae85, 0x3c6ef372, 0xa54ff53a;
      state[4], state[5], state[6], state[7] := 0x510e527f, 0x9b05688c, 0x1f83d9ab, 0x5be0cd19;
      bitLength := 0;
      bufferLen := 0;
      forall i | 0 <= i < BLOCK_SIZE { buffer[i] := 0; }
      message, blocks, chain := [], 0, [INITIAL];
      assert state[..] == INITIAL;
    }

    method Transform(block: seq<bv8>)
      requires state.Length == 8 && |block| == BLOCK_SIZE
      modifies state
      ensures state[..] == Compress(old(state[..]), WordsOf(block))
    {
      var w := ExpandBlock(block);
      var a, b, c, d := state[0], state[1], state[2], state[3];
      var e, f, g, h := state[4], state[5], state[6], state[7];
      ghost var s0, schedule := state[..], w[..];
      for i := 0 to 64
        invariant Vars(a, b, c, d, e, f, g, h) == Rounds(s0, schedule, i)
      {
        var t1 := Temp1(e, f, g, h, ROUND_CONSTANTS[i], w[i]);
        var t2 := Temp2(a, b, c);
        h := g;
        g := f;
        f := e;
        e := Add(d, t1);
        d := c;
        c := b;
        b := a;
        a := Add(t1, t2);
      }
      AddToState(a, b, c, d, e, f, g, h);
    }

    method AddToState(a: bv32, b: bv32, c: bv32, d: bv32, e: bv32, f: bv32, g: bv32, h: bv32)
      requires state.Length == 8
      modifies state
      ensures state[..] == AddState(old(state[..]), Vars(a, b, c, d, e, f, g, h))
    {
      hide Add;
      var v := [a, b, c, d, e, f, g, h];
      for i := 0 to 8
        invariant forall j :: 0 <= j < 8 ==> state[j] == if j < i then Add(old(state[j]), v[j]) else old(state[j])
      {
        state[i] := Add(state[i], v[i]);
      }
    }

    /** Compresses the next whole block of the message. */
    method TransformNext(block: seq<bv8>)
      requires state.Length == 8
      requires BLOCK_SIZE * (blocks + 1) <= |message|
      requires block == message[BLOCK_SIZE * blocks..BLOCK_SIZE * (blocks + 1)]
      requires IsChain(chain, message, blocks) && state[..] == chain[blocks]
      modifies state, this`blocks, this`chain
      ensures blocks == old(blocks) + 1
      ensures IsChain(chain, message, blocks) && state[..] == chain[blocks]
    {
      Transform(block);
      ChainSnoc(chain, message, blocks, state[..]);
      blocks, chain := blocks + 1, chain + [state[..]];
    }

    /** Puts more bytes on the message, all of them still to be read. */
    ghost method Extend(data: seq<bv8>)
      requires Consistent([])
      modifies this`message
      ensures message == old(message) + data && Consistent(data)
    {
      ChainPrefix(chain, message, data, blocks);
      SliceAcross(message, data, BLOCK_SIZE * blocks);
      message := message + data;
    }

    /** A block read straight from the input. */
    method TransformInput(block: seq<bv8>, ghost rest: seq<bv8>)
      requires |block| == BLOCK_SIZE && bufferLen == 0 && Consistent(block + rest)
      modifies state, this`blocks, this`chain
      ensures Consistent(rest)
    {
      hide IsChain;
      assert block == (block + rest)[..BLOCK_SIZE] == message[BLOCK_SIZE * blocks..][..BLOCK_SIZE];
      assert rest == (block + rest)[BLOCK_SIZE..] == message[BLOCK_SIZE * blocks..][BLOCK_SIZE..];
      TransformNext(block);
    }

    /** Compresses a full buffer and empties it. */
    method TransformBuffer(ghost rest: seq<bv8>)
      requires bufferLen == BLOCK_SIZE && Consistent(rest)
      modifies this`bufferLen, state, this`blocks, this`chain
      ensures bufferLen == 0 && Consistent(rest)
    {
      hide IsChain;
      var block := buffer[..];
      assert block == (block + rest)[..BLOCK_SIZE] == message[BLOCK_SIZE * blocks..][..BLOCK_SIZE];
      assert rest == (block + rest)[BLOCK_SIZE..] == message[BLOCK_SIZE * blocks..][BLOCK_SIZE..];
      TransformNext(block);
      bufferLen := 0;
    }

    /** Appends data, the next bytes of the message, to the buffer. */
    method CopyToBuffer(data: seq<bv8>, ghost rest: seq<bv8>)
      requires bufferLen + |data| <= BLOCK_SIZE && Consistent(data + rest)
      modifies buffer, this`bufferLen
      ensures bufferLen == old(bufferLen) + |data| && Consistent(rest)
    {
      hide IsChain;
      forall i | 0 <= i < |data| { buffer[bufferLen + i] := data[i]; }
      bufferLen := bufferLen + |data|;
      assert buffer[..bufferLen] == old(buffer[..bufferLen]) + data;
    }

    method Update(data: seq<bv8>)
      requires Valid()
      modifies this, state, buffer
      ensures Valid() && message == old(message) + data
    {
      hide IsChain, Wrap64;
      bitLength := Wrap64(bitLength + 8 * |data|);
      Wrap64Add(8 * |message|, 8 * |data|);
      Extend(data);
      var pos := 0;

      if bufferLen > 0 {
        var need := BLOCK_SIZE - bufferLen;
        pos := if |data| < need then |data| else need;
        assert data == data[..pos] + data[pos..];
        CopyToBuffer(data[..pos], data[pos..]);
        if bufferLen < BLOCK_SIZE { return; }
        TransformBuffer(data[pos..]);
      }
      UpdateBlocks(data, pos);
    }

    /** The rest of update, entered with an empty buffer. */
    method UpdateBlocks(data: seq<bv8>, start: nat)
      requires start <= |data| && bufferLen == 0 && Consistent(data[start..])
      modifies this`bufferLen, this`blocks, this`chain, state, buffer
      ensures Consistent([]) && bufferLen < BLOCK_SIZE
    {
      hide IsChain;
      var pos := start;
      while |data| - pos >= BLOCK_SIZE
        invariant 0 <= pos <= |data| && bufferLen == 0
        invariant Consistent(data[pos..])
      {
        assert data[pos..] == data[pos..pos + BLOCK_SIZE] + data[pos + BLOCK_SIZE..];
        TransformInput(data[pos..pos + BLOCK_SIZE], data[pos + BLOCK_SIZE..]);
        pos := pos + BLOCK_SIZE;
      }
      if |data| - pos > 0 {
        assert data[pos..] == data[pos..] + [];
        CopyToBuffer(data[pos..], []);
      } else {
        assert data[pos..] == [];
      }
    }

    /** Pads, compresses the last block or two and returns the digest; reset before reusing. */
    method Finalize() returns (out: Digest256)
      requires Valid()
      modifies this, state, buffer
      ensures |old(message)| < 0x2000_0000_0000_0000 ==> out == Sha256(old(message))
    {
      hide IsChain;
      var trailer := WriteBE64(bitLength);
      ghost var zeros := PadZeros(|message|);
      PadCases(message, blocks, trailer);
      Extend([0x80] + (Zeros(zeros) + trailer));
      WritePadding(trailer, zeros);
      out := Digest(state[..]);
      FinalDigest(old(message), chain, blocks, trailer, message);
    }

    /** Fills the buffer with the padding, compressing it once or twice. */
    method WritePadding(trailer: seq<bv8>, ghost zeros: nat)
      requires |trailer| == 8 && bufferLen < BLOCK_SIZE
      requires zeros == if bufferLen <= 55 then 55 - bufferLen else 119 - bufferLen
      requires Consistent([0x80] + (Zeros(zeros) + trailer))
      modifies this`bufferLen, this`blocks, this`chain, state, buffer
      ensures bufferLen == 0 && Consistent([])
    {
      hide IsChain;
      CopyToBuffer([0x80], Zeros(zeros) + trailer);
      if bufferLen > BLOCK_SIZE - 8 {
        ZerosSplit(BLOCK_SIZE - bufferLen, zeros, trailer);
        CopyToBuffer(Zeros(BLOCK_SIZE - bufferLen), Zeros(BLOCK_SIZE - 8) + trailer);
        TransformBuffer(Zeros(BLOCK_SIZE - 8) + trailer);
      }
      CopyToBuffer(Zeros(BLOCK_SIZE - 8 - bufferLen), trailer);
      assert trailer == trailer + [];
      CopyToBuffer(trailer, []);
      TransformBuffer([]);
    }
  }

  /** sha256(data): one update. */
  method DigestOf(data: seq<bv8>) returns (out: Digest256)
    requires |data| < 0x2000_0000_0000_0000
    ensures out == Sha256(data)
  {
    var ctx := new SHA256();
    ctx.Update(data);
    assert [] + data == data;
    out := ctx.Finalize();
  }

  /** SHA-256 of the SHA-256 digest. */
  method DoubleDigestOf(data: seq<bv8>) returns (out: Digest256)
    requires |data| < 0x2000_0000_0000_0000
    ensures out == Sha256d(data)
  {
    var first := DigestOf(data);
    out := DigestOf(first);
  }

  /** However a message is cut into calls of update, the digest is that of the whole. */
  method DigestOfChunks(chunks: seq<seq<bv8>>) returns (out: Digest256)
    requires |Concat(chunks)| < 0x2000_0000_0000_0000
    ensures out == Sha256(Concat(chunks))
  {
    var ctx := new SHA256();
    for i := 0 to |chunks|
      invariant ctx.Valid() && ctx.message == Concat(chunks[..i])
      invariant fresh(ctx) && fresh(ctx.state) && fresh(ctx.buffer)
    {
      ctx.Update(chunks[i]);
      assert chunks[..i + 1][..i] == chunks[..i];
    }
    assert chunks[..|chunks|] == chunks;
    out := ctx.Finalize();
  }

  /** The first two loops of transform: the message schedule. */
  method ExpandBlock(block: seq<bv8>) returns (w: array<bv32>)
    requires |block| == BLOCK_SIZE
    ensures fresh(w) && w[..] == Schedule(WordsOf(block), 64)
  {
    hide Schedule, NextWord;
    w := new bv32[64];
    ghost var m := WordsOf(block);
    ScheduleStep(m, 16);
    for i := 0 to 16
      invariant forall k :: 0 <= k < i ==> w[k] == m[k]
    {
      w[i] := ReadBE32(block[4 * i..4 * i + 4]);
    }
    ghost var sch := Schedule(m, 16);
    for i := 16 to 64
      invariant sch == Schedule(m, i)
      invariant forall k :: 0 <= k < i ==> w[k] == sch[k]
    {
      ScheduleStep(m, i);
      w[i] := NextWord(w[i - 2], w[i - 7], w[i - 15], w[i - 16]);
      sch := sch + [w[i]];
    }
    assert w[..] == sch;
  }

  lemma SliceAcross<T>(m: seq<T>, data: seq<T>, lo: nat)
    requires lo <= |m|
    ensures (m + data)[lo..] == m[lo..] + data
  {
  }

  lemma ZerosSplit(k: nat, n: nat, trailer: seq<bv8>)
    requires k <= n
    ensures Zeros(n) + trailer == Zeros(k) + (Zeros(n - k) + trailer)
  {
  }

  /** The four bytes of a 32-bit number, most significant first. */
  function Bytes32(w: nat): seq<bv8> {
    [ByteOf(w / 0x100_0000 % 256), ByteOf(w / 0x1_0000 % 256), ByteOf(w / 0x100 % 256), ByteOf(w % 256)]
  }

  /** The eight bytes of a 64-bit number, its upper half first. */
  method WriteBE64(v: nat) returns (p: seq<bv8>)
    requires v < 0x1_0000_0000_0000_0000
    ensures p == BigEndian(v, 8)
  {
    hide BigEndian, Bytes32;
    p := Bytes32(v / 0x1_0000_0000) + Bytes32(v % 0x1_0000_0000);
    LowFour(v, 4);
    LowFour(v / 0x1_0000_0000, 0);
    NoBytes(v / 0x1_0000_0000 / 0x1_0000_0000);
    var hi := Bytes32(v / 0x1_0000_0000);
    assert [] + hi == hi;
  }

  lemma NoBytes(n: nat)
    ensures BigEndian(n, 0) == []
  {
  }

  lemma LowFour(n: nat, k: nat)
    ensures BigEndian(n, k + 4) == BigEndian(n / 0x1_0000_0000, k) + Bytes32(n % 0x1_0000_0000)
  {
    hide ByteOf, BigEndian;
    LowOne(n, k + 4);
    LowOne(n / 0x100, k + 3);
    LowOne(n / 0x1_0000, k + 2);
    LowOne(n / 0x100_0000, k + 1);
    LowDigits(n);
    Quarters(n);
    var b := Bytes32(n % 0x1_0000_0000);
    assert BigEndian(n / 0x1_0000_0000, k) + [b[0]] + [b[1]] + [b[2]] + [b[3]] == BigEndian(n / 0x1_0000_0000, k) + b;
  }

  lemma LowOne(n: nat, k: nat)
    requires k > 0
    ensures BigEndian(n, k) == BigEndian(n / 256, k - 1) + [ByteOf(n % 256)]
  {
  }

  lemma Quarters(n: nat)
    ensures n / 0x100 / 256 == n / 0x1_0000 && n / 0x1_0000 / 256 == n / 0x100_0000
    ensures n / 0x100_0000 / 256 == n / 0x1_0000_0000
  {
  }

  lemma LowDigits(n: nat)
    ensures var w := n % 0x1_0000_0000;
      && w / 0x100_0000 % 256 == n / 0x100_0000 % 256 && w / 0x1_0000 % 256 == n / 0x1_0000 % 256
      && w / 0x100 % 256 == n / 0x100 % 256 && w % 256 == n % 256
  {
    LowDigit(n, 0x100_0000, 1);
    LowDigit(n, 0x1_0000, 0x100);
    LowDigit(n, 0x100, 0x1_0000);
    LowDigit(n, 1, 0x100_0000);
  }

  /** Multiples of 256 * d do not show in the digit at d. */
  lemma LowDigit(n: nat, d: nat, c: nat)
    requires d > 0 && c * 256 * d > 0
    ensures n % (c * 256 * d) / d % 256 == n / d % 256
  {
    var q, w := n / (c * 256 * d), n % (c * 256 * d);
    var x, r := w / d, w % d;
    assert n == (q * c * 256 + x) * d + r by { Regroup(q, c, d, x); }
    DivModUnique(n, d, q * c * 256 + x, r);
    DivModUnique(q * c * 256 + x, 256, q * c + x / 256, x % 256);
  }

  lemma Regroup(q: nat, c: nat, d: nat, x: nat)
    ensures q * (c * 256 * d) + x * d == (q * c * 256 + x) * d
  {
    assert q * (c * 256 * d) == q * c * 256 * d;
  }

  lemma Wrap64Add(a: nat, b: nat)
    ensures Wrap64(Wrap64(a) + b) == Wrap64(a + b)
  {
    ModAddLeft(a, b, 0x1_0000_0000_0000_0000);
  }

  lemma ModAddLeft(a: nat, b: nat, m: nat)
    requires m > 0
    ensures (a % m + b) % m == (a + b) % m
  {
    var r := a % m;
    assert a == a / m * m + r && r + b == (r + b) / m * m + (r + b) % m;
    assert (a / m + (r + b) / m) * m == a / m * m + (r + b) / m * m;
    DivModUnique(a + b, m, a / m + (r + b) / m, (r + b) % m);
  }

  ghost predicate IsLink(chain: seq<State>, m: seq<bv8>, i: nat) {
    && BLOCK_SIZE * (i + 1) <= |m| && i + 1 < |chain|
    && chain[i + 1] == Compress(chain[i], WordsOf(m[BLOCK_SIZE * i..BLOCK_SIZE * (i + 1)]))
  }

  /** Section 6.2.2: H(i) is computed from H(i - 1) and the i-th block of m. */
  ghost predicate IsChain(chain: seq<State>, m: seq<bv8>, n: nat) {
    && |chain| == n + 1 && chain[0] == INITIAL
    && forall i :: 0 <= i < n ==> IsLink(chain, m, i)
  }

  lemma ChainPrefix(chain: seq<State>, m: seq<bv8>, more: seq<bv8>, n: nat)
    requires IsChain(chain, m, n)
    ensures IsChain(chain, m + more, n)
  {
    forall i | 0 <= i < n ensures IsLink(chain, m + more, i) {
      assert IsLink(chain, m, i);
      assert (m + more)[BLOCK_SIZE * i..BLOCK_SIZE * (i + 1)] == m[BLOCK_SIZE * i..BLOCK_SIZE * (i + 1)];
    }
  }

  lemma ChainSnoc(chain: seq<State>, m: seq<bv8>, n: nat, s: State)
    requires IsChain(chain, m, n) && BLOCK_SIZE * (n + 1) <= |m|
    requires s == Compress(chain[n], WordsOf(m[BLOCK_SIZE * n..BLOCK_SIZE * (n + 1)]))
    ensures IsChain(chain + [s], m, n + 1)
  {
    hide Compress, WordsOf;
    forall i | 0 <= i < n + 1 ensures IsLink(chain + [s], m, i) {
      if i < n { assert IsLink(chain, m, i); }
    }
  }

  lemma {:induction false} ChainIsAbsorb(chain: seq<State>, m: seq<bv8>, n: nat)
    requires IsChain(chain, m, n)
    ensures BLOCK_SIZE * n <= |m| && chain[n] == Absorb(m, n)
  {
    hide Compress, WordsOf;
    if n > 0 {
      forall i | 0 <= i < n - 1 ensures IsLink(chain[..n], m, i) { assert IsLink(chain, m, i); }
      ChainIsAbsorb(chain[..n], m, n - 1);
      assert IsLink(chain, m, n - 1);
    }
  }

  lemma FinalDigest(m: seq<bv8>, chain: seq<State>, n: nat, trailer: seq<bv8>, padded: seq<bv8>)
    requires trailer == BigEndian(Wrap64(8 * |m|), 8)
    requires padded == PadWith(m, trailer) && |padded| == BLOCK_SIZE * n
    requires IsChain(chain, padded, n)
    ensures |m| < 0x2000_0000_0000_0000 ==> Digest(chain[n]) == Sha256(m)
  {
    ChainIsAbsorb(chain, padded, n);
    if |m| < 0x2000_0000_0000_0000 {
      WrapSmall(8 * |m|);
      DigestOfPadded(m, n, padded);
    }
  }

  lemma WrapSmall(n: nat)
    requires n < 0x1_0000_0000_0000_0000
    ensures Wrap64(n) == n
  {
  }

  lemma DigestOfPadded(m: seq<bv8>, n: nat, padded: seq<bv8>)
    requires |m| < 0x2000_0000_0000_0000
    requires padded == Pad(m) && |padded| == BLOCK_SIZE * n
    ensures Digest(Absorb(padded, n)) == Sha256(m)
  {
  }

  /** Padding fills the last block, or adds one when fewer than nine of its bytes are free. */
  lemma PadCases(m: seq<bv8>, n: nat, trailer: seq<bv8>)
    requires BLOCK_SIZE * n <= |m| < BLOCK_SIZE * (n + 1)
    ensures PadZeros(|m|) == if |m| - BLOCK_SIZE * n <= 55 then 55 - (|m| - BLOCK_SIZE * n) else 119 - (|m| - BLOCK_SIZE * n)
    ensures PadWith(m, trailer) == m + ([0x80] + (Zeros(PadZeros(|m|)) + trailer))
  {
  }
}

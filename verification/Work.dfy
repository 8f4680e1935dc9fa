/** From a pool's job to a header that can be hashed: src/mining/work.cpp, over any hash D in place of SHA-256d. */
module Work {
  import opened Arith
  import opened Bytes
  import opened Header
  import opened Merkle
  import opened Uint256
  import CompactBits
  import ShareDifficulty

  datatype MiningJob = MiningJob(
    jobId: string, previousBlockHash: Hash256, coinbase1: seq<Byte>, coinbase2: seq<Byte>, merkleBranches: seq<Hash256>,
    version: Word, nBits: Word, nTime: Word, cleanJobs: bool,
    extranonce1: seq<Byte>, extranonce2Size: nat, difficulty: ShareDifficulty.Double)
  {
    predicate Valid() { |jobId| > 0 && |coinbase1| > 0 && extranonce2Size > 0 }
  }

  datatype MiningWork = MiningWork(
    jobId: string, extranonce2: seq<Byte>, header: BlockHeader, headerBytes: seq<Byte>,
    coinbaseHash: Hash256, merkleRoot: Hash256,
    shareTarget: UInt256, shareDifficulty: ShareDifficulty.Double, networkTarget: UInt256, valid: bool)

  /** A work item before any field is filled in. */
  function EmptyWork(jobId: string, extranonce2: seq<Byte>): MiningWork {
    MiningWork(jobId, extranonce2, BlockHeader(0, ZeroHash(), ZeroHash(), 0, 0, 0), seq(HEADER_SIZE, _ => 0),
               ZeroHash(), ZeroHash(), ZERO, ShareDifficulty.Finite(0.0), ZERO, false)
  }

  // ---- Extranonce2 -------------------------------------------------------

  /** The low bytes of n, most significant first. */
  function BeBytes(n: nat, size: nat): (b: seq<Byte>)
    ensures |b| == size
  {
    if size == 0 then [] else BeBytes(n / 256, size - 1) + [n % 256]
  }

  function BeValue(b: seq<Byte>): nat {
    if |b| == 0 then 0 else BeValue(b[..|b| - 1]) * 256 + b[|b| - 1]
  }

  lemma {:induction false} BeValueOfBytes(n: nat, size: nat)
    ensures BeValue(BeBytes(n, size)) == n % Pow256(size)
    decreases size
  {
    if size > 0 {
      var b, p := BeBytes(n, size), Pow256(size - 1);
      assert b[..size - 1] == BeBytes(n / 256, size - 1);
      BeValueOfBytes(n / 256, size - 1);
      LowBytes(n, p);
    }
  }

  lemma LowBytes(n: nat, p: nat)
    requires p > 0
    ensures n % (256 * p) == n / 256 % p * 256 + n % 256
  {
    var q, b := n / 256, n % 256;
    var h, r := q / p, q % p;
    assert q == h * p + r;
    assert (h * p + r) * 256 == h * (256 * p) + r * 256;
    DivModUnique(n, 256 * p, h, r * 256 + b);
  }

  function ByteOf(n: nat, i: nat): Byte { n / Pow256(i) % 256 }

  lemma {:induction false} BeBytesAt(n: nat, size: nat, k: nat)
    requires k < size
    ensures BeBytes(n, size)[k] == ByteOf(n, size - 1 - k)
    decreases size
  {
    if k < size - 1 {
      BeBytesAt(n / 256, size - 1, k);
      DivDiv(n, 256, Pow256(size - 2 - k));
    } else {
      assert Pow256(0) == 1;
    }
  }

  lemma NoByte(n: nat, i: nat)
    requires n < Pow256(8) && i >= 8
    ensures ByteOf(n, i) == 0
  {
    hide Pow256;
    Pow256Is(8);
    Pow256Is(i);
    Pow2Mono(64, 8 * i);
    DivModUnique(n, Pow256(i), 0, n);
  }

  /** A 64-bit counter, most significant byte first; bytes beyond the eighth are zero. */
  method EncodeExtranonce2(counter: nat, size: nat) returns (out: seq<Byte>)
    requires counter < Pow256(8)
    ensures out == BeBytes(counter, size)
  {
    hide Pow256, Pow2, ByteOf;
    var bytes: array<Byte> := new Byte[size](_ => 0);
    var i := 0;
    while i < size
      invariant 0 <= i <= size
      invariant forall k :: 0 <= k < size ==> bytes[k] == if k >= size - i then ByteOf(counter, size - 1 - k) else 0
    {
      var shift := 8 * i;
      if shift >= 64 { break; }
      ByteShift(counter, i);
      bytes[size - 1 - i] := counter / Pow2(shift) % 256;
      i := i + 1;
    }
    out := bytes[..];
    forall k | 0 <= k < size ensures out[k] == BeBytes(counter, size)[k] {
      BeBytesAt(counter, size, k);
      if k < size - i { NoByte(counter, size - 1 - k); }
    }
  }

  lemma ByteShift(n: nat, i: nat)
    ensures ByteOf(n, i) == n / Pow2(8 * i) % 256
  {
    Pow256Is(i);
  }

  // ---- Headers -----------------------------------------------------------

  method BuildCoinbase(coinbase1: seq<Byte>, extranonce1: seq<Byte>, extranonce2: seq<Byte>, coinbase2: seq<Byte>)
    returns (coinbase: seq<Byte>)
    ensures coinbase == coinbase1 + extranonce1 + extranonce2 + coinbase2
  {
    coinbase := [];
    coinbase := coinbase + coinbase1;
    coinbase := coinbase + extranonce1;
    coinbase := coinbase + extranonce2;
    coinbase := coinbase + coinbase2;
  }

  function Coinbase(coinbase1: seq<Byte>, extranonce1: seq<Byte>, extranonce2: seq<Byte>, coinbase2: seq<Byte>)
    : seq<Byte>
  {
    coinbase1 + extranonce1 + extranonce2 + coinbase2
  }

  /** The header of a job with one choice of extranonce2, nonce zero. */
  function HeaderOf(D: Hasher, job: MiningJob, extranonce2: seq<Byte>): BlockHeader {
    var coinbaseHash := D(Coinbase(job.coinbase1, job.extranonce1, extranonce2, job.coinbase2));
    BlockHeader(job.version, job.previousBlockHash, Fold(D, coinbaseHash, job.merkleBranches), job.nTime, job.nBits, 0)
  }

  /** The share target in force: the pool's, or the network's when the pool has set none. */
  ghost function EffectiveTarget(job: MiningJob): nat
    requires Representable(job.difficulty)
  {
    var t := ShareDifficulty.ShareTarget(job.difficulty);
    if t == 0 then CompactBits.NetworkTarget(job.nBits) else t
  }

  /** The pool's difficulty fits the 64-bit integer it is cast to. */
  predicate Representable(d: ShareDifficulty.Double) { d.Finite? ==> d.value < 18446744073709551616.0 }

  /**
   * What a job asks of a hash: the difficulty that the pool has set, in units of 2^-32 below 2^32 and whole from there on;
   * anything below 2^-32; and the network's target when the pool has set no positive finite difficulty.
   */
  ghost predicate Suffices(job: MiningJob, hash: nat)
    requires Representable(job.difficulty)
  {
    match job.difficulty
    case NaN => ShareDifficulty.Meets(hash, CompactBits.NetworkTarget(job.nBits))
    case Infinity(_) => ShareDifficulty.Meets(hash, CompactBits.NetworkTarget(job.nBits))
    case Finite(d) =>
      if d <= 0.0 then ShareDifficulty.Meets(hash, CompactBits.NetworkTarget(job.nBits))
      else if d * 4294967296.0 < 1.0 then true
      else if d < 4294967296.0 then ShareDifficulty.AchievedFixed32(hash) >= ShareDifficulty.Floor(d * 4294967296.0)
      else ShareDifficulty.Achieved(hash) >= ShareDifficulty.Floor(d)
  }

  /** Meeting the target in force is reaching the difficulty in force. */
  lemma TargetIsDifficulty(job: MiningJob, hash: nat)
    requires Representable(job.difficulty) && hash < W4
    ensures ShareDifficulty.Meets(hash, EffectiveTarget(job)) <==> Suffices(job, hash)
  {
    hide ShareDifficulty.Achieved, ShareDifficulty.AchievedFixed32, CompactBits.NetworkTarget;
    if job.difficulty.Finite? && job.difficulty.value > 0.0 {
      var d := job.difficulty.value;
      ShareDifficulty.PositiveTarget(d);
      if d * 4294967296.0 < 1.0 {
        ShareDifficulty.MeetsClamped(hash, d);
      } else if d < 4294967296.0 {
        ShareDifficulty.MeetsIffFixed32(hash, d);
      } else {
        ShareDifficulty.MeetsIffInteger(hash, d);
      }
    }
  }

  /** A work item filled in from a job: the header the pool asked for, and both targets. */
  ghost predicate Built(D: Hasher, job: MiningJob, extranonce2: seq<Byte>, work: MiningWork)
    requires Representable(job.difficulty)
  {
    && work.jobId == job.jobId && work.extranonce2 == extranonce2
    && work.coinbaseHash == D(Coinbase(job.coinbase1, job.extranonce1, extranonce2, job.coinbase2))
    && work.merkleRoot == Fold(D, work.coinbaseHash, job.merkleBranches) && work.shareDifficulty == job.difficulty
    && work.header == HeaderOf(D, job, extranonce2) && work.headerBytes == Serialize(work.header)
    && Value(work.networkTarget) == CompactBits.NetworkTarget(job.nBits)
    && Value(work.shareTarget) == EffectiveTarget(job)
    && (work.valid <==> CompactBits.NetworkTarget(job.nBits) != 0)
  }

  method BuildWorkWithExtranonce2(D: Hasher, job: MiningJob, extranonce2: seq<Byte>) returns (work: MiningWork)
    requires Representable(job.difficulty)
    ensures work.jobId == job.jobId && work.extranonce2 == extranonce2
    ensures !job.Valid() || |extranonce2| != job.extranonce2Size ==> work == EmptyWork(job.jobId, extranonce2)
    ensures job.Valid() && |extranonce2| == job.extranonce2Size ==> Built(D, job, extranonce2, work)
    ensures work.valid ==> Value(work.shareTarget) != 0 && Value(work.networkTarget) != 0
  {
    work := EmptyWork(job.jobId, extranonce2);
    if !job.Valid() || |extranonce2| != job.extranonce2Size { return; }

    var coinbase := BuildCoinbase(job.coinbase1, job.extranonce1, extranonce2, job.coinbase2);
    work := work.(coinbaseHash := D(coinbase));
    var root := MerkleRootFromBranch(D, work.coinbaseHash, job.merkleBranches);
    work := work.(merkleRoot := root);

    var header := BlockHeader(job.version, job.previousBlockHash, root, job.nTime, job.nBits, 0);
    var bytes: array<Byte> := new Byte[HEADER_SIZE](_ => 0);
    SerializeInto(header, bytes);
    work := work.(header := header, headerBytes := bytes[..]);

    var shareTarget := ShareDifficulty.TargetFromShareDifficulty(job.difficulty);
    var networkTarget := CompactBits.TargetFromCompactBits(job.nBits);
    work := work.(shareDifficulty := job.difficulty, shareTarget := shareTarget, networkTarget := networkTarget);
    var noShareTarget := IsZero(shareTarget);
    if noShareTarget { work := work.(shareTarget := networkTarget); }
    var noTarget := IsZero(networkTarget);
    work := work.(valid := !noTarget);
  }

  method BuildWork(D: Hasher, job: MiningJob, counter: nat) returns (work: MiningWork)
    requires Representable(job.difficulty) && counter < Pow256(8)
    ensures if job.Valid() then Built(D, job, BeBytes(counter, job.extranonce2Size), work)
            else work == EmptyWork(job.jobId, BeBytes(counter, job.extranonce2Size))
    ensures work.valid <==> job.Valid() && CompactBits.NetworkTarget(job.nBits) != 0
  {
    var extranonce2 := EncodeExtranonce2(counter, job.extranonce2Size);
    work := BuildWorkWithExtranonce2(D, job, extranonce2);
  }

  method HashWorkAtNonce(D: Hasher, work: MiningWork, nonce: Word) returns (hash: Hash256)
    requires |work.headerBytes| == HEADER_SIZE
    ensures hash == HashAt(D, work.headerBytes, nonce)
  {
    var buffer: array<Byte> := new Byte[HEADER_SIZE](i requires 0 <= i < HEADER_SIZE => work.headerBytes[i]);
    assert buffer[..] == work.headerBytes;
    SetHeaderNonce(buffer, nonce);
    hash := D(buffer[..]);
  }

  /** The hash of a header with the given nonce. */
  function HashAt(D: Hasher, header: seq<Byte>, nonce: Word): Hash256
    requires |header| == HEADER_SIZE
  {
    D(WithNonce(header, nonce))
  }

  // ---- Distinct counters -------------------------------------------------

  lemma CoinbaseInjective(job: MiningJob, a: seq<Byte>, b: seq<Byte>)
    requires |a| == |b| && a != b
    ensures Coinbase(job.coinbase1, job.extranonce1, a, job.coinbase2)
      != Coinbase(job.coinbase1, job.extranonce1, b, job.coinbase2)
  {
    var front := job.coinbase1 + job.extranonce1;
    var i :| 0 <= i < |a| && a[i] != b[i];
    assert (front + a + job.coinbase2)[|front| + i] == a[i];
    assert (front + b + job.coinbase2)[|front| + i] == b[i];
  }

  /** How many counters have extranonces of their own. */
  function DistinctCounters(size: nat): nat { Pow256(if size < 8 then size else 8) }

  /** Counters that fit in the extranonce are encoded differently. */
  lemma EncodingInjective(a: nat, b: nat, size: nat)
    requires a < DistinctCounters(size) && b < DistinctCounters(size)
    ensures BeBytes(a, size) == BeBytes(b, size) ==> a == b
  {
    hide Pow256, BeBytes, BeValue;
    BeValueOfBytes(a, size);
    BeValueOfBytes(b, size);
    if size >= 8 {
      Pow256Is(8);
      Pow256Is(size);
      Pow2Mono(64, 8 * size);
    }
    DivModUnique(a, Pow256(size), 0, a);
    DivModUnique(b, Pow256(size), 0, b);
  }

  /** Exactly the counters that agree modulo 256^size are encoded alike. */
  lemma EncodedAlike(a: nat, b: nat, size: nat)
    ensures BeBytes(a, size) == BeBytes(b, size) <==> a % Pow256(size) == b % Pow256(size)
  {
    hide Pow256, BeBytes;
    BeValueOfBytes(a, size);
    BeValueOfBytes(b, size);
    if a % Pow256(size) == b % Pow256(size) { SameResidue(a, b, size); }
  }

  lemma {:induction false} SameResidue(a: nat, b: nat, size: nat)
    requires a % Pow256(size) == b % Pow256(size)
    ensures BeBytes(a, size) == BeBytes(b, size)
    decreases size
  {
    if size > 0 {
      LowBytes(a, Pow256(size - 1));
      LowBytes(b, Pow256(size - 1));
      SameResidue(a / 256, b / 256, size - 1);
    }
  }

  function CoinbaseOf(job: MiningJob, extranonce2: seq<Byte>): seq<Byte> {
    Coinbase(job.coinbase1, job.extranonce1, extranonce2, job.coinbase2)
  }

  /**
   * x and y are hashed on the way to the headers of these two choices of extranonce2 and have one hash: they are the two
   * coinbases, or pairs of the two folds over the coinbases' hashes.
   */
  ghost predicate CollidesInside(D: Hasher, job: MiningJob, ea: seq<Byte>, eb: seq<Byte>, x: seq<Byte>, y: seq<Byte>) {
    var ca, cb := CoinbaseOf(job, ea), CoinbaseOf(job, eb);
    && Collision(D, x, y)
    && ((x == ca && y == cb)
        || (x in FoldPairs(D, D(ca), job.merkleBranches) && y in FoldPairs(D, D(cb), job.merkleBranches)))
  }

  /** Two choices of extranonce2 that give a job one header exhibit a collision on the way to it. */
  lemma ExtranonceCollision(D: Hasher, job: MiningJob, ea: seq<Byte>, eb: seq<Byte>) returns (x: seq<Byte>, y: seq<Byte>)
    requires |ea| == |eb| && ea != eb && HeaderOf(D, job, ea) == HeaderOf(D, job, eb)
    ensures CollidesInside(D, job, ea, eb, x, y)
  {
    hide Coinbase, Fold, FoldPairs;
    CoinbaseInjective(job, ea, eb);
    x, y := CoinbaseOf(job, ea), CoinbaseOf(job, eb);
    if D(x) != D(y) {
      x, y := SameFoldCollision(D, D(x), D(y), job.merkleBranches);
    }
  }

  /** Two counters of their own that give one header for a job exhibit a collision on the way to it. */
  lemma CounterCollision(D: Hasher, job: MiningJob, a: nat, b: nat) returns (x: seq<Byte>, y: seq<Byte>)
    requires a != b && a < DistinctCounters(job.extranonce2Size) && b < DistinctCounters(job.extranonce2Size)
    requires Serialize(HeaderOf(D, job, BeBytes(a, job.extranonce2Size)))
      == Serialize(HeaderOf(D, job, BeBytes(b, job.extranonce2Size)))
    ensures CollidesInside(D, job, BeBytes(a, job.extranonce2Size), BeBytes(b, job.extranonce2Size), x, y)
  {
    hide Serialize, BeBytes, Pow256, HeaderOf, CollidesInside;
    var ea, eb := BeBytes(a, job.extranonce2Size), BeBytes(b, job.extranonce2Size);
    EncodingInjective(a, b, job.extranonce2Size);
    SerializeInjective(HeaderOf(D, job, ea), HeaderOf(D, job, eb));
    x, y := ExtranonceCollision(D, job, ea, eb);
  }

  /** The counters agree modulo 256^size, or two inputs on the way to their headers collide. */
  ghost predicate Indistinct(D: Hasher, job: MiningJob, a: nat, b: nat) {
    || a % Pow256(job.extranonce2Size) == b % Pow256(job.extranonce2Size)
    || exists x, y :: CollidesInside(D, job, BeBytes(a, job.extranonce2Size), BeBytes(b, job.extranonce2Size), x, y)
  }

  /** Two counters, at whatever nonces, give one input of the hash only at equal nonces and for one of those two reasons. */
  lemma SameInputExplained(D: Hasher, job: MiningJob, a: nat, b: nat, m: Word, n: Word)
    requires WithNonce(Serialize(HeaderOf(D, job, BeBytes(a, job.extranonce2Size))), m)
      == WithNonce(Serialize(HeaderOf(D, job, BeBytes(b, job.extranonce2Size))), n)
    ensures m == n && Indistinct(D, job, a, b)
  {
    hide Serialize, BeBytes, Pow256, HeaderOf, CollidesInside, WithNonce;
    var ha, hb := HeaderOf(D, job, BeBytes(a, job.extranonce2Size)), HeaderOf(D, job, BeBytes(b, job.extranonce2Size));
    PatchedNonce(ha, m);
    PatchedNonce(hb, n);
    SerializeInjective(ha.(nonce := m), hb.(nonce := n));
    HeaderNonce(D, job, BeBytes(a, job.extranonce2Size));
    HeaderNonce(D, job, BeBytes(b, job.extranonce2Size));
    assert ha == ha.(nonce := m).(nonce := 0) && hb == hb.(nonce := n).(nonce := 0);
    SameHeader(D, job, a, b);
  }

  lemma HeaderNonce(D: Hasher, job: MiningJob, extranonce2: seq<Byte>)
    ensures HeaderOf(D, job, extranonce2).nonce == 0
  {
  }

  lemma SameHeader(D: Hasher, job: MiningJob, a: nat, b: nat)
    requires HeaderOf(D, job, BeBytes(a, job.extranonce2Size)) == HeaderOf(D, job, BeBytes(b, job.extranonce2Size))
    ensures Indistinct(D, job, a, b)
  {
    hide BeBytes, Pow256, CollidesInside, Fold, Coinbase;
    var ea, eb := BeBytes(a, job.extranonce2Size), BeBytes(b, job.extranonce2Size);
    EncodedAlike(a, b, job.extranonce2Size);
    if ea != eb {
      var x, y := ExtranonceCollision(D, job, ea, eb);
    }
  }

  /** Beyond that many counters the truncated encoding does repeat. */
  lemma EncodingWraps(a: nat, size: nat)
    ensures BeBytes(a + Pow256(size), size) == BeBytes(a, size)
    decreases size
  {
    if size > 0 {
      assert (a + 256 * Pow256(size - 1)) / 256 == a / 256 + Pow256(size - 1);
      EncodingWraps(a / 256, size - 1);
    }
  }
}

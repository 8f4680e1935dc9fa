/** The nonce search on one thread: CpuReferenceMiner and MinerController::workerLoop of src/mining/miner.cpp. */
module CpuMiner {
  import opened Arith
  import opened Bytes
  import opened Hex
  import opened Header
  import opened Merkle
  import opened Uint256
  import opened Uint256Hash
  import opened StratumMessage
  import opened Work
  import ShareDifficulty

  const NONCES: nat := 0x1_0000_0000
  const CPU_CHUNK: nat := 0x4_0000
  const STOP_INTERVAL: nat := 4096

  datatype MiningResult = MiningResult(
    found: bool, nonce: Word, hash: Hash256, meetsNetworkTarget: bool, hashesPerformed: nat, errorMessage: string)
  {
    predicate Error() { errorMessage != "" }
  }

  function NoResult(): MiningResult { MiningResult(false, 0, ZeroHash(), false, 0, "") }

  /** The i-th nonce of a scan, wrapping at 2^32. */
  function NonceAt(start: Word, i: nat): Word { (start + i) % NONCES }

  ghost function HashOf(D: Hasher, work: MiningWork, nonce: Word): Hash256
    requires |work.headerBytes| == HEADER_SIZE
  {
    HashAt(D, work.headerBytes, nonce)
  }

  ghost predicate Wins(D: Hasher, work: MiningWork, nonce: Word)
    requires |work.headerBytes| == HEADER_SIZE
  {
    ShareDifficulty.Meets(LeValue(HashOf(D, work, nonce)), Value(work.shareTarget))
  }

  /** A nonce of work built for a job wins exactly when its hash reaches the difficulty that the pool has set. */
  lemma WinsByDifficulty(D: Hasher, job: MiningJob, extranonce2: seq<Byte>, work: MiningWork, nonce: Word)
    requires Representable(job.difficulty) && Built(D, job, extranonce2, work)
    ensures |work.headerBytes| == HEADER_SIZE
    ensures Wins(D, work, nonce) <==> Suffices(job, LeValue(HashOf(D, work, nonce)))
  {
    hide Serialize, HeaderOf, LeValue, Value, EffectiveTarget, Suffices, ShareDifficulty.Meets;
    HashBound(HashOf(D, work, nonce));
    TargetIsDifficulty(job, LeValue(HashOf(D, work, nonce)));
  }

  /** No winner among the first n nonces of a scan. */
  ghost predicate Barren(D: Hasher, work: MiningWork, start: Word, n: nat)
    requires |work.headerBytes| == HEADER_SIZE
  {
    forall i: nat :: i < n ==> !Wins(D, work, NonceAt(start, i))
  }

  /** A correct report of a scan that hashed its first hashesPerformed nonces and stopped at the first winner. */
  ghost predicate Reports(D: Hasher, work: MiningWork, start: Word, r: MiningResult)
    requires |work.headerBytes| == HEADER_SIZE
  {
    if r.found then
      && r.hashesPerformed > 0 && r.nonce == NonceAt(start, r.hashesPerformed - 1)
      && Barren(D, work, start, r.hashesPerformed - 1) && Wins(D, work, r.nonce)
      && r.hash == HashOf(D, work, r.nonce)
      && (r.meetsNetworkTarget <==> ShareDifficulty.Meets(LeValue(r.hash), Value(work.networkTarget)))
    else Barren(D, work, start, r.hashesPerformed)
  }

  /** The headers of the first n nonces of a scan, in scan order. */
  ghost function Scan(work: MiningWork, start: Word, n: nat): (headers: seq<seq<Byte>>)
    requires |work.headerBytes| == HEADER_SIZE
    ensures |headers| == n
  {
    seq(n, i requires 0 <= i < n => WithNonce(work.headerBytes, NonceAt(start, i)))
  }

  /** The search's one use of the hash; hashed lists the inputs it has been given, oldest first. */
  method HashHeader(D: Hasher, header: array<Byte>, ghost hashed: seq<seq<Byte>>)
    returns (hash: Hash256, ghost hashed': seq<seq<Byte>>)
    ensures hash == D(header[..]) && hashed' == hashed + [header[..]]
  {
    hash, hashed' := D(header[..]), hashed + [header[..]];
  }

  /**
   * Scans up to nonceCount nonces; stop(i) is what the stop flag reads before the i-th.
   * What is hashed is exactly the first hashesPerformed headers of the scan, each once and in order,
   * and the winner reported is the first in scan order.
   */
  method Mine(D: Hasher, work: MiningWork, startNonce: Word, nonceCount: nat, stop: nat -> bool)
    returns (result: MiningResult, ghost hashed: seq<seq<Byte>>)
    requires |work.headerBytes| == HEADER_SIZE
    ensures result.Error() <==> !work.valid
    ensures hashed == Scan(work, startNonce, result.hashesPerformed)
    ensures Reports(D, work, startNonce, result)
    ensures result.hashesPerformed <= nonceCount
    ensures work.valid && !result.found && result.hashesPerformed < nonceCount ==>
      result.hashesPerformed % 4096 == 0 && stop(result.hashesPerformed)
    ensures forall i: nat :: i < result.hashesPerformed && i % 4096 == 0 ==> !stop(i)
    ensures work.valid && (forall i: nat :: i < nonceCount ==> !stop(i)) ==>
      (result.found <==> !Barren(D, work, startNonce, nonceCount))
  {
    hide LeValue, Value;
    result, hashed := NoResult(), [];
    if !work.valid { return result.(errorMessage := "invalid work"), []; }
    if nonceCount == 0 { return; }

    var header: array<Byte> := new Byte[HEADER_SIZE](i requires 0 <= i < HEADER_SIZE => work.headerBytes[i]);
    assert header[..] == work.headerBytes;
    var performed: nat := 0;
    var i: nat := 0;
    while i < nonceCount
      invariant i == performed <= nonceCount && result == NoResult()
      invariant header[..NONCE_OFFSET] == work.headerBytes[..NONCE_OFFSET]
      invariant Barren(D, work, startNonce, i) && hashed == Scan(work, startNonce, i)
      invariant forall j: nat :: j < i && j % STOP_INTERVAL == 0 ==> !stop(j)
    {
      if i % STOP_INTERVAL == 0 && stop(i) { break; }
      var nonce := NonceAt(startNonce, i);
      SetHeaderNonce(header, nonce);
      assert header[..] == WithNonce(work.headerBytes, nonce);
      ScanStep(work, startNonce, i);
      var hash;
      hash, hashed := HashHeader(D, header, hashed);
      performed := performed + 1;

      var meets := ShareDifficulty.HashMeetsTarget(hash, work.shareTarget);
      if meets {
        var network := ShareDifficulty.HashMeetsTarget(hash, work.networkTarget);
        result := result.(found := true, nonce := nonce, hash := hash, meetsNetworkTarget := network);
        break;
      }
      i := i + 1;
    }
    result := result.(hashesPerformed := performed);
  }

  lemma ScanStep(work: MiningWork, start: Word, i: nat)
    requires |work.headerBytes| == HEADER_SIZE
    ensures Scan(work, start, i + 1) == Scan(work, start, i) + [WithNonce(work.headerBytes, NonceAt(start, i))]
  {
  }

  /** Recomputes one nonce; hash stays zero, as the caller leaves it, when the work is invalid. */
  method Verify(D: Hasher, work: MiningWork, nonce: Word)
    returns (ok: bool, hash: Hash256, meetsShareTarget: bool, meetsNetworkTarget: bool)
    requires |work.headerBytes| == HEADER_SIZE
    ensures ok == meetsShareTarget
    ensures ok <==> work.valid && Wins(D, work, nonce)
    ensures hash == if work.valid then HashOf(D, work, nonce) else ZeroHash()
    ensures meetsNetworkTarget <==> work.valid && ShareDifficulty.Meets(LeValue(hash), Value(work.networkTarget))
  {
    if !work.valid { return false, ZeroHash(), false, false; }
    hash := HashWorkAtNonce(D, work, nonce);
    meetsShareTarget := ShareDifficulty.HashMeetsTarget(hash, work.shareTarget);
    meetsNetworkTarget := ShareDifficulty.HashMeetsTarget(hash, work.networkTarget);
    ok := meetsShareTarget;
  }

  // ---- What becomes of a winner ------------------------------------------

  datatype Handled = Mismatch | Taken(share: ShareSubmission, block: bool) | Stale(share: ShareSubmission, block: bool)

  /** MinerController::handleFoundNonce; taken is whether the pool client accepts the submission. */
  method HandleFoundNonce(D: Hasher, work: MiningWork, nonce: Word, taken: bool) returns (handled: Handled)
    requires |work.headerBytes| == HEADER_SIZE
    ensures handled.Mismatch? <==> !(work.valid && Wins(D, work, nonce))
    ensures !handled.Mismatch? ==> (handled.Taken? <==> taken) && Submits(D, work, nonce, handled.share)
    ensures !handled.Mismatch? ==>
      (handled.block <==> ShareDifficulty.Meets(LeValue(HashOf(D, work, nonce)), Value(work.networkTarget)))
  {
    var ok, hash, meetsShare, meetsNetwork := Verify(D, work, nonce);
    if !meetsShare { return Mismatch; }
    var extranonce2Hex := ToHex(work.extranonce2);
    var exact := ShareDifficulty.ShareDifficultyOfHashFixed32(hash);
    var share := ShareSubmission(work.jobId, extranonce2Hex, work.header.timestamp, nonce, exact);
    handled := if taken then Taken(share, meetsNetwork) else Stale(share, meetsNetwork);
  }

  /** The submission names the work and nonce that were hashed, and ranks the share by its exact difficulty. */
  ghost predicate Submits(D: Hasher, work: MiningWork, nonce: Word, share: ShareSubmission)
    requires |work.headerBytes| == HEADER_SIZE
  {
    && share.jobId == work.jobId && share.extranonce2Hex == HexText(work.extranonce2)
    && share.nTime == work.header.timestamp && share.nonce == nonce
    && Value(share.achievedDifficultyExact) == ShareDifficulty.AchievedFixed32(LeValue(HashOf(D, work, nonce)))
  }

  // ---- A sweep over one work item ----------------------------------------

  /** The winners among the first n nonces of a scan, in scan order. */
  ghost function Winners(D: Hasher, work: MiningWork, start: Word, n: nat): seq<Word>
    requires |work.headerBytes| == HEADER_SIZE
  {
    if n == 0 then []
    else
      var nonce := NonceAt(start, n - 1);
      Winners(D, work, start, n - 1) + if Wins(D, work, nonce) then [nonce] else []
  }

  /** Exactly the winning positions of the scan are listed, each once and in scan order. */
  lemma {:induction false} WinnersAre(D: Hasher, work: MiningWork, start: Word, n: nat, i: nat)
    requires |work.headerBytes| == HEADER_SIZE && i < n
    ensures var before, after := Winners(D, work, start, i), Winners(D, work, start, i + 1);
      && before <= after <= Winners(D, work, start, n) && (i == 0 ==> before == [])
      && if Wins(D, work, NonceAt(start, i)) then after[|before|..] == [NonceAt(start, i)] else after == before
    decreases n
  {
    hide Wins, NonceAt;
    if i < n - 1 { WinnersAre(D, work, start, n - 1, i); }
  }

  /** A stop flag, read at check j of chunk k, that stays up once raised. */
  ghost predicate Sticky(stop: (nat, nat) -> bool) {
    forall k: nat, j: nat, k': nat, j': nat :: stop(k, j) && (k < k' || (k == k' && j <= j')) ==> stop(k', j')
  }

  /** The first nonce of a worker. */
  function FirstNonce(worker: nat, workers: nat): Word { worker * NONCES / (if workers == 0 then 1 else workers) % NONCES }

  /**
   * Workers that read the same number of workers start in different places of the nonce space: at its even division among
   * them, rounded down.
   */
  lemma DistinctStarts(i: nat, j: nat, workers: nat)
    requires i < j < workers <= NONCES
    ensures FirstNonce(i, workers) < FirstNonce(j, workers)
    ensures FirstNonce(j, workers) * workers <= j * 0x1_0000_0000 < (FirstNonce(j, workers) + 1) * workers
  {
    hide FirstNonce;
    StartIs(i, workers);
    StartIs(j, workers);
    StartsApart(i, j, workers, NONCES);
    DivGalois(j * NONCES, workers, FirstNonce(j, workers));
    DivGalois(j * NONCES, workers, FirstNonce(j, workers) + 1);
  }

  /** Workers are started while the list of them still grows: one that sees itself alone starts where the first does. */
  lemma EarlyStart(worker: nat, workers: nat)
    ensures FirstNonce(worker, 1) == FirstNonce(worker, 0) == FirstNonce(0, workers) == 0
  {
  }

  lemma StartIs(i: nat, workers: nat)
    requires i < workers
    ensures FirstNonce(i, workers) == i * NONCES / workers
  {
    StartInRange(i, workers, NONCES);
    SmallRemainder(i * NONCES / workers, NONCES);
  }

  lemma SmallRemainder(q: nat, n: nat)
    requires q < n
    ensures q % n == q
  {
  }

  lemma StartInRange(i: nat, workers: nat, n: nat)
    requires i < workers && n > 0
    ensures i * n / workers < n
  {
    MulMono(i + 1, workers, n);
    assert (i + 1) * n == i * n + n;
    DivGalois(i * n, workers, n);
  }

  lemma StartsApart(i: nat, j: nat, workers: nat, n: nat)
    requires i < j && 0 < workers <= n
    ensures i * n / workers < j * n / workers
  {
    var q := i * n / workers;
    DivGalois(i * n, workers, q);
    MulMono(i + 1, j, n);
    assert (i + 1) * n == i * n + n;
    assert (q + 1) * workers == q * workers + workers;
    DivGalois(j * n, workers, q + 1);
  }

  datatype Sweep = Sweep(hashes: nat, shares: seq<Word>, remaining: nat, outcomes: seq<Handled>)

  lemma {:induction false} BarrenRun(D: Hasher, work: MiningWork, start: Word, done: nat, n: nat)
    requires |work.headerBytes| == HEADER_SIZE && Barren(D, work, NonceAt(start, done), n)
    ensures Winners(D, work, start, done + n) == Winners(D, work, start, done)
    decreases n
  {
    if n > 0 {
      BarrenRun(D, work, start, done, n - 1);
      NonceShift(start, done, n - 1);
    }
  }

  lemma NonceShift(start: Word, a: nat, b: nat)
    ensures NonceAt(NonceAt(start, a), b) == NonceAt(start, a + b)
  {
  }

  /** A run goes up by one from its start, and from 2^32 - 1 on to zero. */
  lemma RunOfNonces(start: Word, i: nat)
    ensures NonceAt(start, 0) == start
    ensures NonceAt(start, i + 1) == if NonceAt(start, i) == 0xFFFF_FFFF then 0 else NonceAt(start, i) + 1
  {
  }

  /** The nonces of a run no longer than 2^32 are all different. */
  lemma NoRepeats(start: Word, i: nat, j: nat)
    requires i < j < NONCES
    ensures NonceAt(start, i) != NonceAt(start, j)
  {
  }

  /** Different nonces make different headers. */
  lemma NonceInHeader(header: seq<Byte>, a: Word, b: Word)
    requires |header| == HEADER_SIZE && a != b
    ensures WithNonce(header, a) != WithNonce(header, b)
  {
    assert WithNonce(header, a)[NONCE_OFFSET..] == Le32(a) && WithNonce(header, b)[NONCE_OFFSET..] == Le32(b);
    Le32RoundTrip(a, Le32(0));
    Le32RoundTrip(b, Le32(0));
  }

  /** A scan no longer than 2^32 visits no header twice. */
  lemma ScanWithoutRepeats(work: MiningWork, start: Word, n: nat)
    requires |work.headerBytes| == HEADER_SIZE && n <= NONCES
    ensures forall i, j :: 0 <= i < j < n ==> Scan(work, start, n)[i] != Scan(work, start, n)[j]
  {
    hide WithNonce, NonceAt;
    forall i, j | 0 <= i < j < n ensures Scan(work, start, n)[i] != Scan(work, start, n)[j] {
      NoRepeats(start, i, j);
      NonceInHeader(work.headerBytes, NonceAt(start, i), NonceAt(start, j));
    }
  }

  /** A scan from where another ended continues it. */
  lemma ScanConcat(work: MiningWork, start: Word, a: nat, b: nat)
    requires |work.headerBytes| == HEADER_SIZE
    ensures Scan(work, start, a) + Scan(work, NonceAt(start, a), b) == Scan(work, start, a + b)
  {
    hide WithNonce, NonceAt;
    forall i | 0 <= i < b ensures NonceAt(NonceAt(start, a), i) == NonceAt(start, a + i) {
      NonceShift(start, a, i);
    }
  }

  lemma SweepStart(D: Hasher, work: MiningWork, start: Word)
    requires |work.headerBytes| == HEADER_SIZE
    ensures NonceAt(start, 0) == start && Winners(D, work, start, 0) == [] && Scan(work, start, 0) == []
  {
  }

  /** One chunk's result extends the run by exactly the hashes done. */
  lemma ChunkExtends(D: Hasher, work: MiningWork, start: Word, done: nat, r: MiningResult)
    requires |work.headerBytes| == HEADER_SIZE && Reports(D, work, NonceAt(start, done), r)
    ensures Winners(D, work, start, done + r.hashesPerformed)
      == Winners(D, work, start, done) + if r.found then [r.nonce] else []
    ensures r.found ==> (r.nonce + 1) % NONCES == NonceAt(start, done + r.hashesPerformed)
    ensures r.found ==> r.hashesPerformed > 0 && Wins(D, work, r.nonce)
    ensures r.hashesPerformed > 0 ==>
      Winners(D, work, start, done + r.hashesPerformed - 1) == Winners(D, work, start, done)
  {
    if r.hashesPerformed > 0 { BarrenRun(D, work, start, done, r.hashesPerformed - 1); }
    if r.found {
      NonceShift(start, done, r.hashesPerformed - 1);
      NonceShift(start, done + r.hashesPerformed - 1, 1);
      assert NonceAt(r.nonce, 1) == (r.nonce + 1) % NONCES;
    } else {
      BarrenRun(D, work, start, done, r.hashesPerformed);
    }
  }

  /** The branch for a backend that reports a nonce which does not win is not taken. */
  ghost predicate Confirmed(D: Hasher, work: MiningWork, nonce: Word, handled: Handled)
    requires |work.headerBytes| == HEADER_SIZE
  {
    !handled.Mismatch? && Submits(D, work, nonce, handled.share)
  }

  /** Every share wins, and its outcome is that of a confirmed winner. */
  ghost predicate AllWin(D: Hasher, work: MiningWork, shares: seq<Word>, outcomes: seq<Handled>)
    requires |work.headerBytes| == HEADER_SIZE
  {
    && |outcomes| == |shares|
    && forall i :: 0 <= i < |shares| ==> Wins(D, work, shares[i]) && Confirmed(D, work, shares[i], outcomes[i])
  }

  lemma NoneYet(D: Hasher, work: MiningWork)
    requires |work.headerBytes| == HEADER_SIZE
    ensures AllWin(D, work, [], [])
  {
  }

  lemma OneMoreWins(D: Hasher, work: MiningWork, shares: seq<Word>, outcomes: seq<Handled>, nonce: Word, handled: Handled)
    requires |work.headerBytes| == HEADER_SIZE && AllWin(D, work, shares, outcomes)
    requires Wins(D, work, nonce) && !handled.Mismatch? && Submits(D, work, nonce, handled.share)
    ensures AllWin(D, work, shares + [nonce], outcomes + [handled])
  {
    hide Wins, Submits;
  }

  /**
   * The inner loop of workerLoop on the CPU backend. current(k) is whether, before chunk k, mining is still running
   * and the job still of this generation; stop(k, 0) is the stop flag there and stop(k, j + 1) at check j inside the
   * chunk; taken(k) is whether the pool client takes a share found in chunk k.
   */
  method SweepWork(D: Hasher, work: MiningWork, start: Word,
                   current: nat -> bool, stop: (nat, nat) -> bool, taken: nat -> bool)
    returns (s: Sweep, ghost hashed: seq<seq<Byte>>)
    requires |work.headerBytes| == HEADER_SIZE && work.valid && Sticky(stop)
    // What the search hashes is one contiguous circular run from start, no header twice; the shares are its winners.
    ensures s.hashes <= NONCES && hashed == Scan(work, start, s.hashes)
    ensures forall i, j :: 0 <= i < j < |hashed| ==> hashed[i] != hashed[j]
    ensures s.shares == Winners(D, work, start, s.hashes)
    // A completed sweep that saw no stop ends at the first point where hashes and shares together reach 2^32.
    ensures s.remaining == 0 && (forall k: nat, j: nat :: !stop(k, j)) ==>
      NONCES <= s.hashes + |s.shares| <= NONCES + 1 && Within(D, work, start, s.hashes - 1)
    // It then covers all 2^32 nonces exactly when none but the last of them wins.
    ensures s.remaining == 0 && (forall k: nat, j: nat :: !stop(k, j)) ==>
      (s.hashes == NONCES <==> Barren(D, work, start, NONCES - 1))
    // Work that is no longer current before chunk k has been hashed in at most k chunks of 2^18.
    ensures forall k: nat :: !current(k) ==> s.hashes <= 0x4_0000 * k
    // Every share wins, was confirmed, and was either handed over or counted as stale.
    ensures AllWin(D, work, s.shares, s.outcomes)
    ensures s.remaining > 0 ==> exists k: nat :: !current(k) || stop(k, 0)
  {
    hide Winners, Wins, Reports, Barren, Submits, HashOf, HashAt, NonceAt, Scan, Within, Value, LeValue, WithNonce,
      AllWin, Confirmed;
    s, hashed := Sweep(0, [], NONCES, []), [];
    SweepStart(D, work, start);
    NoneYet(D, work);
    var nonce: Word := start;
    var k: nat := 0;
    ghost var stopped := false;
    while s.remaining > 0 && current(k) && !stop(k, 0)
      invariant stopped ==> stop(k, 0)
      invariant s.remaining <= NONCES && s.hashes + |s.shares| <= NONCES + 1 && s.hashes <= NONCES
      invariant !stopped ==> nonce == NonceAt(start, s.hashes)
      invariant !stopped ==> s.remaining == if s.hashes + |s.shares| <= NONCES then NONCES - s.hashes - |s.shares| else 0
      invariant s.shares == Winners(D, work, start, s.hashes) && hashed == Scan(work, start, s.hashes)
      invariant s.remaining < NONCES && !stopped ==> s.hashes > 0
      invariant s.hashes > 0 ==> Within(D, work, start, s.hashes - 1)
      invariant AllWin(D, work, s.shares, s.outcomes)
      invariant s.hashes <= 0x4_0000 * k && forall k': nat :: k' < k ==> current(k')
      invariant stopped ==> exists k': nat, j: nat :: stop(k', j)
      decreases s.remaining
    {
      var chunk := if s.remaining < CPU_CHUNK then s.remaining else CPU_CHUNK;
      var result, run := Mine(D, work, nonce, chunk, (i: nat) => stop(k, i + 1));
      ChunkExtends(D, work, start, s.hashes, result);
      StaysWithin(D, work, start, s.hashes, result.hashesPerformed);
      ScanConcat(work, start, s.hashes, result.hashesPerformed);
      hashed := hashed + run;
      s := s.(hashes := s.hashes + result.hashesPerformed);
      if result.found {
        var handled := HandleFoundNonce(D, work, result.nonce, taken(k));
        OneMoreWins(D, work, s.shares, s.outcomes, result.nonce, handled);
        var charge := result.hashesPerformed + 1;
        s := s.(shares := s.shares + [result.nonce], outcomes := s.outcomes + [handled],
                remaining := if s.remaining > charge then s.remaining - charge else 0);
        nonce := (result.nonce + 1) % NONCES;
      } else {
        if result.hashesPerformed < chunk {
          assert stop(k, result.hashesPerformed + 1);
          stopped := true;
        }
        NonceShift(start, s.hashes - result.hashesPerformed, chunk);
        nonce := NonceAt(nonce, chunk);
        s := s.(remaining := s.remaining - chunk);
      }
      k := k + 1;
    }
    ScanWithoutRepeats(work, start, s.hashes);
    if s.remaining == 0 && !stopped { FullSweep(D, work, start, s.hashes); }
  }

  /** After n nonces the sweep has not yet charged for 2^32. */
  ghost predicate Within(D: Hasher, work: MiningWork, start: Word, n: int)
    requires |work.headerBytes| == HEADER_SIZE
  {
    n >= 0 && n + |Winners(D, work, start, n)| < NONCES
  }

  lemma StaysWithin(D: Hasher, work: MiningWork, start: Word, done: nat, n: nat)
    requires |work.headerBytes| == HEADER_SIZE
    requires n > 0 ==> Winners(D, work, start, done + n - 1) == Winners(D, work, start, done)
    ensures n > 0 && done + n - 1 + |Winners(D, work, start, done)| < NONCES ==> Within(D, work, start, done + n - 1)
  {
  }

  lemma {:induction false} WinnersGrow(D: Hasher, work: MiningWork, start: Word, m: nat, n: nat)
    requires |work.headerBytes| == HEADER_SIZE && m <= n
    ensures |Winners(D, work, start, m)| <= |Winners(D, work, start, n)|
    decreases n - m
  {
    if m < n { WinnersGrow(D, work, start, m, n - 1); }
  }

  lemma {:induction false} NoWinners(D: Hasher, work: MiningWork, start: Word, n: nat)
    requires |work.headerBytes| == HEADER_SIZE
    ensures |Winners(D, work, start, n)| == 0 <==> Barren(D, work, start, n)
  {
    if n > 0 {
      NoWinners(D, work, start, n - 1);
      if Barren(D, work, start, n - 1) && !Wins(D, work, NonceAt(start, n - 1)) {
        forall i: nat | i < n ensures !Wins(D, work, NonceAt(start, i)) {
          assert i < n - 1 || i == n - 1;
        }
      }
    }
  }

  /** A completed sweep covers every nonce exactly when no share was found before the last one. */
  lemma FullSweep(D: Hasher, work: MiningWork, start: Word, n: nat)
    requires |work.headerBytes| == HEADER_SIZE && n <= NONCES
    requires Within(D, work, start, n - 1) && NONCES <= n + |Winners(D, work, start, n)|
    ensures n == NONCES <==> Barren(D, work, start, NONCES - 1)
  {
    hide Winners, Barren;
    NoWinners(D, work, start, NONCES - 1);
    WinnersGrow(D, work, start, n, if n < NONCES then NONCES - 1 else n);
  }
}

/** The host side of the GPU search: CudaMiningBackend::mine of src/cuda/cuda_backend.cu. */
module CudaMiner {
  import opened Bytes
  import opened Header
  import opened Merkle
  import opened Uint256
  import opened Uint256Hash
  import opened Work
  import opened CpuMiner
  import opened Kernel
  import ShareDifficulty

  const LAUNCH_SIZE: nat := 0x40_0000
  const THREADS_PER_BLOCK: nat := 256

  /** What the CUDA runtime answers: why the device is not usable, and the error of the copies or of chunk k, if any. */
  datatype Device = Device(reason: string, upload: string, fault: nat -> string)

  ghost predicate Healthy(d: Device) { d.reason == "" && d.upload == "" && forall k :: d.fault(k) == "" }

  /** A launch over the nonces from offset on finds something exactly when one of them wins. */
  lemma LaunchIsScan(D: Hasher, work: MiningWork, target: Hash256, start: Word, offset: nat, chunk: nat,
                     found: bool, nonce: Word)
    requires |work.headerBytes| == HEADER_SIZE && LeValue(target) == Value(work.shareTarget) != 0
    requires found <==> exists i: nat :: i < chunk && Hits(D, work.headerBytes, target, NonceAt(start, offset), i)
    requires found ==>
      exists i: nat :: HitAt(D, work.headerBytes, target, NonceAt(start, offset), chunk, nonce, i)
    requires Barren(D, work, start, offset)
    ensures !found ==> Barren(D, work, start, offset + chunk)
    ensures found ==> Wins(D, work, nonce) && exists i: nat :: offset <= i < offset + chunk && nonce == NonceAt(start, i)
  {
    hide LeValue, HashAt, NonceAt;
    if found {
      var i: nat :| HitAt(D, work.headerBytes, target, NonceAt(start, offset), chunk, nonce, i);
      NonceShift(start, offset, i);
      assert nonce == NonceAt(start, offset + i);
    } else {
      forall i: nat | i < offset + chunk ensures !Wins(D, work, NonceAt(start, i)) {
        if i >= offset {
          NonceShift(start, offset, i - offset);
          assert !Hits(D, work.headerBytes, target, NonceAt(start, offset), i - offset);
        }
      }
    }
  }

  /** A nonce of the run from start, no further than n. */
  ghost predicate InRun(start: Word, n: nat, nonce: Word) { exists i: nat :: i < n && nonce == NonceAt(start, i) }

  ghost predicate HeaderInRun(work: MiningWork, start: Word, n: nat, header: seq<Byte>)
    requires |work.headerBytes| == HEADER_SIZE
  {
    exists i: nat :: i < n && header == WithNonce(work.headerBytes, NonceAt(start, i))
  }

  /** Nothing but headers of the run is hashed. */
  ghost predicate OnlyFrom(work: MiningWork, start: Word, n: nat, hashed: seq<seq<Byte>>)
    requires |work.headerBytes| == HEADER_SIZE
  {
    forall h :: h in hashed ==> HeaderInRun(work, start, n, h)
  }

  lemma OnlyFromMore(work: MiningWork, start: Word, m: nat, n: nat, hashed: seq<seq<Byte>>)
    requires |work.headerBytes| == HEADER_SIZE && OnlyFrom(work, start, m, hashed) && m <= n
    ensures OnlyFrom(work, start, n, hashed)
  {
    forall h | h in hashed ensures HeaderInRun(work, start, n, h) {
      assert HeaderInRun(work, start, m, h);
    }
  }

  /** A run from where another ended continues it. */
  lemma OnlyFromShift(work: MiningWork, start: Word, offset: nat, chunk: nat, hashed: seq<seq<Byte>>, more: seq<seq<Byte>>)
    requires |work.headerBytes| == HEADER_SIZE && OnlyFrom(work, start, offset + chunk, hashed)
    requires OnlyFrom(work, NonceAt(start, offset), chunk, more)
    ensures OnlyFrom(work, start, offset + chunk, hashed + more)
  {
    hide WithNonce, NonceAt;
    forall h | h in more ensures HeaderInRun(work, start, offset + chunk, h) {
      assert HeaderInRun(work, NonceAt(start, offset), chunk, h);
      var i: nat :| i < chunk && h == WithNonce(work.headerBytes, NonceAt(NonceAt(start, offset), i));
      NonceShift(start, offset, i);
      assert offset + i < offset + chunk && h == WithNonce(work.headerBytes, NonceAt(start, offset + i));
    }
  }

  lemma AllHashedShift(work: MiningWork, start: Word, offset: nat, chunk: nat, hashed: seq<seq<Byte>>, more: seq<seq<Byte>>)
    requires |work.headerBytes| == HEADER_SIZE && AllHashed(work.headerBytes, start, offset, hashed)
    requires AllHashed(work.headerBytes, NonceAt(start, offset), chunk, more)
    ensures AllHashed(work.headerBytes, start, offset + chunk, hashed + more)
  {
    hide WithNonce, NonceAt;
    forall i: nat | i < offset + chunk ensures WithNonce(work.headerBytes, NonceAt(start, i)) in hashed + more {
      if i >= offset {
        NonceShift(start, offset, i - offset);
        assert WithNonce(work.headerBytes, NonceAt(NonceAt(start, offset), i - offset)) in more;
      }
    }
  }

  lemma AllHashedPrefix(work: MiningWork, start: Word, n: nat, hashed: seq<seq<Byte>>, more: seq<seq<Byte>>)
    requires |work.headerBytes| == HEADER_SIZE && AllHashed(work.headerBytes, start, n, hashed)
    ensures AllHashed(work.headerBytes, start, n, hashed + more)
  {
    hide WithNonce, NonceAt;
  }

  lemma FoundNotBarren(D: Hasher, work: MiningWork, start: Word, n: nat, m: nat, nonce: Word)
    requires |work.headerBytes| == HEADER_SIZE && Wins(D, work, nonce) && InRun(start, m, nonce) && m <= n
    ensures !Barren(D, work, start, n)
  {
  }

  /** Where the last of the launches that cover n nonces began. */
  function LaunchStart(n: nat): nat { if n == 0 then 0 else (n - 1) / LAUNCH_SIZE * LAUNCH_SIZE }

  /**
   * A correct report of launches over the first hashesPerformed nonces: those before the launch with the find, if any, are
   * hashed and none of them wins, and nothing else than nonces of the run is hashed.
   */
  ghost predicate ReportsLaunches(D: Hasher, work: MiningWork, start: Word, r: MiningResult, hashed: seq<seq<Byte>>)
    requires |work.headerBytes| == HEADER_SIZE
  {
    var n := if r.found then LaunchStart(r.hashesPerformed) else r.hashesPerformed;
    && Barren(D, work, start, n) && AllHashed(work.headerBytes, start, n, hashed)
    && OnlyFrom(work, start, r.hashesPerformed, hashed) && (r.found ==> InRun(start, r.hashesPerformed, r.nonce))
  }

  /** stop(k) is what the stop flag reads before launch k. */
  method Mine(D: Hasher, work: MiningWork, startNonce: Word, nonceCount: nat, stop: nat -> bool, device: Device)
    returns (result: MiningResult, ghost hashed: seq<seq<Byte>>)
    requires |work.headerBytes| == HEADER_SIZE
    requires work.valid ==> Value(work.shareTarget) != 0
    ensures !work.valid ==> result.Error()
    ensures result.Error() ==> !result.found && (!work.valid || !Healthy(device))
    ensures result.found ==>
      && Wins(D, work, result.nonce) && result.hash == HashOf(D, work, result.nonce)
      && (result.meetsNetworkTarget <==> ShareDifficulty.Meets(LeValue(result.hash), Value(work.networkTarget)))
    ensures !result.Error() ==> ReportsLaunches(D, work, startNonce, result, hashed)
    ensures result.Error() ==> OnlyFrom(work, startNonce, nonceCount, hashed)
    // Whole launches are counted: exactly what was hashed when nothing was found, at most a launch too many otherwise;
    // see Kernel.HashesCounted.
    ensures !result.Error() ==> |hashed| <= result.hashesPerformed <= |hashed| + if result.found then 0x40_0000 else 0
    ensures result.hashesPerformed == nonceCount
      || (result.hashesPerformed < nonceCount && result.hashesPerformed % 0x40_0000 == 0)
    ensures !result.Error() && !result.found ==> result.hashesPerformed == nonceCount || exists k :: stop(k)
    ensures work.valid && Healthy(device) && (forall k :: !stop(k)) ==>
      !result.Error() && (result.found <==> !Barren(D, work, startNonce, nonceCount))
  {
    hide LeValue, HashAt, NonceAt, Wins, HashOf, Barren, InRun, LaunchStart, HeaderInRun, WithNonce, Value, OnlyFrom,
      AllHashed;
    NothingScanned(D, work, startNonce, nonceCount);
    result, hashed := NoResult(), [];
    if !work.valid { return result.(errorMessage := "invalid work"), []; }
    if device.reason != "" { return result.(errorMessage := device.reason), []; }
    if nonceCount == 0 { return; }
    var target := ToHash(work.shareTarget);
    if device.upload != "" { return result.(errorMessage := device.upload), []; }

    var remaining, offset, hashesDone, k := nonceCount, 0, 0, 0;
    while remaining > 0
      invariant remaining >= 0 && offset == hashesDone == nonceCount - remaining
      invariant |hashed| == hashesDone && OnlyFrom(work, startNonce, hashesDone, hashed)
      invariant AllHashed(work.headerBytes, startNonce, offset, hashed)
      invariant remaining == 0 || offset % LAUNCH_SIZE == 0
      invariant Barren(D, work, startNonce, offset) && result == NoResult() && k >= 0
      decreases remaining
    {
      if stop(k) { break; }
      var chunk: nat := if remaining < LAUNCH_SIZE then remaining else LAUNCH_SIZE;
      if device.fault(k) != "" {
        OnlyFromMore(work, startNonce, hashesDone, nonceCount, hashed);
        return result.(errorMessage := device.fault(k)), hashed;
      }
      var blocks := (chunk + THREADS_PER_BLOCK - 1) / THREADS_PER_BLOCK;
      var start := NonceAt(startNonce, offset);
      var found, nonce, more := RunKernel(D, work.headerBytes, target, start, chunk, blocks * THREADS_PER_BLOCK);
      LaunchHashes(work, startNonce, offset, chunk, hashed, found, more);
      hashed := hashed + more;
      LaunchIsScan(D, work, target, startNonce, offset, chunk, found, nonce);
      hashesDone := hashesDone + chunk;
      if found {
        LastLaunch(offset, chunk);
        FoundInRun(startNonce, offset, chunk, nonce);
        FoundNotBarren(D, work, startNonce, nonceCount, hashesDone, nonce);
        var hash := HashWorkAtNonce(D, work, nonce);
        HashOfIs(D, work, nonce);
        var network := ShareDifficulty.HashMeetsTarget(hash, work.networkTarget);
        result := result.(found := true, nonce := nonce, hash := hash, meetsNetworkTarget := network);
        break;
      }
      offset := offset + chunk;
      remaining := remaining - chunk;
      k := k + 1;
    }
    result := result.(hashesPerformed := hashesDone);
  }

  lemma LastLaunch(offset: nat, chunk: nat)
    requires offset % LAUNCH_SIZE == 0 && 0 < chunk <= LAUNCH_SIZE
    ensures LaunchStart(offset + chunk) == offset
  {
  }

  lemma NothingScanned(D: Hasher, work: MiningWork, start: Word, n: nat)
    requires |work.headerBytes| == HEADER_SIZE
    ensures Barren(D, work, start, 0) && AllHashed(work.headerBytes, start, 0, [])
    ensures OnlyFrom(work, start, 0, []) && OnlyFrom(work, start, n, [])
  {
  }

  /** What one launch adds to what was hashed. */
  lemma LaunchHashes(work: MiningWork, start: Word, offset: nat, chunk: nat, hashed: seq<seq<Byte>>, found: bool,
                     more: seq<seq<Byte>>)
    requires |work.headerBytes| == HEADER_SIZE
    requires OnlyFrom(work, start, offset, hashed) && AllHashed(work.headerBytes, start, offset, hashed)
    requires forall h :: h in more ==>
      exists i: nat :: i < chunk && h == WithNonce(work.headerBytes, NonceAt(NonceAt(start, offset), i))
    requires !found ==> AllHashed(work.headerBytes, NonceAt(start, offset), chunk, more)
    ensures OnlyFrom(work, start, offset + chunk, hashed + more)
    ensures AllHashed(work.headerBytes, start, if found then offset else offset + chunk, hashed + more)
  {
    hide WithNonce, NonceAt, AllHashed;
    OnlyFromMore(work, start, offset, offset + chunk, hashed);
    OnlyFromShift(work, start, offset, chunk, hashed, more);
    AllHashedPrefix(work, start, offset, hashed, more);
    if !found { AllHashedShift(work, start, offset, chunk, hashed, more); }
  }

  lemma HashOfIs(D: Hasher, work: MiningWork, nonce: Word)
    requires |work.headerBytes| == HEADER_SIZE
    ensures HashOf(D, work, nonce) == HashAt(D, work.headerBytes, nonce)
  {
  }

  lemma FoundInRun(start: Word, offset: nat, chunk: nat, nonce: Word)
    requires exists i: nat :: offset <= i < offset + chunk && nonce == NonceAt(start, i)
    ensures InRun(start, offset + chunk, nonce)
  {
  }

  // ---- A sweep on the GPU ------------------------------------------------

  const GPU_CHUNK: nat := 0x100_0000

  /** Where a reported winner stands: in the last launch counted. */
  lemma FoundAt(D: Hasher, work: MiningWork, start: Word, r: MiningResult, hashed: seq<seq<Byte>>) returns (i: nat)
    requires |work.headerBytes| == HEADER_SIZE && r.found && Wins(D, work, r.nonce)
    requires ReportsLaunches(D, work, start, r, hashed)
    ensures LaunchStart(r.hashesPerformed) <= i < r.hashesPerformed && r.nonce == NonceAt(start, i)
  {
    hide Wins, NonceAt, LaunchStart;
    i :| i < r.hashesPerformed && r.nonce == NonceAt(start, i);
  }

  lemma LaunchIsWhole(n: nat)
    ensures LaunchStart(n) % LAUNCH_SIZE == 0 && n <= LaunchStart(n) + LAUNCH_SIZE
  {
  }

  /** How far a sweep has come, where in it the shares stand, oldest first, and all that the device has hashed. */
  datatype Trace = Trace(covered: nat, places: seq<nat>, hashed: seq<seq<Byte>>)

  /** Where the search for share k began: right after share k - 1. */
  function Origin(places: seq<nat>, k: nat): nat
    requires k <= |places|
  {
    if k == 0 then 0 else places[k - 1] + 1
  }

  /** Where the launch began that reported share k. */
  function LaunchOf(places: seq<nat>, k: nat): int
    requires k < |places|
  {
    Origin(places, k) + (places[k] - Origin(places, k)) / LAUNCH_SIZE * LAUNCH_SIZE
  }

  /** In a launch that reported a share, no further than the share. */
  ghost predicate InShareLaunch(places: seq<nat>, q: nat) {
    exists k :: 0 <= k < |places| && LaunchOf(places, k) <= q <= places[k]
  }

  ghost predicate SharePlaced(D: Hasher, work: MiningWork, start: Word, t: Trace, k: nat, nonce: Word)
    requires |work.headerBytes| == HEADER_SIZE && k < |t.places|
  {
    Origin(t.places, k) <= t.places[k] < t.covered && nonce == NonceAt(start, t.places[k]) && Wins(D, work, nonce)
  }

  /** The shares win and stand at their places, one after the other. */
  ghost predicate Placed(D: Hasher, work: MiningWork, start: Word, t: Trace, shares: seq<Word>)
    requires |work.headerBytes| == HEADER_SIZE
  {
    && |t.places| == |shares| && Origin(t.places, |shares|) <= t.covered
    && forall k :: 0 <= k < |shares| ==> SharePlaced(D, work, start, t, k, shares[k])
  }

  /** The nonce at this place does not win, and the device has hashed its header. */
  ghost predicate Missed(D: Hasher, work: MiningWork, start: Word, hashed: seq<seq<Byte>>, q: nat)
    requires |work.headerBytes| == HEADER_SIZE
  {
    !Wins(D, work, NonceAt(start, q)) && WithNonce(work.headerBytes, NonceAt(start, q)) in hashed
  }

  /** Whatever the sweep has passed over outside the launches of its shares was hashed and does not win. */
  ghost predicate Searched(D: Hasher, work: MiningWork, start: Word, t: Trace)
    requires |work.headerBytes| == HEADER_SIZE
  {
    forall q: nat :: q < t.covered ==> InShareLaunch(t.places, q) || Missed(D, work, start, t.hashed, q)
  }

  /** n more nonces, all of them hashed and none a winner. */
  lemma TraceMiss(D: Hasher, work: MiningWork, start: Word, t: Trace, shares: seq<Word>, n: nat, more: seq<seq<Byte>>)
    requires |work.headerBytes| == HEADER_SIZE
    requires Placed(D, work, start, t, shares) && Searched(D, work, start, t)
    requires Barren(D, work, NonceAt(start, t.covered), n)
    requires AllHashed(work.headerBytes, NonceAt(start, t.covered), n, more)
    ensures var t' := Trace(t.covered + n, t.places, t.hashed + more);
      Placed(D, work, start, t', shares) && Searched(D, work, start, t')
  {
    hide Wins, NonceAt, WithNonce, InShareLaunch;
    var t' := Trace(t.covered + n, t.places, t.hashed + more);
    forall k | 0 <= k < |shares| ensures SharePlaced(D, work, start, t', k, shares[k]) {
      assert SharePlaced(D, work, start, t, k, shares[k]);
    }
    forall q: nat | q < t'.covered && !InShareLaunch(t.places, q) ensures Missed(D, work, start, t'.hashed, q) {
      if q < t.covered {
        assert Missed(D, work, start, t.hashed, q);
      } else {
        NonceShift(start, t.covered, q - t.covered);
      }
    }
  }

  /** A share i nonces into a launch. */
  lemma TraceShare(D: Hasher, work: MiningWork, start: Word, t: Trace, shares: seq<Word>, i: nat, nonce: Word)
    requires |work.headerBytes| == HEADER_SIZE
    requires Placed(D, work, start, t, shares) && Searched(D, work, start, t)
    requires (t.covered - Origin(t.places, |t.places|)) % LAUNCH_SIZE == 0 && i < LAUNCH_SIZE
    requires nonce == NonceAt(start, t.covered + i) && Wins(D, work, nonce)
    ensures var t' := Trace(t.covered + i + 1, t.places + [t.covered + i], t.hashed);
      Placed(D, work, start, t', shares + [nonce]) && Searched(D, work, start, t')
  {
    hide Wins, NonceAt, WithNonce, Missed;
    var p := t.covered + i;
    var t' := Trace(p + 1, t.places + [p], t.hashed);
    forall k | 0 <= k < |shares| ensures SharePlaced(D, work, start, t', k, (shares + [nonce])[k]) {
      assert SharePlaced(D, work, start, t, k, shares[k]);
    }
    assert LaunchOf(t'.places, |shares|) == t.covered;
    forall q: nat | q < t'.covered ensures InShareLaunch(t'.places, q) || Missed(D, work, start, t'.hashed, q) {
      if q < t.covered && InShareLaunch(t.places, q) {
        var k :| 0 <= k < |t.places| && LaunchOf(t.places, k) <= q <= t.places[k];
        assert LaunchOf(t'.places, k) <= q <= t'.places[k];
      }
    }
  }

  /** A sweep that went once round has no share exactly when no nonce wins. */
  lemma NoShareNoWinner(D: Hasher, work: MiningWork, start: Word, t: Trace, shares: seq<Word>)
    requires |work.headerBytes| == HEADER_SIZE
    requires Placed(D, work, start, t, shares) && Searched(D, work, start, t)
    requires if shares == [] then NONCES <= t.covered else t.covered <= NONCES
    ensures shares == [] <==> Barren(D, work, start, NONCES)
  {
    hide Wins, NonceAt;
    if shares == [] {
      forall i: nat | i < NONCES ensures !Wins(D, work, NonceAt(start, i)) {
        assert Missed(D, work, start, t.hashed, i);
      }
    } else {
      assert SharePlaced(D, work, start, t, 0, shares[0]);
    }
  }

  /**
   * The inner loop of workerLoop on the GPU backend, as CpuMiner.SweepWork is on the CPU; devices(k) is what the runtime
   * answers in chunk k. A share is charged up to the end of its launch and one nonce more, but the next chunk starts right
   * after the winner: a completed sweep leaves out at most one launch for every share. The only winners it can miss stand
   * before a share in the launch that reported it.
   */
  method SweepOnGpu(D: Hasher, work: MiningWork, start: Word, current: nat -> bool, stop: (nat, nat) -> bool,
                    devices: nat -> Device, taken: nat -> bool)
    returns (s: Sweep, failed: bool, next: Word, ghost t: Trace)
    requires |work.headerBytes| == HEADER_SIZE && work.valid && Value(work.shareTarget) != 0
    // Every share wins, was confirmed, and was handed over or counted as stale.
    ensures AllWin(D, work, s.shares, s.outcomes)
    // What was passed over is the shares, what their launches held before them, and nonces hashed without success.
    ensures Sticky(stop) ==> Placed(D, work, start, t, s.shares) && Searched(D, work, start, t)
    ensures Sticky(stop) ==> OnlyFrom(work, start, t.covered + if failed then 0x100_0000 else 0x40_0000, t.hashed)
    // Hashes are counted exactly but for at most a launch of 2^22 for every share.
    ensures !failed ==> |t.hashed| <= s.hashes <= |t.hashed| + 0x40_0000 * |s.shares|
    // A completed sweep that saw no stop goes round once, less at most a launch for every share.
    ensures !failed && s.remaining == 0 && (forall k: nat, j: nat :: !stop(k, j)) ==>
      && 0x1_0000_0000 - 0x40_0000 * |s.shares| <= t.covered && t.covered + |s.shares| <= NONCES + 1
      && (s.shares == [] <==> Barren(D, work, start, NONCES))
    ensures (forall k: nat, j: nat :: !stop(k, j)) ==> next == NonceAt(start, t.covered)
    // Work that is no longer current before chunk k has been hashed in at most k chunks of 2^24.
    ensures forall k: nat :: !current(k) ==> s.hashes <= 0x100_0000 * k
    ensures !failed && s.remaining > 0 ==> exists k: nat :: !current(k) || stop(k, 0)
    ensures failed ==> exists k: nat :: !Healthy(devices(k))
  {
    hide Wins, HashOf, Barren, InRun, NonceAt, Submits, LaunchStart, HeaderInRun, Healthy, WithNonce, HashAt, Value,
      Placed, Searched, OnlyFrom, AllHashed, Traced, OnTrack, AllWin, Confirmed, LeValue,
      ReportsLaunches, Sticky;
    s, failed, t := Sweep(0, [], NONCES, []), false, Trace(0, [], []);
    next := start;
    TraceStart(D, work, start);
    NoneYet(D, work);
    var k: nat := 0;
    ghost var stopped := false;
    while s.remaining > 0 && current(k) && !stop(k, 0)
      invariant stopped ==> (Sticky(stop) ==> stop(k, 0)) && exists k': nat, j: nat :: stop(k', j)
      invariant !stopped || Sticky(stop) ==> Traced(D, work, start, t, s.shares)
      invariant !stopped ==> OnTrack(start, t, |s.shares|, s.remaining, next)
      invariant |t.hashed| <= s.hashes <= |t.hashed| + LAUNCH_SIZE * |s.shares|
      invariant s.remaining <= NONCES && AllWin(D, work, s.shares, s.outcomes)
      invariant s.hashes <= 0x100_0000 * k && forall k': nat :: k' < k ==> current(k')
      decreases s.remaining
    {
      var chunk := if s.remaining < GPU_CHUNK then s.remaining else GPU_CHUNK;
      var flag := (i: nat) => stop(k, i + 1);
      var result, more := Mine(D, work, next, chunk, flag, devices(k));
      if result.Error() {
        failed := true;
        if !stopped { TraceFails(D, work, start, t, s.shares, s.remaining, next, chunk, more); }
        t := t.(hashed := t.hashed + more);
        return;
      }
      s := s.(hashes := s.hashes + result.hashesPerformed);
      if result.found {
        ghost var i := FoundAt(D, work, next, result, more);
        if !stopped { TraceFound(D, work, start, t, s.shares, s.remaining, next, result, more, i); }
        var handled := HandleFoundNonce(D, work, result.nonce, taken(k));
        OneMoreWins(D, work, s.shares, s.outcomes, result.nonce, handled);
        var charge := result.hashesPerformed + 1;
        t := Trace(t.covered + i + 1, t.places + [t.covered + i], t.hashed + more);
        s := s.(shares := s.shares + [result.nonce], outcomes := s.outcomes + [handled],
                remaining := if s.remaining > charge then s.remaining - charge else 0);
        next := (result.nonce + 1) % NONCES;
      } else {
        if !stopped { TraceChunk(D, work, start, t, s.shares, s.remaining, next, chunk, result, more); }
        if result.hashesPerformed < chunk {
          ghost var j: nat :| flag(j);
          StaysUp(stop, k, j + 1);
          stopped := true;
        }
        t := Trace(t.covered + result.hashesPerformed, t.places, t.hashed + more);
        next := (next + chunk) % NONCES;
        s := s.(remaining := s.remaining - chunk);
      }
      k := k + 1;
    }
    if !stopped || Sticky(stop) { TraceEnd(D, work, start, t, s.shares, s.remaining, next, stopped); }
  }

  lemma StaysUp(stop: (nat, nat) -> bool, k: nat, j: nat)
    requires stop(k, j)
    ensures Sticky(stop) ==> stop(k + 1, 0)
  {
  }

  /** Whole launches have been searched since the last share. */
  ghost predicate Aligned(t: Trace) {
    Origin(t.places, |t.places|) <= t.covered && (t.covered - Origin(t.places, |t.places|)) % LAUNCH_SIZE == 0
  }

  ghost predicate Traced(D: Hasher, work: MiningWork, start: Word, t: Trace, shares: seq<Word>)
    requires |work.headerBytes| == HEADER_SIZE
  {
    && Placed(D, work, start, t, shares) && Searched(D, work, start, t)
    && OnlyFrom(work, start, t.covered + LAUNCH_SIZE, t.hashed)
  }

  /** Nothing has been cut short: the next nonce is the one after those covered, and whole launches lie behind it. */
  ghost predicate OnTrack(start: Word, t: Trace, shares: nat, remaining: nat, next: Word) {
    && next == NonceAt(start, t.covered) && |t.places| == shares
    && Charged(t.covered, shares, remaining) && (remaining > 0 ==> Aligned(t))
  }

  lemma TraceStart(D: Hasher, work: MiningWork, start: Word)
    requires |work.headerBytes| == HEADER_SIZE
    ensures Traced(D, work, start, Trace(0, [], []), []) && OnTrack(start, Trace(0, [], []), 0, NONCES, start)
  {
  }

  lemma TraceEnd(D: Hasher, work: MiningWork, start: Word, t: Trace, shares: seq<Word>, remaining: nat,
                 next: Word, stopped: bool)
    requires |work.headerBytes| == HEADER_SIZE && Traced(D, work, start, t, shares)
    requires !stopped ==> OnTrack(start, t, |shares|, remaining, next)
    ensures Placed(D, work, start, t, shares) && Searched(D, work, start, t)
    ensures OnlyFrom(work, start, t.covered + LAUNCH_SIZE, t.hashed)
    ensures !stopped ==> next == NonceAt(start, t.covered)
    ensures !stopped && remaining == 0 ==>
      && NONCES - LAUNCH_SIZE * |shares| <= t.covered && t.covered + |shares| <= NONCES + 1
      && (shares == [] <==> Barren(D, work, start, NONCES))
  {
    hide Placed, Searched, OnlyFrom, Barren, Aligned, NonceAt;
    if !stopped && remaining == 0 { NoShareNoWinner(D, work, start, t, shares); }
  }

  /** What a sweep hashes next, with n nonces from where it has come to, stays below m. */
  lemma OnlyFromNext(work: MiningWork, start: Word, t: Trace, n: nat, more: seq<seq<Byte>>, m: nat)
    requires |work.headerBytes| == HEADER_SIZE && OnlyFrom(work, start, t.covered + LAUNCH_SIZE, t.hashed)
    requires OnlyFrom(work, NonceAt(start, t.covered), n, more) && n <= m && LAUNCH_SIZE <= m
    ensures OnlyFrom(work, start, t.covered + m, t.hashed + more)
  {
    hide NonceAt, OnlyFrom;
    OnlyFromMore(work, NonceAt(start, t.covered), n, m, more);
    OnlyFromMore(work, start, t.covered + LAUNCH_SIZE, t.covered + m, t.hashed);
    OnlyFromShift(work, start, t.covered, m, t.hashed, more);
  }

  /** What a chunk without a find adds. */
  lemma TraceChunk(D: Hasher, work: MiningWork, start: Word, t: Trace, shares: seq<Word>, remaining: nat,
                   next: Word, chunk: nat, r: MiningResult, more: seq<seq<Byte>>)
    requires |work.headerBytes| == HEADER_SIZE && Traced(D, work, start, t, shares)
    requires OnTrack(start, t, |shares|, remaining, next)
    requires 0 < remaining <= NONCES && chunk == (if remaining < GPU_CHUNK then remaining else GPU_CHUNK)
    requires ReportsLaunches(D, work, next, r, more) && !r.found
    ensures var t' := Trace(t.covered + r.hashesPerformed, t.places, t.hashed + more);
      && Traced(D, work, start, t', shares)
      && (r.hashesPerformed == chunk ==> OnTrack(start, t', |shares|, remaining - chunk, (next + chunk) % NONCES))
  {
    hide Wins, NonceAt, Placed, Searched, OnlyFrom, Barren, AllHashed, Charged;
    var n := r.hashesPerformed;
    TraceMiss(D, work, start, t, shares, n, more);
    OnlyFromNext(work, start, t, n, more, n + LAUNCH_SIZE);
    assert t.covered + (n + LAUNCH_SIZE) == t.covered + n + LAUNCH_SIZE;
    AfterChunk(start, t.covered, chunk);
    ChargeChunk(t.covered, |shares|, remaining, chunk);
  }

  /** What a chunk of n nonces adds that ends in an error. */
  lemma TraceFails(D: Hasher, work: MiningWork, start: Word, t: Trace, shares: seq<Word>, remaining: nat,
                   next: Word, n: nat, more: seq<seq<Byte>>)
    requires |work.headerBytes| == HEADER_SIZE && Traced(D, work, start, t, shares)
    requires OnTrack(start, t, |shares|, remaining, next)
    requires OnlyFrom(work, next, n, more) && n <= GPU_CHUNK
    ensures var t' := t.(hashed := t.hashed + more);
      && Placed(D, work, start, t', shares) && Searched(D, work, start, t')
      && OnlyFrom(work, start, t.covered + GPU_CHUNK, t'.hashed) && next == NonceAt(start, t.covered)
  {
    hide Wins, NonceAt, Placed, Searched, OnlyFrom;
    TraceMiss(D, work, start, t, shares, 0, more);
    OnlyFromNext(work, start, t, n, more, GPU_CHUNK);
  }

  /** What a find in the next chunk adds: the launches before its own, and the share. */
  lemma TraceFound(D: Hasher, work: MiningWork, start: Word, t: Trace, shares: seq<Word>, remaining: nat,
                   next: Word, r: MiningResult, more: seq<seq<Byte>>, i: nat)
    requires |work.headerBytes| == HEADER_SIZE && Traced(D, work, start, t, shares)
    requires OnTrack(start, t, |shares|, remaining, next)
    requires ReportsLaunches(D, work, next, r, more) && r.found && r.hashesPerformed <= remaining <= NONCES
    requires LaunchStart(r.hashesPerformed) <= i < r.hashesPerformed
    requires r.nonce == NonceAt(next, i) && Wins(D, work, r.nonce)
    ensures var t' := Trace(t.covered + i + 1, t.places + [t.covered + i], t.hashed + more);
      && Traced(D, work, start, t', shares + [r.nonce])
      && OnTrack(start, t', |shares| + 1, Left(remaining, r.hashesPerformed), (r.nonce + 1) % NONCES)
  {
    hide Wins, NonceAt, Placed, Searched, OnlyFrom, Barren, AllHashed, LaunchStart, Charged;
    var n, nonce := r.hashesPerformed, r.nonce;
    LaunchIsWhole(n);
    TraceMiss(D, work, start, t, shares, LaunchStart(n), more);
    NonceShift(start, t.covered, i);
    var u := Trace(t.covered + LaunchStart(n), t.places, t.hashed + more);
    TraceShare(D, work, start, u, shares, i - LaunchStart(n), nonce);
    OnlyFromNext(work, start, t, n, more, i + 1 + LAUNCH_SIZE);
    assert t.covered + (i + 1 + LAUNCH_SIZE) == t.covered + i + 1 + LAUNCH_SIZE;
    AfterWinner(start, t.covered, i, nonce);
    ChargeShare(t.covered, |shares|, remaining, i, n);
  }

  /** What a find after n hashes leaves of remaining. */
  function Left(remaining: nat, n: nat): nat { if remaining > n + 1 then remaining - (n + 1) else 0 }

  lemma AfterWinner(start: Word, covered: nat, i: nat, nonce: Word)
    ensures nonce == NonceAt(NonceAt(start, covered), i) ==> (nonce + 1) % NONCES == NonceAt(start, covered + i + 1)
  {
  }

  lemma AfterChunk(start: Word, covered: nat, chunk: nat)
    ensures (NonceAt(start, covered) + chunk) % NONCES == NonceAt(start, covered + chunk)
  {
  }

  /** How far the charges of a sweep can run ahead of the nonces it has passed over. */
  ghost predicate Charged(covered: nat, shares: nat, remaining: nat) {
    && NONCES - remaining <= covered + LAUNCH_SIZE * shares
    && covered + shares <= NONCES + 1 && (remaining > 0 ==> covered + shares <= NONCES - remaining)
  }

  lemma ChargeShare(covered: nat, shares: nat, remaining: nat, i: nat, hashes: nat)
    requires 0 < remaining <= NONCES && i < hashes <= remaining && hashes <= i + LAUNCH_SIZE
    ensures Charged(covered, shares, remaining) ==>
      Charged(covered + i + 1, shares + 1, Left(remaining, hashes))
  {
  }

  lemma ChargeChunk(covered: nat, shares: nat, remaining: nat, chunk: nat)
    requires 0 < chunk <= remaining <= NONCES
    ensures Charged(covered, shares, remaining) ==> Charged(covered + chunk, shares, remaining - chunk)
  {
  }
}

/** From a winning nonce to the pool's verdict, across search, submission, wire and mock pool. */
module ShareRoundTrip {
  import opened Arith
  import opened Bytes
  import opened CompactBits
  import opened CpuMiner
  import opened Header
  import opened HeaderRoundTrip
  import opened Hex
  import opened Merkle
  import opened MockPool
  import opened Session
  import opened StratumMessage
  import opened Uint256
  import opened Uint256Hash
  import opened Work
  import opened Wrappers
  import PoolVerdict
  import ShareDifficulty

  /** The parameters of the submit line for a share: flushOutboundQueue in src/stratum/client.cpp. */
  function SubmitFields(username: string, share: ShareSubmission): seq<string> {
    [username, share.jobId, share.extranonce2Hex, HexText(BeBytes(share.nTime, 4)), HexText(BeBytes(share.nonce, 4))]
  }

  /**
   * Every share for a job of this pool reaches the pool as the header that was hashed; and its hash reaches the
   * job's difficulty exactly when the controller's verification passed.
   */
  lemma ShareChecksOut(D: Hasher, jobs: map<string, PoolJob>, pool: PoolJob, cleanJobs: bool, extranonce1: seq<Byte>,
                       size: nat, username: string, job: MiningJob, counter: nat, work: MiningWork, nonce: Word,
                       share: ShareSubmission)
    requires pool.jobId in jobs && jobs[pool.jobId] == pool
    requires Delivered(job, pool, cleanJobs, extranonce1, size) && Representable(job.difficulty)
    requires Built(D, job, BeBytes(counter, size), work) && Submits(D, work, nonce, share)
    ensures Decide(D, jobs, extranonce1, size, SubmitFields(username, share)) == Check(WithNonce(work.headerBytes, nonce))
    ensures Suffices(job, LeValue(D(WithNonce(work.headerBytes, nonce)))) <==> Wins(D, work, nonce)
  {
    hide Decide, Delivered, HexText, BeBytes, LeValue, Value, EffectiveTarget, Fold, Suffices;
    WinsByDifficulty(D, job, BeBytes(counter, size), work, nonce);
    PoolRebuildsHeader(D, jobs, pool, cleanJobs, extranonce1, size, username, job, counter, nonce);
    assert SubmitFields(username, share) == Submission(username, job, BeBytes(counter, size), nonce);
  }

  /** A nonce whose header, for this job and extranonce2, has a hash that reaches the difficulty in force. */
  ghost predicate Solves(D: Hasher, job: MiningJob, extranonce2: seq<Byte>, nonce: Word)
    requires Representable(job.difficulty)
  {
    Suffices(job, LeValue(HashAt(D, Serialize(HeaderOf(D, job, extranonce2)), nonce)))
  }

  /** A job that gives valid work. */
  ghost predicate Minable(job: MiningJob) { job.Valid() && NetworkTarget(job.nBits) != 0 }

  lemma SolvesIsWins(D: Hasher, job: MiningJob, extranonce2: seq<Byte>, work: MiningWork, nonce: Word)
    requires Representable(job.difficulty) && Built(D, job, extranonce2, work)
    ensures |work.headerBytes| == HEADER_SIZE && (Wins(D, work, nonce) <==> Solves(D, job, extranonce2, nonce))
  {
    hide Serialize, HeaderOf, LeValue, Value, EffectiveTarget, Suffices;
    WinsByDifficulty(D, job, extranonce2, work, nonce);
  }

  /**
   * The whole way: the pool notifies, a session completes the job, a worker builds and searches it, the winner is verified
   * and submitted, and the pool decides. The pool only ever checks a header whose hash reaches the difficulty it has set;
   * and accepts it when that difficulty has whole units; and when nothing stops the search, it is asked to exactly when
   * some nonce of the range has such a hash.
   */
  method FindAndSubmit(D: Hasher, jobs: map<string, PoolJob>, pool: PoolJob, cleanJobs: bool, session: ClientSession,
                       username: string, counter: nat, start: Word, count: nat, stop: nat -> bool)
    returns (job: Option<MiningJob>, decision: Option<Decision>)
    requires pool.jobId in jobs && jobs[pool.jobId] == pool && session.Valid()
    requires session.currentDifficulty < 18446744073709551616.0 && counter < Pow256(8)
    ensures job.Some? <==> |pool.jobId| > 0 && session.extranonce2Size > 0
    ensures job.Some? ==> job.value.difficulty == ShareDifficulty.Finite(session.currentDifficulty)
    ensures job.Some? ==> Delivered(job.value, pool, cleanJobs, session.extranonce1, session.extranonce2Size)
    ensures decision.Some? ==> job.Some? && decision.value.Check?
    ensures decision.Some? ==> Suffices(job.value, LeValue(D(decision.value.header)))
    ensures decision.Some? && 0.0 < session.currentDifficulty && PoolVerdict.Whole(session.currentDifficulty) ==>
      PoolVerdict.Accepts(LeValue(D(decision.value.header)), session.currentDifficulty)
    ensures decision.Some? ==>
      var bytes := Serialize(HeaderOf(D, job.value, BeBytes(counter, session.extranonce2Size)));
      exists i: nat :: i < count && decision.value.header == WithNonce(bytes, NonceAt(start, i))
    ensures job.Some? && Minable(job.value) && (forall i: nat :: i < count ==> !stop(i)) ==>
      (decision.Some? <==>
        exists i: nat :: i < count && Solves(D, job.value, BeBytes(counter, session.extranonce2Size), NonceAt(start, i)))
  {
    hide Describes, Completes, LeValue, Value, EffectiveTarget, Suffices, HeaderOf, Serialize, BeBytes, HexText, Submits;
    hide NetworkTarget, Decide, Fold, NonceAt, Pow256, Solves, EmptyWork, PoolVerdict.Accepts, PoolVerdict.Whole;
    JobIsDescribed(pool, cleanJobs);
    job := session.OnNotify(NotifyParams(pool, cleanJobs));
    decision := None;
    if job.None? { return; }
    var j := job.value;
    JobIsDelivered(j, pool, cleanJobs, session.extranonce1, session.extranonce2Size, session.currentDifficulty);
    var work := BuildWork(D, j, counter);
    if !work.valid { return; }
    ghost var extranonce2 := BeBytes(counter, session.extranonce2Size);
    forall nonce: Word ensures Wins(D, work, nonce) <==> Solves(D, j, extranonce2, nonce) {
      SolvesIsWins(D, j, extranonce2, work, nonce);
    }
    var result, _ := Mine(D, work, start, count, stop);
    if !result.found { return; }
    var handled := HandleFoundNonce(D, work, result.nonce, true);
    var time := ToBigEndianHex32(handled.share.nTime);
    var nonce := ToBigEndianHex32(handled.share.nonce);
    var fields := [username, handled.share.jobId, handled.share.extranonce2Hex, time, nonce];
    var d := HandleSubmit(D, jobs, session.extranonce1, session.extranonce2Size, fields);
    ShareChecksOut(D, jobs, pool, cleanJobs, session.extranonce1, session.extranonce2Size, username, j, counter, work,
                   result.nonce, handled.share);
    decision := Some(d);
    if session.currentDifficulty > 0.0 { PoolAgrees(j, session.currentDifficulty, D(d.header)); }
  }

  /** What reaches the difficulty of a job is what the pool accepts, when that difficulty has whole units. */
  lemma PoolAgrees(job: MiningJob, difficulty: real, hash: Hash256)
    requires job.difficulty == ShareDifficulty.Finite(difficulty) && 0.0 < difficulty < 18446744073709551616.0
    ensures PoolVerdict.Accepts(LeValue(hash), difficulty) ==> Suffices(job, LeValue(hash))
    ensures PoolVerdict.Whole(difficulty) && Suffices(job, LeValue(hash)) ==>
      PoolVerdict.Accepts(LeValue(hash), difficulty)
  {
    hide LeValue, Suffices, PoolVerdict.Accepts, PoolVerdict.Whole, ShareDifficulty.ShareTarget, ShareDifficulty.Meets;
    HashBound(hash);
    TargetIsDifficulty(job, LeValue(hash));
    ShareDifficulty.PositiveTarget(difficulty);
    PoolVerdict.NoShareWithheld(LeValue(hash), difficulty);
    if PoolVerdict.Whole(difficulty) { PoolVerdict.WholeUnitsAgree(LeValue(hash), difficulty); }
  }

  lemma JobIsDescribed(pool: PoolJob, cleanJobs: bool)
    ensures (exists parsed :: Describes(NotifyParams(pool, cleanJobs), parsed)) <==> |pool.jobId| > 0
  {
    hide Describes, NotifyParams;
    if |pool.jobId| > 0 {
      NotificationDescribes(pool, cleanJobs);
    }
    forall parsed | Describes(NotifyParams(pool, cleanJobs), parsed) ensures |pool.jobId| > 0 {
      JobHasName(pool, cleanJobs, parsed);
    }
  }

  lemma JobIsDelivered(job: MiningJob, pool: PoolJob, cleanJobs: bool, extranonce1: seq<Byte>, size: nat, difficulty: real)
    requires Completes(NotifyParams(pool, cleanJobs), extranonce1, size, difficulty, job)
    ensures job.difficulty == ShareDifficulty.Finite(difficulty) && job.extranonce2Size == size
    ensures Delivered(job, pool, cleanJobs, extranonce1, size)
  {
    hide Describes, NotifyParams;
  }
}

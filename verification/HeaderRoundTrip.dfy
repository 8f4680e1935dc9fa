/** The pool and the miner agree on every header, byte for byte. */
module HeaderRoundTrip {
  import opened Bytes
  import opened Chars
  import opened Hex
  import opened HashCodec
  import opened Header
  import opened JsonGrammar
  import opened JsonParser
  import opened JsonValue
  import opened Merkle
  import opened MockPool
  import opened Session
  import opened StratumMessage
  import opened TextLaws
  import opened Work
  import opened Wrappers
  import ShareDifficulty

  // ---- Two ways to swap, two ways to write numbers ------------------------

  lemma {:induction false} SwapSlicesAt(data: seq<Byte>, i: nat)
    requires |data| % 4 == 0 && i < |data|
    ensures SwapSlices(data)[i] == data[i / 4 * 4 + (3 - i % 4)]
    decreases |data|
  {
    hide SwapSlices;
    SwapFirstSlice(data);
    if i >= 4 {
      SwapSlicesAt(data[4..], i - 4);
      NextSlice(i);
    }
  }

  lemma SwapFirstSlice(data: seq<Byte>)
    requires |data| % 4 == 0 && |data| > 0
    ensures SwapSlices(data) == [data[3], data[2], data[1], data[0]] + SwapSlices(data[4..])
  {
  }

  lemma NextSlice(i: nat)
    requires i >= 4
    ensures (i - 4) / 4 * 4 + (3 - (i - 4) % 4) + 4 == i / 4 * 4 + (3 - i % 4)
  {
  }

  lemma SwapsAgree(h: Hash256)
    ensures SwapSlices(h) == SwapWords(h)
  {
    forall i | 0 <= i < 32 ensures SwapSlices(h)[i] == SwapWords(h)[i] {
      SwapSlicesAt(h, i);
    }
  }

  /** "%08x" writes the big-endian bytes. */
  lemma {:induction false} PaddedHexIsBytes(value: nat, size: nat)
    ensures PaddedHex(value, 2 * size) == HexText(BeBytes(value, size))
    decreases size
  {
    if size > 0 {
      PaddedHexIsBytes(value / 256, size - 1);
      HexTextConcat(BeBytes(value / 256, size - 1), [value % 256]);
      OneByteText(value % 256);
      TwoDigits(value, 2 * size);
    }
  }

  lemma OneByteText(b: Byte)
    ensures HexText([b]) == ByteText(b)
  {
  }

  lemma TwoDigits(value: nat, digits: nat)
    requires digits >= 2
    ensures PaddedHex(value, digits) == PaddedHex(value / 256, digits - 2) + ByteText(value % 256)
  {
    assert value / 16 / 16 == value / 256;
    assert value / 16 % 16 == value % 256 / 16 && value % 16 == value % 256 % 16;
    assert PaddedHex(value, digits) == PaddedHex(value / 16, digits - 1) + [HexChar(value % 16)];
    assert PaddedHex(value / 16, digits - 1) == PaddedHex(value / 256, digits - 2) + [HexChar(value / 16 % 16)];
  }

  /** Reading padded digits gives the number back. */
  lemma {:induction false} PaddedHexNumber(value: nat, digits: nat)
    ensures value < Power16(digits) ==> DigitsNumber(PaddedHex(value, digits)) == value
    decreases digits
  {
    if digits > 0 {
      var text := PaddedHex(value, digits);
      assert text[..digits - 1] == PaddedHex(value / 16, digits - 1);
      PaddedHexNumber(value / 16, digits - 1);
    }
  }

  function Power16(digits: nat): nat { if digits == 0 then 1 else 16 * Power16(digits - 1) }

  /** The pool reads back the number that the miner writes. */
  lemma WordIsRead(w: Word)
    ensures HexNumber(HexText(BeBytes(w, 4))) == Some(w as nat)
  {
    hide HexText, BeBytes;
    PaddedHexIsBytes(w, 4);
    assert Power16(4) == 0x1_0000;
    assert Power16(8) == 0x1_0000_0000;
    PaddedHexNumber(w, 8);
  }

  // ---- Notification ------------------------------------------------------

  /** The miner's view of a pool's job. */
  function Received(job: PoolJob, cleanJobs: bool): MiningJob {
    MiningJob(job.jobId, job.prevInternal, job.coinb1, job.coinb2, job.merkleBranches, job.version, job.nbits, job.ntime,
              cleanJobs, [], 0, ShareDifficulty.Finite(0.0))
  }

  /** A job with a name survives the notification unchanged, so ParseNotify returns exactly it. */
  lemma NotificationDescribes(job: PoolJob, cleanJobs: bool)
    requires |job.jobId| > 0
    ensures Describes(NotifyParams(job, cleanJobs), Received(job, cleanJobs))
  {
    hide Unhex, HexText, SwapWords, SwapSlices, BeBytes, PaddedHex;
    SwapsAgree(job.prevInternal);
    UnhexHexText(SwapWords(job.prevInternal));
    UnhexHexText(job.coinb1);
    UnhexHexText(job.coinb2);
    BranchesListed(job.merkleBranches);
    PaddedHexIsBytes(job.version, 4);
    PaddedHexIsBytes(job.nbits, 4);
    PaddedHexIsBytes(job.ntime, 4);
    UnhexHexText(BeBytes(job.version, 4));
    UnhexHexText(BeBytes(job.nbits, 4));
    UnhexHexText(BeBytes(job.ntime, 4));
  }

  lemma BranchesListed(branches: seq<Hash256>)
    ensures Lists(Array(BranchTexts(branches)), branches, |branches|)
  {
    hide Unhex, HexText;
    var list := Array(BranchTexts(branches));
    forall i | 0 <= i < |branches| ensures Unhex(list.At(i).AsString("")) == Some(branches[i]) {
      UnhexHexText(branches[i]);
    }
  }

  /** A session that accepts the pool's answer has the pool's extranonce; see ClientSession.OnSubscribed. */
  lemma SubscriptionSurvives(extranonce1: seq<Byte>, size: nat)
    ensures var answer := SubscribeAnswer(extranonce1, size);
      Unhex(answer.At(1).AsString("")) == Some(extranonce1) && AsInt(answer.At(2), -1) == size
    ensures var answer := SubscribeAnswer(extranonce1, size);
      SubscriptionId(answer.At(0), answer.At(0).Size()) == "cafebabe"
  {
    UnhexHexText(extranonce1);
  }

  /** The pool's set-up of a session: what it answers and sets is what the session then has. */
  method SetUp(session: ClientSession, extranonce1: seq<Byte>, size: nat, difficulty: real) returns (ok: bool)
    requires session.Valid() && difficulty > 0.0
    modifies session
    ensures session.Valid() && (ok <==> |extranonce1| > 0 && 0 < size <= 32)
    ensures ok ==> session.extranonce1 == extranonce1 && session.extranonce2Size == size
    ensures ok ==> session.currentDifficulty == difficulty
  {
    SubscriptionSurvives(extranonce1, size);
    ok := session.OnSubscribed(SubscribeAnswer(extranonce1, size));
    if !ok { return; }
    var changed := session.OnSetDifficulty(DifficultyParams(difficulty));
  }

  /** A difficulty sent as text counts as the number that it spells. */
  lemma DifficultyAsText(blank: string, n: Numeral, after: string)
    requires Spaced(blank) && WellFormed(n) && (n.exponent.Some? ==> |n.exponent.value.digits| > 0)
    requires |after| > 0 ==> after[0] == 0 as char
    ensures DecimalNumber(blank + NumeralText(n) + after) == Some(NumeralValue(n))
  {
    hide WellFormed, NumeralText, NumeralValue, NumberAt, SkipSpace, Spaced;
    var text, t := blank + NumeralText(n) + after, NumeralText(n);
    NumeralStarts(n);
    NumeralStops(n);
    assert Has(text, 0, blank) && Has(text, |blank|, t) && text[|blank|] == t[0] && text[|blank| + |t| - 1] == t[|t| - 1];
    assert |after| > 0 ==> text[|blank| + |t|] == after[0];
    SpaceRun(text, 0, blank);
    NumeralReadsAt(text, |blank|, n);
  }

  // ---- Submission --------------------------------------------------------

  /** What the miner submits: worker, job, and the hexadecimal extranonce2, time and nonce. */
  function Submission(worker: string, job: MiningJob, extranonce2: seq<Byte>, nonce: Word): seq<string> {
    [worker, job.jobId, HexText(extranonce2), HexText(BeBytes(job.nTime, 4)), HexText(BeBytes(nonce, 4))]
  }

  /** A job as a worker gets it: notified by the pool and completed by a session with this extranonce. */
  ghost predicate Delivered(job: MiningJob, pool: PoolJob, cleanJobs: bool, extranonce1: seq<Byte>, size: nat) {
    job.difficulty.Finite? && Completes(NotifyParams(pool, cleanJobs), extranonce1, size, job.difficulty.value, job)
  }

  /** For every job, counter and nonce, the header the pool checks is the header the miner hashed. */
  lemma PoolRebuildsHeader(D: Hasher, jobs: map<string, PoolJob>, pool: PoolJob, cleanJobs: bool, extranonce1: seq<Byte>,
                           size: nat, worker: string, job: MiningJob, counter: nat, nonce: Word)
    requires pool.jobId in jobs && jobs[pool.jobId] == pool
    requires Delivered(job, pool, cleanJobs, extranonce1, size)
    ensures var extranonce2 := BeBytes(counter, size);
      Decide(D, jobs, extranonce1, size, Submission(worker, job, extranonce2, nonce))
      == Check(WithNonce(Serialize(HeaderOf(D, job, extranonce2)), nonce))
  {
    hide Unhex, HexText, BeBytes, HexNumber, Serialize, Fold, Describes;
    var parsed :| Describes(NotifyParams(pool, cleanJobs), parsed)
      && job == parsed.(extranonce1 := extranonce1, extranonce2Size := size, difficulty := job.difficulty);
    JobHasName(pool, cleanJobs, parsed);
    NotificationDescribes(pool, cleanJobs);
    DescribesUnique(NotifyParams(pool, cleanJobs), parsed, Received(pool, cleanJobs));
    var extranonce2 := BeBytes(counter, size);
    UnhexHexText(extranonce2);
    WordIsRead(job.nTime);
    WordIsRead(nonce);
    HeadersAgree(D, pool, job, extranonce1, extranonce2, nonce);
  }

  lemma JobHasName(pool: PoolJob, cleanJobs: bool, parsed: MiningJob)
    requires Describes(NotifyParams(pool, cleanJobs), parsed)
    ensures |pool.jobId| > 0
  {
  }

  lemma HeadersAgree(D: Hasher, pool: PoolJob, job: MiningJob, extranonce1: seq<Byte>, extranonce2: seq<Byte>, nonce: Word)
    requires job == Received(pool, job.cleanJobs).(
      extranonce1 := extranonce1, extranonce2Size := job.extranonce2Size, difficulty := job.difficulty)
    ensures PoolHeader(D, pool, extranonce1, extranonce2, job.nTime, nonce)
      == Some(WithNonce(Serialize(HeaderOf(D, job, extranonce2)), nonce))
  {
  }
}

/** The pool's end of the protocol: scripts/mock_pool.py. */
module MockPool {
  import opened Bytes
  import opened Chars
  import opened Hex
  import opened Header
  import opened JsonValue
  import opened Merkle
  import opened Wrappers

  datatype PoolJob = PoolJob(
    jobId: string, prevInternal: Hash256, coinb1: seq<Byte>, coinb2: seq<Byte>, merkleBranches: seq<Hash256>,
    version: Word, nbits: Word, ntime: Word)

  /** Each 4-byte slice reversed, joined. */
  function SwapSlices(data: seq<Byte>): (swapped: seq<Byte>)
    requires |data| % 4 == 0
    ensures |swapped| == |data|
  {
    if |data| == 0 then [] else [data[3], data[2], data[1], data[0]] + SwapSlices(data[4..])
  }

  /** "%0<digits>x" of a number that fits. */
  function PaddedHex(value: nat, digits: nat): (text: string)
    ensures |text| == digits && AllHex(text)
  {
    if digits == 0 then "" else PaddedHex(value / 16, digits - 1) + [HexChar(value % 16)]
  }

  /** The number that hexadecimal digits denote. */
  function HexNumber(text: string): Option<nat> {
    if |text| == 0 || !AllHex(text) then None else Some(DigitsNumber(text))
  }

  function DigitsNumber(text: string): nat
    requires AllHex(text)
  {
    if |text| == 0 then 0 else DigitsNumber(text[..|text| - 1]) * 16 + HexValue(text[|text| - 1])
  }

  /** The answer to a subscription. */
  function SubscribeAnswer(extranonce1: seq<Byte>, extranonce2Size: nat): Json {
    Array([
      Array([Array([String("mining.set_difficulty"), String("deadbeef")]), Array([String("mining.notify"), String("cafebabe")])]),
      String(HexText(extranonce1)), Number(extranonce2Size as real)])
  }

  /** The parameters of mining.set_difficulty. */
  function DifficultyParams(difficulty: real): Json { Array([Number(difficulty)]) }

  function NotifyParams(job: PoolJob, cleanJobs: bool): Json {
    Array([
      String(job.jobId), String(HexText(SwapSlices(job.prevInternal))),
      String(HexText(job.coinb1)), String(HexText(job.coinb2)),
      Array(BranchTexts(job.merkleBranches)), String(PaddedHex(job.version, 8)), String(PaddedHex(job.nbits, 8)),
      String(PaddedHex(job.ntime, 8)), Bool(cleanJobs)])
  }

  function BranchTexts(branches: seq<Hash256>): seq<Json> {
    seq(|branches|, i requires 0 <= i < |branches| => String(HexText(branches[i])))
  }

  /** The header the pool works out for itself; packing fails when a number needs more than 32 bits. */
  function PoolHeader(D: Hasher, job: PoolJob, extranonce1: seq<Byte>, extranonce2: seq<Byte>, ntime: nat, nonce: nat)
    : Option<seq<Byte>>
  {
    if ntime >= 0x1_0000_0000 || nonce >= 0x1_0000_0000 then None
    else
      var root := Fold(D, D(job.coinb1 + extranonce1 + extranonce2 + job.coinb2), job.merkleBranches);
      Some(Le32(job.version) + job.prevInternal + root + Le32(ntime) + Le32(job.nbits) + Le32(nonce))
  }

  method BuildHeader(D: Hasher, job: PoolJob, extranonce1: seq<Byte>, extranonce2: seq<Byte>, ntime: nat, nonce: nat)
    returns (header: Option<seq<Byte>>)
    ensures header == PoolHeader(D, job, extranonce1, extranonce2, ntime, nonce)
  {
    var root := D(job.coinb1 + extranonce1 + extranonce2 + job.coinb2);
    ghost var coinbaseHash := root;
    for i := 0 to |job.merkleBranches|
      invariant Fold(D, root, job.merkleBranches[i..]) == Fold(D, coinbaseHash, job.merkleBranches)
    {
      root := D(Both(root, job.merkleBranches[i]));
      assert job.merkleBranches[i..][1..] == job.merkleBranches[i + 1..];
    }
    if ntime >= 0x1_0000_0000 || nonce >= 0x1_0000_0000 { return None; }
    header := Some(Le32(job.version) + job.prevInternal + root + Le32(ntime) + Le32(job.nbits) + Le32(nonce));
  }

  /** How the pool takes a submission: an error code, or a header to be hashed, or an uncaught packing error. */
  datatype Decision = Refuse(code: nat) | Check(header: seq<Byte>) | Raise

  method HandleSubmit(D: Hasher, jobs: map<string, PoolJob>, extranonce1: seq<Byte>, extranonce2Size: nat, params: seq<string>)
    returns (decision: Decision)
    ensures decision == Decide(D, jobs, extranonce1, extranonce2Size, params)
    ensures decision == Refuse(21) <==> |params| >= 5 && params[1] !in jobs
    ensures decision == Refuse(20) <==> |params| < 5 || (params[1] in jobs && !Readable(params, extranonce2Size))
    ensures decision.Raise? || decision.Check? ==> |params| >= 5 && params[1] in jobs && Readable(params, extranonce2Size)
    ensures decision.Refuse? ==> decision.code == 20 || decision.code == 21
  {
    if |params| < 5 { return Refuse(20); }
    var jobId, extranonce2Hex, ntimeHex, nonceHex := params[1], params[2], params[3], params[4];
    if jobId !in jobs { return Refuse(21); }
    var extranonce2, ntime, nonce := Unhex(extranonce2Hex), HexNumber(ntimeHex), HexNumber(nonceHex);
    if extranonce2.None? || ntime.None? || nonce.None? { return Refuse(20); }
    if |extranonce2.value| != extranonce2Size { return Refuse(20); }
    var header := BuildHeader(D, jobs[jobId], extranonce1, extranonce2.value, ntime.value, nonce.value);
    match header {
      case None => return Raise;
      case Some(h) => return Check(h);
    }
  }

  /** The submitted extranonce2 has the session's size, and the time and nonce are hexadecimal numbers. */
  predicate Readable(params: seq<string>, extranonce2Size: nat)
    requires |params| >= 5
  {
    && Unhex(params[2]).Some? && |params[2]| == 2 * extranonce2Size
    && |params[3]| > 0 && AllHex(params[3]) && |params[4]| > 0 && AllHex(params[4])
  }

  function Decide(D: Hasher, jobs: map<string, PoolJob>, extranonce1: seq<Byte>, extranonce2Size: nat, params: seq<string>)
    : Decision
  {
    if |params| < 5 then Refuse(20)
    else if params[1] !in jobs then Refuse(21)
    else
      match (Unhex(params[2]), HexNumber(params[3]), HexNumber(params[4]))
      case (Some(extranonce2), Some(ntime), Some(nonce)) =>
        if |extranonce2| != extranonce2Size then Refuse(20)
        else
          (match PoolHeader(D, jobs[params[1]], extranonce1, extranonce2, ntime, nonce)
           case None => Raise
           case Some(header) => Check(header))
      case _ => Refuse(20)
  }
}

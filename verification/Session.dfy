/** The session fields of the client and the notifications that read and write them: src/stratum/client.cpp. */
module Session {
  import opened Bytes
  import opened Chars
  import opened Hex
  import opened JsonValue
  import opened StratumMessage
  import opened Work
  import opened Wrappers
  import opened JsonParser
  import ShareDifficulty

  /** strtod of a text that is a decimal number, after any white space, to its end or first zero character. */
  function DecimalNumber(s: string): Option<real> {
    match NumberAt(s, SkipSpace(s, 0))
    case Ok(Number(n), end) =>
      if (end == |s| || s[end] == '\0') && (IsDigit(s[end - 1]) || s[end - 1] == '.') then Some(n) else None
    case _ => None
  }

  /** A number, a text that is one, or 1 and 0 for true and false. */
  function AsNumber(v: Json, fallback: real): real {
    match v
    case Number(n) => n
    case Bool(b) => if b then 1.0 else 0.0
    case String(s) => if DecimalNumber(s).Some? then DecimalNumber(s).value else fallback
    case _ => fallback
  }

  /** A parsed job completed with the session's extranonce and difficulty. */
  ghost predicate Completes(params: Json, extranonce1: seq<Byte>, size: nat, difficulty: real, job: MiningJob) {
    exists parsed :: Describes(params, parsed)
      && job == parsed.(extranonce1 := extranonce1, extranonce2Size := size, difficulty := ShareDifficulty.Finite(difficulty))
  }

  class ClientSession {
    var extranonce1: seq<Byte>
    var extranonce2Size: nat
    var currentDifficulty: real

    /** The size is zero until the subscription is answered, and small from then on. */
    ghost predicate Valid()
      reads this
    {
      extranonce2Size <= 32 && currentDifficulty >= 0.0
    }

    constructor ()
      ensures Valid() && extranonce2Size == 0
    {
      extranonce1, extranonce2Size, currentDifficulty := [], 0, 0.0;
    }

    /** Nothing survives a reconnect. */
    method Reset()
      modifies this
      ensures Valid() && extranonce1 == [] && extranonce2Size == 0 && currentDifficulty == 0.0
    {
      extranonce1, extranonce2Size, currentDifficulty := [], 0, 0.0;
    }

    /** The answer to the subscription. */
    method OnSubscribed(result: Json) returns (ok: bool)
      requires Valid()
      modifies this
      ensures Valid() && currentDifficulty == old(currentDifficulty)
      ensures ok <==>
        && result.Array? && result.Size() >= 3 && |result.At(1).AsString("")| > 0
        && Unhex(result.At(1).AsString("")).Some? && 0 < AsInt(result.At(2), -1) <= 32
      ensures if ok then Unhex(result.At(1).AsString("")) == Some(extranonce1) && AsInt(result.At(2), -1) == extranonce2Size
              else extranonce1 == old(extranonce1) && extranonce2Size == old(extranonce2Size)
    {
      var r := ParseSubscribeResult(result);
      if !r.Session? { return false; }
      extranonce1, extranonce2Size := r.extranonce1, r.extranonce2Size;
      ok := true;
    }

    /** mining.set_difficulty: only positive difficulties count. */
    method OnSetDifficulty(params: Json) returns (changed: bool)
      requires Valid()
      modifies this
      ensures Valid() && extranonce1 == old(extranonce1) && extranonce2Size == old(extranonce2Size)
      ensures changed <==>
        params.Array? && |params.items| > 0
        && (match params.items[0]
            case Number(n) => n > 0.0
            case Bool(b) => b
            case String(s) => DecimalNumber(s).Some? && DecimalNumber(s).value > 0.0
            case _ => false)
      ensures currentDifficulty
        == if !changed then old(currentDifficulty)
           else match params.items[0] case Number(n) => n case String(s) => DecimalNumber(s).value case _ => 1.0
    {
      if !params.Array? || params.Size() < 1 { return false; }
      var difficulty := AsNumber(params.At(0), 0.0);
      if !(difficulty > 0.0) { return false; }
      currentDifficulty := difficulty;
      changed := true;
    }

    /** mining.set_extranonce: both values change, or neither. */
    method OnSetExtranonce(params: Json) returns (changed: bool)
      requires Valid()
      modifies this
      ensures Valid() && currentDifficulty == old(currentDifficulty)
      ensures changed <==>
        params.Array? && params.Size() >= 2 && Unhex(params.At(0).AsString("")).Some? && 0 < AsInt(params.At(1), -1) <= 32
      ensures if changed then Unhex(params.At(0).AsString("")) == Some(extranonce1) && AsInt(params.At(1), -1) == extranonce2Size
              else extranonce1 == old(extranonce1) && extranonce2Size == old(extranonce2Size)
    {
      if !params.Array? || params.Size() < 2 { return false; }
      var ok, bytes := FromHex(params.At(0).AsString(""));
      if !ok { return false; }
      var size := AsInt(params.At(1), -1);
      if size <= 0 || size > 32 { return false; }
      extranonce1, extranonce2Size := bytes, size;
      changed := true;
    }

    /**
     * mining.notify: a job is handed on exactly when the session is subscribed and the parameters describe one, and it is
     * that job with this session's extranonce and difficulty. Only an empty coinbase can still make it unusable.
     */
    method OnNotify(params: Json) returns (job: Option<MiningJob>)
      requires Valid()
      ensures job.Some? <==> extranonce2Size > 0 && exists parsed :: Describes(params, parsed)
      ensures job.Some? ==> Completes(params, extranonce1, extranonce2Size, currentDifficulty, job.value)
      ensures job.Some? ==> (job.value.Valid() <==> |job.value.coinbase1| > 0)
      ensures job.Some? ==> 0 < job.value.extranonce2Size <= 32
      ensures job.Some? ==> job.value.difficulty.Finite? && job.value.difficulty.value >= 0.0
    {
      hide Describes, Blames;
      var notify := ParseNotify(params);
      if notify.Refused? { return None; }
      if extranonce2Size == 0 { return None; }
      DescribedJobHasName(params, notify.job);
      var completed := notify.job.(extranonce1 := extranonce1, extranonce2Size := extranonce2Size,
                                   difficulty := ShareDifficulty.Finite(currentDifficulty));
      job := Some(completed);
    }
  }

  lemma DescribedJobHasName(params: Json, job: MiningJob)
    requires Describes(params, job)
    ensures |job.jobId| > 0
  {
  }
}

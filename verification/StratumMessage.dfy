/** Decoding what a pool sends: the field conversions, parseNotify and parseSubscribeResult of src/stratum/message.cpp. */
module StratumMessage {
  import opened Arith
  import opened Bytes
  import opened Chars
  import opened Hex
  import opened HashCodec
  import opened JsonValue
  import opened Uint256
  import opened Work
  import opened Wrappers
  import ShareDifficulty

  /** src/stratum/client.hpp: a share on its way to the pool. */
  datatype ShareSubmission = ShareSubmission(
    jobId: string, extranonce2Hex: string, nTime: Word, nonce: Word, achievedDifficultyExact: UInt256)

  // ---- 32-bit fields -----------------------------------------------------

  lemma WordBytes(w: Word)
    ensures BeValue(BeBytes(w, 4)) == w
  {
    hide BeBytes, BeValue;
    BeFour(w);
    BeValueFour(BeBytes(w, 4));
    FourDigits(w);
  }

  lemma BytesOfWord(b: seq<Byte>)
    requires |b| == 4
    ensures BeValue(b) < 0x1_0000_0000 && BeBytes(BeValue(b), 4) == b
  {
    hide BeBytes, BeValue;
    BeValueFour(b);
    DigitsOf(b[0], b[1], b[2], b[3]);
    BeFour(BeValue(b));
  }

  lemma BeFour(w: nat)
    requires w < 0x1_0000_0000
    ensures BeBytes(w, 4) == [w / 0x100_0000, w / 0x1_0000 % 0x100, w / 0x100 % 0x100, w % 0x100]
  {
    BeStep(w / 0x100_0000, 1);
    BeStep(w / 0x1_0000, 2);
    BeStep(w / 0x100, 3);
    BeStep(w, 4);
  }

  lemma BeStep(n: nat, size: nat)
    requires size > 0
    ensures BeBytes(n, size) == BeBytes(n / 256, size - 1) + [n % 256]
  {
  }

  lemma BeValueFour(b: seq<Byte>)
    requires |b| == 4
    ensures BeValue(b) == (b[0] as int) * 0x100_0000 + (b[1] as int) * 0x1_0000 + (b[2] as int) * 0x100 + (b[3] as int)
  {
    BeValueStep(b);
    BeValueStep(b[..3]);
    BeValueStep(b[..3][..2]);
    BeValueStep(b[..3][..2][..1]);
  }

  lemma BeValueStep(b: seq<Byte>)
    requires |b| > 0
    ensures BeValue(b) == BeValue(b[..|b| - 1]) * 256 + b[|b| - 1]
  {
  }

  method ParseBigEndianHex32(hex: string) returns (ok: bool, out: Word)
    ensures ok <==> |hex| == 8 && AllHex(hex)
    ensures ok ==> Unhex(hex) == Some(BeBytes(out, 4))
  {
    if |hex| != 8 { return false, 0; }
    var bytes;
    ok, bytes := FromHex(hex);
    if !ok || |bytes| != 4 { return false, 0; }
    BytesOfWord(bytes);
    BeValueFour(bytes);
    out := (bytes[0] as int) * 0x100_0000 + (bytes[1] as int) * 0x1_0000 + (bytes[2] as int) * 0x100 + (bytes[3] as int);
  }

  method ToBigEndianHex32(value: Word) returns (text: string)
    ensures text == HexText(BeBytes(value, 4))
  {
    BeFour(value);
    text := ToHex([value / 0x100_0000, value / 0x1_0000 % 0x100, value / 0x100 % 0x100, value % 0x100]);
  }

  // ---- The previous block hash -------------------------------------------

  method PrevHashFromStratumHex(hex: string) returns (ok: bool, out: Hash256)
    ensures ok <==> |hex| == 64 && AllHex(hex)
    ensures ok ==> Unhex(hex) == Some(SwapWords(out))
  {
    var asSent;
    ok, asSent := FromRawHex(hex);
    out := ZeroHash();
    if !ok { return; }
    out := SwapWordBytes(asSent);
    SwapWordsInvolution(asSent);
  }

  method PrevHashToStratumHex(headerOrder: Hash256) returns (text: string)
    ensures text == HexText(SwapWords(headerOrder))
  {
    var swapped := SwapWordBytes(headerOrder);
    text := ToHex(swapped);
  }

  // ---- mining.subscribe --------------------------------------------------

  /** A double cast to an integer drops its fraction. */
  function Trunc(n: real): int { if n >= 0.0 then n.Floor else -((-n).Floor) }

  /** White space of the C locale. */
  predicate IsSpace(c: char) { c == ' ' || 9 <= c as int <= 13 }

  function SkipSpace(s: string, pos: nat): (p: nat)
    requires pos <= |s|
    ensures pos <= p <= |s|
    decreases |s| - pos
  {
    if pos < |s| && IsSpace(s[pos]) then SkipSpace(s, pos + 1) else pos
  }

  function Clamp64(n: int): int {
    if n < -0x8000_0000_0000_0000 then -0x8000_0000_0000_0000
    else if n > 0x7FFF_FFFF_FFFF_FFFF then 0x7FFF_FFFF_FFFF_FFFF
    else n
  }

  /** strtoll in base 10: the number that a text starts with, and where it ends; 0 and 0 when there is none. */
  function Strtoll(s: string): (r: (int, nat))
    ensures r.1 <= |s|
  {
    var sign := SkipSpace(s, 0);
    var digits := SignEnd(s, sign);
    var end := DigitsEnd(s, digits);
    var magnitude: int := DecimalValue(s[digits..end]);
    if end == digits then (0, 0) else (Clamp64(if s[sign] == '-' then -magnitude else magnitude), end)
  }

  /** A number, a text that is one up to its end or first zero character, or a truth value. */
  function AsInt(v: Json, fallback: int): int {
    match v
    case Number(n) => Trunc(n)
    case String(s) =>
      var (n, end) := Strtoll(s);
      if |s| > 0 && (end == |s| || s[end] == '\0') then n else fallback
    case Bool(b) => if b then 1 else 0
    case _ => fallback
  }

  /** The id beside the last subscription to notifications, if any. */
  function SubscriptionId(subscriptions: Json, n: nat): string {
    if n == 0 then ""
    else
      var entry := subscriptions.At(n - 1);
      if entry.Array? && entry.Size() >= 2 && entry.At(0).AsString("") == "mining.notify" then entry.At(1).AsString("")
      else SubscriptionId(subscriptions, n - 1)
  }

  predicate NamesNotify(entry: Json) {
    entry.Array? && |entry.items| >= 2 && entry.items[0] == String("mining.notify")
  }

  /** It is what stands beside the last entry that names mining.notify, and empty when none does. */
  lemma {:induction false} SubscriptionIdIsLast(subscriptions: Json, n: nat, last: nat)
    requires forall i :: last <= i < n ==> !NamesNotify(subscriptions.At(i))
    requires 0 < last <= n ==> NamesNotify(subscriptions.At(last - 1))
    ensures last <= n ==>
      SubscriptionId(subscriptions, n) == if last == 0 then "" else subscriptions.At(last - 1).items[1].AsString("")
  {
    if last < n { SubscriptionIdIsLast(subscriptions, n - 1, last); }
  }

  datatype SubscribeResult =
    | Session(extranonce1: seq<Byte>, extranonce2Size: nat, subscriptionId: string)
    | NotAnArray | EmptyExtranonce1 | BadExtranonce1 | SizeOutOfRange

  method ParseSubscribeResult(result: Json) returns (out: SubscribeResult)
    ensures out.Session? <==>
      && result.Array? && result.Size() >= 3 && |result.At(1).AsString("")| > 0
      && Unhex(result.At(1).AsString("")).Some? && 0 < AsInt(result.At(2), -1) <= 32
    ensures out.Session? ==>
      Unhex(result.At(1).AsString("")) == Some(out.extranonce1) && AsInt(result.At(2), -1) == out.extranonce2Size
    ensures out.Session? ==> out.subscriptionId == SubscriptionId(result.At(0), result.At(0).Size())
    ensures out.NotAnArray? <==> !result.Array? || result.Size() < 3
    ensures out.EmptyExtranonce1? <==> !out.NotAnArray? && result.At(1).AsString("") == ""
    ensures out.BadExtranonce1? <==>
      !out.NotAnArray? && !out.EmptyExtranonce1? && Unhex(result.At(1).AsString("")).None?
  {
    if !result.Array? || result.Size() < 3 { return NotAnArray; }
    var hex := result.At(1).AsString("");
    if hex == "" { return EmptyExtranonce1; }
    var ok, extranonce1 := FromHex(hex);
    if !ok { return BadExtranonce1; }
    var size := AsInt(result.At(2), -1);
    if size <= 0 || size > 32 { return SizeOutOfRange; }
    var subscriptions, id := result.At(0), "";
    if subscriptions.Array? {
      for i := 0 to subscriptions.Size()
        invariant id == SubscriptionId(subscriptions, i)
      {
        var entry := subscriptions.At(i);
        if entry.Array? && entry.Size() >= 2 && entry.At(0).AsString("") == "mining.notify" {
          id := entry.At(1).AsString("");
        }
      }
    } else {
      NoSubscription(subscriptions, subscriptions.Size());
    }
    out := Session(extranonce1, size, id);
  }

  lemma {:induction false} NoSubscription(subscriptions: Json, n: nat)
    requires !subscriptions.Array?
    ensures SubscriptionId(subscriptions, n) == ""
  {
    if n > 0 { NoSubscription(subscriptions, n - 1); }
  }

  // ---- mining.notify -----------------------------------------------------

  datatype NotifyError =
    | TooFewParameters(count: nat) | EmptyJobId | InvalidPrevHash | InvalidCoinb1 | InvalidCoinb2
    | BranchesNotAnArray | InvalidBranch(index: nat) | InvalidVersion | InvalidBits | InvalidTime

  datatype NotifyResult = Job(job: MiningJob) | Refused(error: NotifyError)

  function Text(params: Json, i: nat): string { params.At(i).AsString("") }

  /** The notification params spells out exactly this job, before the session's extranonce is added. */
  ghost predicate Describes(params: Json, job: MiningJob) {
    && params.Array? && params.Size() >= 9
    && job.jobId == Text(params, 0) && |job.jobId| > 0
    && Unhex(Text(params, 1)) == Some(SwapWords(job.previousBlockHash))
    && Unhex(Text(params, 2)) == Some(job.coinbase1)
    && Unhex(Text(params, 3)) == Some(job.coinbase2)
    && params.At(4).Array? && Lists(params.At(4), job.merkleBranches, |params.At(4).items|)
    && Unhex(Text(params, 5)) == Some(BeBytes(job.version, 4))
    && Unhex(Text(params, 6)) == Some(BeBytes(job.nBits, 4))
    && Unhex(Text(params, 7)) == Some(BeBytes(job.nTime, 4))
    && job.cleanJobs == (match params.items[8] case Bool(b) => b case Number(n) => n != 0.0 case _ => false)
    && job.extranonce1 == [] && job.extranonce2Size == 0 && job.difficulty == ShareDifficulty.Finite(0.0)
  }

  /** The first n entries of an array spell out these hashes. */
  ghost predicate Lists(branches: Json, hashes: seq<Hash256>, n: nat) {
    |hashes| == n && forall i :: 0 <= i < n ==> Unhex(branches.At(i).AsString("")) == Some(hashes[i])
  }

  /** Every field before the one that e names is fine, and that one is not. */
  ghost predicate Blames(params: Json, e: NotifyError) {
    var bytes := (i: nat) => Unhex(Text(params, i)).Some?;
    var sized := (i: nat, n: nat) => |Text(params, i)| == n && AllHex(Text(params, i));
    match e
    case TooFewParameters(n) => n == params.Size() && (!params.Array? || n < 9)
    case EmptyJobId => params.Size() >= 9 && Text(params, 0) == ""
    case InvalidPrevHash => Text(params, 0) != "" && !sized(1, 64)
    case InvalidCoinb1 => sized(1, 64) && !bytes(2)
    case InvalidCoinb2 => bytes(2) && !bytes(3)
    case BranchesNotAnArray => bytes(3) && !params.At(4).Array?
    case InvalidBranch(i) =>
      params.At(4).Array? && i < params.At(4).Size() && !IsHash(params.At(4).At(i))
      && forall j :: 0 <= j < i ==> IsHash(params.At(4).At(j))
    case InvalidVersion => params.At(4).Array? && !sized(5, 8)
    case InvalidBits => sized(5, 8) && !sized(6, 8)
    case InvalidTime => sized(6, 8) && !sized(7, 8)
  }

  predicate IsHash(v: Json) { |v.AsString("")| == 64 && AllHex(v.AsString("")) }

  /** A job is returned exactly when the parameters describe one, and it is that job. */
  method ParseNotify(params: Json) returns (out: NotifyResult)
    ensures out.Job? ==> Describes(params, out.job)
    ensures out.Refused? ==> Blames(params, out.error) && forall job :: !Describes(params, job)
  {
    hide Unhex, AllHex, SwapWords, BeBytes;
    if !params.Array? || params.Size() < 9 { return Refused(TooFewParameters(params.Size())); }
    var job := MiningJob("", ZeroHash(), [], [], [], 0, 0, 0, false, [], 0, ShareDifficulty.Finite(0.0));

    job := job.(jobId := Text(params, 0));
    if job.jobId == "" { return Refused(EmptyJobId); }

    var ok, hash := PrevHashFromStratumHex(Text(params, 1));
    if !ok { return Refused(InvalidPrevHash); }
    job := job.(previousBlockHash := hash);

    var bytes;
    ok, bytes := FromHex(Text(params, 2));
    if !ok { return Refused(InvalidCoinb1); }
    job := job.(coinbase1 := bytes);
    ok, bytes := FromHex(Text(params, 3));
    if !ok { return Refused(InvalidCoinb2); }
    job := job.(coinbase2 := bytes);

    if !params.At(4).Array? { return Refused(BranchesNotAnArray); }
    var branches, bad := ParseBranches(params.At(4));
    if bad.Some? { return Refused(InvalidBranch(bad.value)); }
    job := job.(merkleBranches := branches);

    var word;
    ok, word := ParseBigEndianHex32(Text(params, 5));
    if !ok { return Refused(InvalidVersion); }
    job := job.(version := word);
    ok, word := ParseBigEndianHex32(Text(params, 6));
    if !ok { return Refused(InvalidBits); }
    job := job.(nBits := word);
    ok, word := ParseBigEndianHex32(Text(params, 7));
    if !ok { return Refused(InvalidTime); }
    job := job.(nTime := word);

    job := job.(cleanJobs := params.At(8).AsBool(false));
    out := Job(job);
  }

  /** All the branch hashes, or the index of the first entry that is not one. */
  method ParseBranches(list: Json) returns (branches: seq<Hash256>, bad: Option<nat>)
    requires list.Array?
    ensures bad.None? ==> Lists(list, branches, |list.items|)
    ensures bad.Some? ==>
      && bad.value < |list.items| && !IsHash(list.At(bad.value))
      && (forall j :: 0 <= j < bad.value ==> IsHash(list.At(j)))
      && forall hashes :: !Lists(list, hashes, |list.items|)
  {
    hide AllHex;
    branches := [];
    for i := 0 to |list.items|
      invariant Lists(list, branches, i)
      invariant forall j :: 0 <= j < i ==> IsHash(list.At(j))
    {
      var ok, branch := FromRawHex(list.At(i).AsString(""));
      if !ok {
        NotListed(list, i);
        return [], Some(i);
      }
      branches := branches + [branch];
    }
    bad := None;
  }

  lemma NotListed(list: Json, i: nat)
    requires list.Array? && i < |list.items| && !IsHash(list.At(i))
    ensures forall hashes :: !Lists(list, hashes, |list.items|)
  {
  }

  /** Parameters describe at most one job. */
  lemma DescribesUnique(params: Json, a: MiningJob, b: MiningJob)
    requires Describes(params, a) && Describes(params, b)
    ensures a == b
  {
    hide Unhex, SwapWords, BeBytes, BeValue;
    SwapWordsInvolution(a.previousBlockHash);
    SwapWordsInvolution(b.previousBlockHash);
    WordBytes(a.version);
    WordBytes(b.version);
    WordBytes(a.nBits);
    WordBytes(b.nBits);
    WordBytes(a.nTime);
    WordBytes(b.nTime);
    assert a.merkleBranches == b.merkleBranches;
  }
}

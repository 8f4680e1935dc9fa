/** mineKernel of src/cuda/cuda_backend.cu: any number of threads that share one result record. */
module Kernel {
  import opened Bytes
  import opened Header
  import opened Merkle
  import opened Uint256Hash
  import opened Work
  import opened CpuMiner

  /** Where a thread stands: before its early-exit check, after it, holding a winner, and past the compare-and-swap. */
  datatype Thread = Start | Hashing | Winner | Storing | Lowering | Done

  /** The shared record, and every thread of the launch. */
  datatype Launch = Launch(found: bool, nonce: Word, threads: seq<Thread>)

  /** One launch's parameters: wins says which nonces meet the target. */
  datatype Grid = Grid(startNonce: Word, nonceCount: nat, wins: Word -> bool)
  {
    function Nonce(i: nat): Word { NonceAt(startNonce, i) }

    ghost predicate Wins(i: nat) { i < nonceCount && wins(Nonce(i)) }
  }

  function Fresh(threads: nat): Launch { Launch(false, 0, seq(threads, _ => Start)) }

  function Min(a: Word, b: Word): Word { if a <= b then a else b }

  /** The next atomic step of thread i. */
  function Step(g: Grid, s: Launch, i: nat): Launch
    requires i < |s.threads| && !s.threads[i].Done?
  {
    match s.threads[i]
    case Start => s.(threads := s.threads[i := if i >= g.nonceCount || s.found then Done else Hashing])
    case Hashing => s.(threads := s.threads[i := if g.wins(g.Nonce(i)) then Winner else Done])
    case Winner => // atomicCAS(&found, 0, 1)
      if s.found then s.(threads := s.threads[i := Lowering]) else s.(found := true, threads := s.threads[i := Storing])
    case Storing => s.(nonce := g.Nonce(i), threads := s.threads[i := Done])
    case Lowering => // atomicMin(&nonce, nonce)
      s.(nonce := Min(s.nonce, g.Nonce(i)), threads := s.threads[i := Done])
  }

  ghost predicate AllDone(s: Launch) { forall i :: 0 <= i < |s.threads| ==> s.threads[i].Done? }

  // ---- What every interleaving keeps -------------------------------------

  ghost predicate Past(s: Launch, i: nat)
    requires i < |s.threads|
  {
    s.threads[i].Winner? || s.threads[i].Storing? || s.threads[i].Lowering?
  }

  /** owner is the thread whose compare-and-swap succeeded. */
  ghost predicate Inv(g: Grid, s: Launch, owner: int) {
    && g.nonceCount <= |s.threads|
    && (forall i :: 0 <= i < |s.threads| && Past(s, i) ==> g.Wins(i))
    && (forall i :: 0 <= i < |s.threads| && s.threads[i].Hashing? ==> i < g.nonceCount)
    && (forall i :: 0 <= i < |s.threads| && s.threads[i].Storing? ==> i == owner)
    && (!s.found ==> forall i :: 0 <= i < |s.threads| && s.threads[i].Done? ==> !g.Wins(i))
    && (!s.found ==> forall i :: 0 <= i < |s.threads| ==> !s.threads[i].Storing? && !s.threads[i].Lowering?)
    && (s.found ==> 0 <= owner < |s.threads| && g.Wins(owner) && (s.threads[owner].Storing? || Stored(g, s)))
  }

  /** The record holds the nonce of some winner of this launch. */
  ghost predicate Stored(g: Grid, s: Launch) { exists i: nat :: g.Wins(i) && s.nonce == g.Nonce(i) }

  lemma StepKeepsInv(g: Grid, s: Launch, owner: int, i: nat) returns (owner': int)
    requires Inv(g, s, owner) && i < |s.threads| && !s.threads[i].Done?
    ensures Inv(g, Step(g, s, i), owner')
  {
    var t := Step(g, s, i);
    owner' := if s.threads[i].Winner? && !s.found then i else owner;
    if s.threads[i].Storing? {
      assert g.Wins(i) && t.nonce == g.Nonce(i);
    } else if s.threads[i].Lowering? && Stored(g, s) {
      var k: nat :| g.Wins(k) && s.nonce == g.Nonce(k);
      assert g.Wins(if s.nonce <= g.Nonce(i) then k else i);
    } else if s.found && Stored(g, s) {
      var k: nat :| g.Wins(k) && s.nonce == g.Nonce(k);
      assert t.nonce == g.Nonce(k);
    }
  }

  /** A schedule: which thread moves next. */
  ghost predicate Runs(g: Grid, s: Launch, schedule: seq<nat>)
    decreases |schedule|
  {
    |schedule| > 0 ==>
      schedule[0] < |s.threads| && !s.threads[schedule[0]].Done? && Runs(g, Step(g, s, schedule[0]), schedule[1..])
  }

  ghost function After(g: Grid, s: Launch, schedule: seq<nat>): Launch
    requires Runs(g, s, schedule)
    decreases |schedule|
  {
    if |schedule| == 0 then s else After(g, Step(g, s, schedule[0]), schedule[1..])
  }

  lemma {:induction false} RunKeepsInv(g: Grid, s: Launch, owner: int, schedule: seq<nat>) returns (owner': int)
    requires Inv(g, s, owner) && Runs(g, s, schedule)
    ensures Inv(g, After(g, s, schedule), owner') && |After(g, s, schedule).threads| == |s.threads|
    decreases |schedule|
  {
    owner' := owner;
    if |schedule| > 0 {
      owner' := StepKeepsInv(g, s, owner, schedule[0]);
      owner' := RunKeepsInv(g, Step(g, s, schedule[0]), owner', schedule[1..]);
    }
  }

  ghost predicate AnyWinner(g: Grid) { exists i: nat :: g.Wins(i) }

  lemma FinishedInv(g: Grid, s: Launch, owner: int)
    requires Inv(g, s, owner) && AllDone(s)
    ensures s.found <==> AnyWinner(g)
    ensures s.found ==> Stored(g, s)
  {
  }

  /** However the threads interleave, a completed launch reports a find exactly when there is one, and a nonce that wins. */
  lemma LaunchResult(g: Grid, threads: nat, schedule: seq<nat>)
    requires g.nonceCount <= threads && Runs(g, Fresh(threads), schedule) && AllDone(After(g, Fresh(threads), schedule))
    ensures var s := After(g, Fresh(threads), schedule);
      (s.found <==> AnyWinner(g)) && (s.found ==> Stored(g, s))
  {
    var owner := RunKeepsInv(g, Fresh(threads), 0, schedule);
    FinishedInv(g, After(g, Fresh(threads), schedule), owner);
  }

  // ---- Every launch ends -------------------------------------------------

  function StepsLeft(t: Thread): nat {
    match t
    case Start => 4
    case Hashing => 3
    case Winner => 2
    case Storing => 1
    case Lowering => 1
    case Done => 0
  }

  function TotalLeft(threads: seq<Thread>): nat {
    if |threads| == 0 then 0 else StepsLeft(threads[0]) + TotalLeft(threads[1..])
  }

  lemma {:induction false} LessLeft(threads: seq<Thread>, i: nat, t: Thread)
    requires i < |threads| && StepsLeft(t) < StepsLeft(threads[i])
    ensures TotalLeft(threads[i := t]) < TotalLeft(threads)
    decreases |threads|
  {
    if i == 0 {
      assert threads[0 := t][1..] == threads[1..];
    } else {
      assert threads[i := t][1..] == threads[1..][i - 1 := t];
      LessLeft(threads[1..], i - 1, t);
    }
  }

  lemma StepProgress(g: Grid, s: Launch, i: nat)
    requires i < |s.threads| && !s.threads[i].Done?
    ensures TotalLeft(Step(g, s, i).threads) < TotalLeft(s.threads)
  {
    LessLeft(s.threads, i, Step(g, s, i).threads[i]);
  }

  // ---- How much is hashed ------------------------------------------------

  /** The steps of a schedule that hash a nonce. */
  ghost function HashesDone(g: Grid, s: Launch, schedule: seq<nat>): nat
    requires Runs(g, s, schedule)
    decreases |schedule|
  {
    if |schedule| == 0 then 0
    else (if s.threads[schedule[0]].Hashing? then 1 else 0) + HashesDone(g, Step(g, s, schedule[0]), schedule[1..])
  }

  function MayHash(t: Thread): nat { if t.Start? || t.Hashing? then 1 else 0 }

  /** How many of the first n threads may still hash. */
  function Pending(threads: seq<Thread>, n: nat): nat
    requires n <= |threads|
  {
    if n == 0 then 0 else Pending(threads, n - 1) + MayHash(threads[n - 1])
  }

  lemma {:induction false} PendingSet(threads: seq<Thread>, i: nat, t: Thread, n: nat)
    requires i < |threads| && n <= |threads|
    ensures Pending(threads[i := t], n) + (if i < n then MayHash(threads[i]) else 0)
      == Pending(threads, n) + (if i < n then MayHash(t) else 0)
    decreases n
  {
    if n > 0 { PendingSet(threads, i, t, n - 1); }
  }

  /** No thread with a nonce can find the record taken before it has begun. */
  ghost predicate OnTime(g: Grid, s: Launch)
    requires g.nonceCount <= |s.threads|
  {
    s.found ==> forall i :: 0 <= i < g.nonceCount ==> !s.threads[i].Start?
  }

  lemma StepCounts(g: Grid, s: Launch, owner: int, i: nat)
    requires Inv(g, s, owner) && i < |s.threads| && !s.threads[i].Done?
    ensures var left := Pending(Step(g, s, i).threads, g.nonceCount) + if s.threads[i].Hashing? then 1 else 0;
      left <= Pending(s.threads, g.nonceCount) && (OnTime(g, s) ==> left == Pending(s.threads, g.nonceCount))
  {
    PendingSet(s.threads, i, Step(g, s, i).threads[i], g.nonceCount);
  }

  lemma StepOnTime(g: Grid, s: Launch, owner: int, i: nat)
    requires Inv(g, s, owner) && OnTime(g, s) && i < |s.threads| && !s.threads[i].Done?
    requires !AnyWinner(g) || g.nonceCount <= 1
    ensures g.nonceCount <= |Step(g, s, i).threads| && OnTime(g, Step(g, s, i))
  {
    if s.threads[i].Winner? {
      assert Past(s, i) && g.Wins(i);
    }
  }

  lemma {:induction false} NothingPending(s: Launch, n: nat)
    requires AllDone(s) && n <= |s.threads|
    ensures Pending(s.threads, n) == 0
  {
    if n > 0 { NothingPending(s, n - 1); }
  }

  lemma {:induction false} AllPending(threads: nat, n: nat)
    requires n <= threads
    ensures Pending(Fresh(threads).threads, n) == n
  {
    if n > 0 { AllPending(threads, n - 1); }
  }

  lemma {:induction false} RunCounts(g: Grid, s: Launch, owner: int, schedule: seq<nat>)
    requires Inv(g, s, owner) && Runs(g, s, schedule) && AllDone(After(g, s, schedule))
    ensures HashesDone(g, s, schedule) <= Pending(s.threads, g.nonceCount)
    ensures OnTime(g, s) && (!AnyWinner(g) || g.nonceCount <= 1) ==>
      HashesDone(g, s, schedule) == Pending(s.threads, g.nonceCount)
    decreases |schedule|
  {
    hide Inv, OnTime, Step, AnyWinner;
    InvSize(g, s, owner);
    if |schedule| == 0 {
      NothingPending(s, g.nonceCount);
    } else {
      var i := schedule[0];
      var t := Step(g, s, i);
      var owner' := StepKeepsInv(g, s, owner, i);
      StepCounts(g, s, owner, i);
      if OnTime(g, s) && (!AnyWinner(g) || g.nonceCount <= 1) { StepOnTime(g, s, owner, i); }
      RunCounts(g, t, owner', schedule[1..]);
    }
  }

  lemma InvSize(g: Grid, s: Launch, owner: int)
    requires Inv(g, s, owner)
    ensures g.nonceCount <= |s.threads|
  {
  }

  /**
   * A launch never hashes more nonces than it is charged for; and it is certain to hash every one of them exactly when
   * none wins or it covers at most one: otherwise some interleaving hashes a single nonce.
   */
  lemma HashesCounted(g: Grid, threads: nat)
    requires g.nonceCount <= threads
    ensures forall schedule :: Completes(g, threads, schedule) ==>
      HashesDone(g, Fresh(threads), schedule) <= g.nonceCount
    ensures !AnyWinner(g) || g.nonceCount <= 1 <==>
      forall schedule :: Completes(g, threads, schedule) ==> HashesDone(g, Fresh(threads), schedule) == g.nonceCount
    ensures AnyWinner(g) ==>
      exists schedule :: Completes(g, threads, schedule) && HashesDone(g, Fresh(threads), schedule) == 1
  {
    FreshInv(g, threads);
    AllPending(threads, g.nonceCount);
    forall schedule | Completes(g, threads, schedule)
      ensures HashesDone(g, Fresh(threads), schedule) <= g.nonceCount
      ensures !AnyWinner(g) || g.nonceCount <= 1 ==> HashesDone(g, Fresh(threads), schedule) == g.nonceCount
    {
      RunCounts(g, Fresh(threads), 0, schedule);
    }
    if AnyWinner(g) {
      var j: nat :| g.Wins(j);
      var schedule := AnyWinnerCanBeReported(g, threads, j);
      assert Completes(g, threads, schedule);
    }
  }

  ghost predicate Completes(g: Grid, threads: nat, schedule: seq<nat>) {
    Runs(g, Fresh(threads), schedule) && AllDone(After(g, Fresh(threads), schedule))
  }

  // ---- The lowest nonce --------------------------------------------------

  /** The launch reports the lowest winning nonce. */
  ghost predicate ReportsLowest(g: Grid, s: Launch) {
    s.found && Stored(g, s) && forall i: nat :: g.Wins(i) ==> s.nonce <= g.Nonce(i)
  }

  ghost predicate AtMostOneWinner(g: Grid) { forall i: nat, j: nat :: g.Wins(i) && g.Wins(j) ==> i == j }

  /** A thread that finds, stores and finishes before any other has started. */
  lemma AloneFirst(g: Grid, threads: nat, j: nat)
    requires g.Wins(j) && g.nonceCount <= threads
    ensures Runs(g, Fresh(threads), [j, j, j, j])
    ensures After(g, Fresh(threads), [j, j, j, j]) == Launch(true, g.Nonce(j), Fresh(threads).threads[j := Done])
    ensures HashesDone(g, Fresh(threads), [j, j, j, j]) == 1
  {
    var s0 := Fresh(threads);
    var s1 := Step(g, s0, j);
    var s2 := Step(g, s1, j);
    var s3 := Step(g, s2, j);
    var s4 := Step(g, s3, j);
    var a, b, c, d: seq<nat> := [j, j, j, j], [j, j, j], [j, j], [j];
    assert a[1..] == b && b[1..] == c && c[1..] == d && d[1..] == [];
    assert Runs(g, s4, []) && After(g, s4, []) == s4 && HashesDone(g, s4, []) == 0;
    assert Runs(g, s3, d) && After(g, s3, d) == s4 && HashesDone(g, s3, d) == 0;
    assert Runs(g, s2, c) && After(g, s2, c) == s4 && HashesDone(g, s2, c) == 0;
    assert Runs(g, s1, b) && After(g, s1, b) == s4 && HashesDone(g, s1, b) == 1;
    assert s4.threads == s0.threads[j := Done];
  }

  /** Once a nonce is found, threads that have not started exit at their first check. */
  lemma {:induction false} OthersExit(g: Grid, s: Launch, from: nat) returns (schedule: seq<nat>)
    requires s.found && from <= |s.threads|
    requires forall i :: 0 <= i < |s.threads| ==> s.threads[i].Done? || s.threads[i].Start?
    requires forall i :: 0 <= i < from ==> s.threads[i].Done?
    ensures Runs(g, s, schedule)
    ensures After(g, s, schedule).found && After(g, s, schedule).nonce == s.nonce && AllDone(After(g, s, schedule))
    ensures HashesDone(g, s, schedule) == 0
    decreases |s.threads| - from
  {
    if from == |s.threads| {
      schedule := [];
    } else if s.threads[from].Done? {
      schedule := OthersExit(g, s, from + 1);
    } else {
      var rest := OthersExit(g, Step(g, s, from), from + 1);
      schedule := [from] + rest;
      assert schedule[1..] == rest;
    }
  }

  lemma {:induction false} RunsConcat(g: Grid, s: Launch, a: seq<nat>, b: seq<nat>)
    requires Runs(g, s, a) && Runs(g, After(g, s, a), b)
    ensures Runs(g, s, a + b) && After(g, s, a + b) == After(g, After(g, s, a), b)
    ensures HashesDone(g, s, a + b) == HashesDone(g, s, a) + HashesDone(g, After(g, s, a), b)
    decreases |a|
  {
    if |a| == 0 {
      assert a + b == b;
    } else {
      assert (a + b)[1..] == a[1..] + b;
      RunsConcat(g, Step(g, s, a[0]), a[1..], b);
    }
  }

  /** Any winner at all can be the one that a launch reports. */
  lemma AnyWinnerCanBeReported(g: Grid, threads: nat, j: nat) returns (schedule: seq<nat>)
    requires g.Wins(j) && g.nonceCount <= threads
    ensures Runs(g, Fresh(threads), schedule)
    ensures var s := After(g, Fresh(threads), schedule); AllDone(s) && s.found && s.nonce == g.Nonce(j)
    ensures HashesDone(g, Fresh(threads), schedule) == 1
  {
    AloneFirst(g, threads, j);
    var rest := OthersExit(g, After(g, Fresh(threads), [j, j, j, j]), 0);
    RunsConcat(g, Fresh(threads), [j, j, j, j], rest);
    schedule := [j, j, j, j] + rest;
  }

  /** The lowest nonce is certain exactly when there is no choice: with two winners some interleaving reports the higher. */
  lemma LowestExactlyWhenUnique(g: Grid, threads: nat)
    requires g.nonceCount <= threads && g.nonceCount <= NONCES && AnyWinner(g)
    ensures (forall schedule :: Runs(g, Fresh(threads), schedule) && AllDone(After(g, Fresh(threads), schedule)) ==>
               ReportsLowest(g, After(g, Fresh(threads), schedule)))
      <==> AtMostOneWinner(g)
  {
    if AtMostOneWinner(g) {
      forall schedule | Runs(g, Fresh(threads), schedule) && AllDone(After(g, Fresh(threads), schedule))
        ensures ReportsLowest(g, After(g, Fresh(threads), schedule))
      {
        LaunchResult(g, threads, schedule);
      }
    } else {
      var i: nat, j: nat :| g.Wins(i) && g.Wins(j) && i != j;
      if i < j { NoRepeats(g.startNonce, i, j); } else { NoRepeats(g.startNonce, j, i); }
      var high, low := if g.Nonce(i) < g.Nonce(j) then j else i, if g.Nonce(i) < g.Nonce(j) then i else j;
      var schedule := AnyWinnerCanBeReported(g, threads, high);
      assert g.Wins(low) && After(g, Fresh(threads), schedule).nonce > g.Nonce(low);
    }
  }

  /** Once the first winner has stored, the threads that are still to lower the record leave the lowest nonce of all in it. */
  lemma {:induction false} LowersToMinimum(g: Grid, s: Launch, schedule: seq<nat>)
    requires Runs(g, s, schedule) && AllDone(After(g, s, schedule)) && s.found
    requires forall i :: 0 <= i < |s.threads| ==> s.threads[i].Winner? || s.threads[i].Lowering? || s.threads[i].Done?
    ensures var n := After(g, s, schedule).nonce;
      && n <= s.nonce && (forall i :: 0 <= i < |s.threads| && !s.threads[i].Done? ==> n <= g.Nonce(i))
      && (n == s.nonce || exists i: nat :: i < |s.threads| && !s.threads[i].Done? && n == g.Nonce(i))
    decreases |schedule|
  {
    if |schedule| > 0 {
      var k := schedule[0];
      var t := Step(g, s, k);
      LowersToMinimum(g, t, schedule[1..]);
      var n := After(g, t, schedule[1..]).nonce;
      forall i | 0 <= i < |s.threads| && !s.threads[i].Done? ensures n <= g.Nonce(i) {
        if i != k { assert !t.threads[i].Done?; }
      }
      if n != t.nonce {
        var i: nat :| i < |t.threads| && !t.threads[i].Done? && n == g.Nonce(i);
        assert !s.threads[i].Done?;
      }
    }
  }

  /** Even a lower winner that does reach its atomicMin can lose: the first winner's plain store comes after it. */
  lemma StoreAfterMin(g: Grid)
    requires g.nonceCount == 2 && g.Wins(0) && g.Wins(1) && g.Nonce(0) < g.Nonce(1)
    ensures var schedule := [0, 0, 1, 1, 1, 0, 0, 1];
      && Completes(g, 2, schedule)
      && After(g, Fresh(2), schedule).nonce == g.Nonce(1) && !ReportsLowest(g, After(g, Fresh(2), schedule))
  {
    assert g.Wins(0);
  }

  // ---- The launch as a program -------------------------------------------

  /** What one thread computes: its own copy of the header with its nonce, hashed and compared. */
  method ThreadWins(D: Hasher, headerTemplate: seq<Byte>, target: Hash256, nonce: Word)
    returns (wins: bool, ghost hashed: seq<seq<Byte>>)
    requires |headerTemplate| == HEADER_SIZE
    ensures wins <==> LeValue(HashAt(D, headerTemplate, nonce)) <= LeValue(target)
    ensures hashed == [WithNonce(headerTemplate, nonce)]
  {
    var header: array<Byte> := new Byte[HEADER_SIZE](_ => 0);
    for i := 0 to HEADER_SIZE
      invariant header[..i] == headerTemplate[..i]
    {
      header[i] := headerTemplate[i];
    }
    header[76], header[77] := nonce % 0x100, nonce / 0x100 % 0x100;
    header[78], header[79] := nonce / 0x1_0000 % 0x100, nonce / 0x100_0000 % 0x100;
    assert header[..] == WithNonce(headerTemplate, nonce);
    var hash;
    hash, hashed := HashHeader(D, header, []);
    wins := HashLessOrEqual(hash, target);
  }

  /** The launch of one work item's header against a target. */
  ghost function GridOf(D: Hasher, headerTemplate: seq<Byte>, target: Hash256, startNonce: Word, nonceCount: nat): Grid
    requires |headerTemplate| == HEADER_SIZE
  {
    Grid(startNonce, nonceCount, (n: Word) => LeValue(HashAt(D, headerTemplate, n)) <= LeValue(target))
  }

  /** Thread i of the program does its next atomic step. */
  method MoveThread(D: Hasher, headerTemplate: seq<Byte>, target: Hash256, startNonce: Word, nonceCount: nat,
                    s: Launch, i: nat)
    returns (t: Launch, ghost hashed: seq<seq<Byte>>)
    requires |headerTemplate| == HEADER_SIZE && i < |s.threads| && !s.threads[i].Done?
    ensures t == Step(GridOf(D, headerTemplate, target, startNonce, nonceCount), s, i)
    ensures hashed == if s.threads[i].Hashing? then [WithNonce(headerTemplate, NonceAt(startNonce, i))] else []
  {
    hashed := [];
    match s.threads[i] {
      case Start =>
        t := s.(threads := s.threads[i := if i >= nonceCount || s.found then Done else Hashing]);
      case Hashing =>
        var wins;
        wins, hashed := ThreadWins(D, headerTemplate, target, NonceAt(startNonce, i));
        t := s.(threads := s.threads[i := if wins then Winner else Done]);
      case Winner =>
        if s.found {
          t := s.(threads := s.threads[i := Lowering]);
        } else {
          t := s.(found := true, threads := s.threads[i := Storing]);
        }
      case Storing => t := s.(nonce := NonceAt(startNonce, i), threads := s.threads[i := Done]);
      case Lowering => t := s.(nonce := Min(s.nonce, NonceAt(startNonce, i)), threads := s.threads[i := Done]);
    }
  }

  /** The i-th nonce of a launch meets the target. */
  ghost predicate Hits(D: Hasher, headerTemplate: seq<Byte>, target: Hash256, startNonce: Word, i: nat)
    requires |headerTemplate| == HEADER_SIZE
  {
    LeValue(HashAt(D, headerTemplate, NonceAt(startNonce, i))) <= LeValue(target)
  }

  /** This nonce is the i-th of a launch of nonceCount, and meets the target. */
  ghost predicate HitAt(D: Hasher, headerTemplate: seq<Byte>, target: Hash256, startNonce: Word, nonceCount: nat,
                        nonce: Word, i: nat)
    requires |headerTemplate| == HEADER_SIZE
  {
    i < nonceCount && nonce == NonceAt(startNonce, i) && Hits(D, headerTemplate, target, startNonce, i)
  }

  /** The headers of the first n nonces are among those hashed. */
  ghost predicate AllHashed(headerTemplate: seq<Byte>, startNonce: Word, n: nat, hashed: seq<seq<Byte>>)
    requires |headerTemplate| == HEADER_SIZE
  {
    forall i: nat :: i < n ==> WithNonce(headerTemplate, NonceAt(startNonce, i)) in hashed
  }

  /** As long as nothing is found, every thread with a nonce that is past hashing has hashed it. */
  ghost predicate HashedSoFar(g: Grid, s: Launch, headerTemplate: seq<Byte>, hashed: seq<seq<Byte>>)
    requires |headerTemplate| == HEADER_SIZE
  {
    !s.found ==> forall i: nat :: i < g.nonceCount && i < |s.threads| && MayHash(s.threads[i]) == 0 ==>
      WithNonce(headerTemplate, g.Nonce(i)) in hashed
  }

  lemma StepHashes(g: Grid, s: Launch, i: nat, headerTemplate: seq<Byte>, hashed: seq<seq<Byte>>, more: seq<seq<Byte>>)
    requires |headerTemplate| == HEADER_SIZE && i < |s.threads| && !s.threads[i].Done?
    requires HashedSoFar(g, s, headerTemplate, hashed)
    requires s.threads[i].Hashing? ==> more == [WithNonce(headerTemplate, g.Nonce(i))]
    ensures HashedSoFar(g, Step(g, s, i), headerTemplate, hashed + more)
  {
    hide WithNonce, NonceAt;
  }

  lemma EndHashes(g: Grid, s: Launch, headerTemplate: seq<Byte>, hashed: seq<seq<Byte>>)
    requires |headerTemplate| == HEADER_SIZE && g.nonceCount <= |s.threads| && AllDone(s)
    requires HashedSoFar(g, s, headerTemplate, hashed)
    ensures !s.found ==> AllHashed(headerTemplate, g.startNonce, g.nonceCount, hashed)
  {
    hide WithNonce, NonceAt;
    forall i: nat | i < g.nonceCount && !s.found ensures WithNonce(headerTemplate, NonceAt(g.startNonce, i)) in hashed {
      assert WithNonce(headerTemplate, g.Nonce(i)) in hashed;
    }
  }

  lemma FreshHashes(g: Grid, threads: nat, headerTemplate: seq<Byte>)
    requires |headerTemplate| == HEADER_SIZE
    ensures HashedSoFar(g, Fresh(threads), headerTemplate, [])
  {
  }

  /** A whole launch under an arbitrary scheduler. */
  method RunKernel(D: Hasher, headerTemplate: seq<Byte>, target: Hash256, startNonce: Word, nonceCount: nat, threads: nat)
    returns (found: bool, nonce: Word, ghost hashed: seq<seq<Byte>>)
    requires |headerTemplate| == HEADER_SIZE && nonceCount <= threads
    ensures found <==> exists i: nat :: i < nonceCount && Hits(D, headerTemplate, target, startNonce, i)
    ensures found ==> exists i: nat :: HitAt(D, headerTemplate, target, startNonce, nonceCount, nonce, i)
    // Only headers of the launch are hashed, no more than nonceCount in all, and each of them when nothing is found.
    ensures forall h :: h in hashed ==>
      exists i: nat :: i < nonceCount && h == WithNonce(headerTemplate, NonceAt(startNonce, i))
    ensures |hashed| <= nonceCount
    ensures !found ==> |hashed| == nonceCount && AllHashed(headerTemplate, startNonce, nonceCount, hashed)
  {
    hide Inv, Step, LeValue, HashAt, TotalLeft, OnTime, Pending, WithNonce, HashedSoFar, AllHashed;
    ghost var g := GridOf(D, headerTemplate, target, startNonce, nonceCount);
    var s := Fresh(threads);
    ghost var owner: int := 0;
    FreshInv(g, threads);
    AllPending(threads, nonceCount);
    FreshOnTime(g, threads);
    FreshHashes(g, threads, headerTemplate);
    hashed := [];
    while exists i :: 0 <= i < |s.threads| && !s.threads[i].Done?
      invariant Inv(g, s, owner) && |s.threads| == threads
      invariant |hashed| + Pending(s.threads, nonceCount) <= nonceCount
      invariant !AnyWinner(g) ==> OnTime(g, s) && |hashed| + Pending(s.threads, nonceCount) == nonceCount
      invariant forall h :: h in hashed ==>
        exists i: nat :: i < nonceCount && h == WithNonce(headerTemplate, NonceAt(startNonce, i))
      invariant HashedSoFar(g, s, headerTemplate, hashed)
      decreases TotalLeft(s.threads)
    {
      var i :| 0 <= i < |s.threads| && !s.threads[i].Done?;
      StepProgress(g, s, i);
      ghost var before := owner;
      owner := StepKeepsInv(g, s, owner, i);
      StepThreads(g, s, i);
      HashingHasNonce(g, s, before, i);
      StepCounts(g, s, before, i);
      if !AnyWinner(g) { StepOnTime(g, s, before, i); }
      ghost var more, last := [], s;
      s, more := MoveThread(D, headerTemplate, target, startNonce, nonceCount, s, i);
      StepHashes(g, last, i, headerTemplate, hashed, more);
      hashed := hashed + more;
    }
    NothingPending(s, nonceCount);
    EndHashes(g, s, headerTemplate, hashed);
    FinishedInv(g, s, owner);
    found, nonce := s.found, s.nonce;
    Outcome(D, headerTemplate, target, startNonce, nonceCount, s);
  }

  lemma FreshInv(g: Grid, threads: nat)
    requires g.nonceCount <= threads
    ensures Inv(g, Fresh(threads), 0)
  {
  }

  lemma FreshOnTime(g: Grid, threads: nat)
    requires g.nonceCount <= threads
    ensures OnTime(g, Fresh(threads))
  {
  }

  lemma HashingHasNonce(g: Grid, s: Launch, owner: int, i: nat)
    requires Inv(g, s, owner) && i < |s.threads|
    ensures s.threads[i].Hashing? ==> i < g.nonceCount
  {
  }

  lemma StepThreads(g: Grid, s: Launch, i: nat)
    requires i < |s.threads| && !s.threads[i].Done?
    ensures |Step(g, s, i).threads| == |s.threads|
  {
  }

  lemma Outcome(D: Hasher, headerTemplate: seq<Byte>, target: Hash256, startNonce: Word, nonceCount: nat, s: Launch)
    requires |headerTemplate| == HEADER_SIZE
    ensures var g := GridOf(D, headerTemplate, target, startNonce, nonceCount);
      && (AnyWinner(g) <==> exists i: nat :: i < nonceCount && Hits(D, headerTemplate, target, startNonce, i))
      && (Stored(g, s) ==>
        exists i: nat :: HitAt(D, headerTemplate, target, startNonce, nonceCount, s.nonce, i))
  {
    hide LeValue, HashAt;
    var g := GridOf(D, headerTemplate, target, startNonce, nonceCount);
    forall i: nat ensures g.Wins(i) <==> i < nonceCount && Hits(D, headerTemplate, target, startNonce, i) {}
    if Stored(g, s) {
      var i: nat :| g.Wins(i) && s.nonce == g.Nonce(i);
      assert HitAt(D, headerTemplate, target, startNonce, nonceCount, s.nonce, i);
    }
  }
}

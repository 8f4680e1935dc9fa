/** The job slot that pool callbacks write and workers poll: MinerController of src/mining/miner.cpp. */
module Controller {
  import opened Arith
  import opened Bytes
  import opened Header
  import opened Merkle
  import opened Stats
  import opened Uint256
  import opened Work
  import ShareDifficulty

  const WRAP: nat := 0x1_0000_0000_0000_0000

  /** currentJob_, hasJob_ and the 64-bit jobGeneration_, all behind one mutex. */
  datatype Slot = Slot(hasJob: bool, job: MiningJob, generation: nat)

  function Bump(generation: nat): nat { (generation + 1) % WRAP }

  function WithJob(s: Slot, job: MiningJob): Slot { Slot(true, job, Bump(s.generation)) }

  function WithDifficulty(s: Slot, d: ShareDifficulty.Double): Slot {
    if s.hasJob then Slot(true, s.job.(difficulty := d), Bump(s.generation)) else s
  }

  function WithPoolState(s: Slot, state: PoolState): Slot {
    if state == Disconnected || state == Error then Slot(false, s.job, Bump(s.generation)) else s
  }

  class MinerController {
    var currentJob: MiningJob
    var hasJob: bool
    var jobGeneration: nat

    ghost function Contents(): Slot
      reads this
    {
      Slot(hasJob, currentJob, jobGeneration)
    }

    /** The slot as start() leaves it. */
    constructor (empty: MiningJob)
      ensures Contents() == Slot(false, empty, 0)
    {
      currentJob, hasJob, jobGeneration := empty, false, 0;
    }

    method SnapshotJob() returns (some: bool, job: MiningJob, generation: nat)
      ensures some == Contents().hasJob
      ensures some ==> job == Contents().job && generation == Contents().generation
    {
      job, generation := currentJob, jobGeneration;
      some := hasJob;
    }

    method OnJob(job: MiningJob)
      modifies this
      ensures Contents() == WithJob(old(Contents()), job)
    {
      currentJob := job;
      hasJob := true;
      jobGeneration := (jobGeneration + 1) % WRAP;
    }

    method OnDifficulty(difficulty: ShareDifficulty.Double)
      modifies this
      ensures Contents() == WithDifficulty(old(Contents()), difficulty)
    {
      if hasJob {
        currentJob := currentJob.(difficulty := difficulty);
        jobGeneration := (jobGeneration + 1) % WRAP;
      }
    }

    method OnPoolState(state: PoolState)
      modifies this
      ensures Contents() == WithPoolState(old(Contents()), state)
    {
      if state == Disconnected || state == Error {
        hasJob := false;
        jobGeneration := (jobGeneration + 1) % WRAP;
      }
    }
  }

  // ---- Workers and callbacks, interleaved --------------------------------

  /** Where a worker stands in workerLoop. */
  datatype Worker =
    | Idle
    | Holding(job: MiningJob, generation: nat)                  // has a snapshot, no extranonce2 counter yet
    | Ready(job: MiningJob, generation: nat, counter: nat)      // between chunks
    | Cleared(job: MiningJob, generation: nat, counter: nat)    // has checked the generation, about to start a chunk
    | Hashing(job: MiningJob, generation: nat, counter: nat)    // inside a chunk

  /** chunkSize is 2^18 on the CPU and 2^24 on the GPU. */
  datatype System = System(slot: Slot, counter: nat, workers: seq<Worker>, chunkSize: nat)

  /** One atomic step: a pool callback, or a worker's next move. */
  datatype Event =
    | JobArrives(job: MiningJob)
    | DifficultyChanges(d: ShareDifficulty.Double)
    | PoolStateChanges(state: PoolState)
    | Snapshot(w: nat)
    | DrawCounter(w: nat)
    | CheckGeneration(w: nat)
    | StartChunk(w: nat, nonces: nat)
    | FinishChunk(w: nat)
    | FinishSweep(w: nat)

  predicate Enabled(s: System, e: Event) {
    match e
    case JobArrives(_) => true
    case DifficultyChanges(_) => true
    case PoolStateChanges(_) => true
    case Snapshot(w) => w < |s.workers| && s.workers[w].Idle?
    case DrawCounter(w) => w < |s.workers| && s.workers[w].Holding?
    case CheckGeneration(w) => w < |s.workers| && s.workers[w].Ready?
    case StartChunk(w, nonces) => w < |s.workers| && s.workers[w].Cleared? && 0 < nonces <= s.chunkSize
    case FinishChunk(w) => w < |s.workers| && s.workers[w].Hashing?
    case FinishSweep(w) => w < |s.workers| && s.workers[w].Ready?
  }

  function Next(s: System, e: Event): System
    requires Enabled(s, e)
  {
    match e
    case JobArrives(job) => s.(slot := WithJob(s.slot, job))
    case DifficultyChanges(d) => s.(slot := WithDifficulty(s.slot, d))
    case PoolStateChanges(state) => s.(slot := WithPoolState(s.slot, state))
    case Snapshot(w) =>
      if s.slot.hasJob then s.(workers := s.workers[w := Holding(s.slot.job, s.slot.generation)]) else s
    case DrawCounter(w) =>
      var me := s.workers[w];
      s.(counter := (s.counter + 1) % WRAP, workers := s.workers[w := Ready(me.job, me.generation, s.counter)])
    case CheckGeneration(w) =>
      var me := s.workers[w];
      s.(workers := s.workers[w :=
        if s.slot.hasJob && s.slot.generation == me.generation then Cleared(me.job, me.generation, me.counter) else Idle])
    case StartChunk(w, _) =>
      var me := s.workers[w];
      s.(workers := s.workers[w := Hashing(me.job, me.generation, me.counter)])
    case FinishChunk(w) =>
      var me := s.workers[w];
      s.(workers := s.workers[w := Ready(me.job, me.generation, me.counter)])
    case FinishSweep(w) => s.(workers := s.workers[w := Idle])
  }

  ghost predicate Run(s: System, events: seq<Event>)
    decreases |events|
  {
    |events| > 0 ==> Enabled(s, events[0]) && Run(Next(s, events[0]), events[1..])
  }

  ghost function After(s: System, events: seq<Event>): System
    requires Run(s, events)
    decreases |events|
  {
    if |events| == 0 then s else After(Next(s, events[0]), events[1..])
  }

  ghost predicate Initial(s: System) {
    !s.slot.hasJob && s.slot.generation == 0 && s.counter == 0 && forall w :: 0 <= w < |s.workers| ==> s.workers[w].Idle?
  }

  // ---- Equal generations, equal jobs -------------------------------------

  /** jobs[g] is the job that was in the slot at generation g, if any; nothing has wrapped yet. */
  ghost predicate Consistent(s: System, jobs: seq<Slot>) {
    && |jobs| == s.slot.generation + 1 <= WRAP && s.counter < WRAP
    && jobs[s.slot.generation] == s.slot
    && (forall w :: 0 <= w < |s.workers| ==> Remembers(s, jobs, s.workers[w]))
    && (forall v, w :: 0 <= v < w < |s.workers| ==> Distinct(s.workers[v], s.workers[w]))
  }

  ghost predicate Remembers(s: System, jobs: seq<Slot>, me: Worker) {
    && (!me.Idle? ==> me.generation < |jobs| && jobs[me.generation].hasJob && jobs[me.generation].job == me.job)
    && (Counted(me) ==> me.counter < s.counter)
  }

  predicate Counted(me: Worker) { me.Ready? || me.Cleared? || me.Hashing? }

  predicate Distinct(a: Worker, b: Worker) { Counted(a) && Counted(b) ==> a.counter != b.counter }

  /** The history after one more step. */
  ghost function Record(s: System, jobs: seq<Slot>, e: Event): seq<Slot>
    requires Enabled(s, e)
  {
    var slot := Next(s, e).slot;
    if slot.generation == s.slot.generation then jobs else jobs + [slot]
  }

  /** Room for one more generation and one more counter. */
  ghost predicate Unwrapped(s: System) { s.slot.generation + 1 < WRAP && s.counter + 1 < WRAP }

  lemma StepKeeps(s: System, jobs: seq<Slot>, e: Event)
    requires Consistent(s, jobs) && Enabled(s, e) && Unwrapped(s)
    ensures Consistent(Next(s, e), Record(s, jobs, e))
    ensures Next(s, e).slot.generation <= s.slot.generation + 1 && Next(s, e).counter <= s.counter + 1
    ensures s.slot.generation <= Next(s, e).slot.generation && |Next(s, e).workers| == |s.workers|
  {
    var t, jobs' := Next(s, e), Record(s, jobs, e);
    forall w | 0 <= w < |t.workers| ensures Remembers(t, jobs', t.workers[w]) {
      assert Remembers(s, jobs, s.workers[w]);
    }
    forall v, w | 0 <= v < w < |t.workers| ensures Distinct(t.workers[v], t.workers[w]) {
      assert Remembers(s, jobs, s.workers[v]) && Remembers(s, jobs, s.workers[w]) && Distinct(s.workers[v], s.workers[w]);
    }
  }

  lemma {:induction false} RunKeeps(s: System, jobs: seq<Slot>, events: seq<Event>) returns (jobs': seq<Slot>)
    requires Consistent(s, jobs) && Run(s, events)
    requires s.slot.generation + |events| < WRAP && s.counter + |events| < WRAP
    ensures Consistent(After(s, events), jobs')
    ensures s.slot.generation <= After(s, events).slot.generation && |After(s, events).workers| == |s.workers|
    decreases |events|
  {
    jobs' := jobs;
    if |events| > 0 {
      StepKeeps(s, jobs, events[0]);
      jobs' := RunKeeps(Next(s, events[0]), Record(s, jobs, events[0]), events[1..]);
    }
  }

  /** A worker of this generation has this job. */
  predicate SameJob(me: Worker, job: MiningJob, generation: nat) {
    !me.Idle? && me.generation == generation ==> me.job == job
  }

  /**
   * In every interleaving short of 2^64 steps, a worker whose generation equals the slot's, with a job present, holds
   * exactly that job; workers with equal generations hold equal jobs; and of all the work items drawn in the run, whenever
   * and by whichever worker, no two share a counter.
   */
  lemma NoAba(s: System, events: seq<Event>)
    requires Initial(s) && Run(s, events) && |events| < WRAP
    ensures var t := After(s, events);
      && (forall w :: 0 <= w < |t.workers| && t.slot.hasJob ==> SameJob(t.workers[w], t.slot.job, t.slot.generation))
      && (forall v, w :: 0 <= v < w < |t.workers| && !t.workers[v].Idle? ==>
            SameJob(t.workers[w], t.workers[v].job, t.workers[v].generation))
      && (forall v, w :: 0 <= v < w < |t.workers| ==> Distinct(t.workers[v], t.workers[w]))
    ensures forall i, j :: 0 <= i < j < |Drawn(s, events)| ==> Drawn(s, events)[i].counter < Drawn(s, events)[j].counter
  {
    DrawnInOrder(s, events);
    var jobs := RunKeeps(s, [s.slot], events);
    var t := After(s, events);
    forall w | 0 <= w < |t.workers| && !t.workers[w].Idle?
      ensures t.workers[w].generation < |jobs| && jobs[t.workers[w].generation].job == t.workers[w].job
    {
      assert Remembers(t, jobs, t.workers[w]);
    }
  }

  /** A work item: the worker that drew its counter, and what it was drawn for. */
  datatype Item = Item(worker: nat, job: MiningJob, generation: nat, counter: nat)

  /** The work items of a run, in the order in which their counters were drawn. */
  ghost function Drawn(s: System, events: seq<Event>): seq<Item>
    requires Run(s, events)
    decreases |events|
  {
    if |events| == 0 then [] else DrawnBy(s, events[0]) + Drawn(Next(s, events[0]), events[1..])
  }

  ghost function DrawnBy(s: System, e: Event): seq<Item>
    requires Enabled(s, e)
  {
    if e.DrawCounter? then [Item(e.w, s.workers[e.w].job, s.workers[e.w].generation, s.counter)] else []
  }

  lemma {:induction false} DrawnInOrder(s: System, events: seq<Event>)
    requires Run(s, events) && s.counter + |events| < WRAP
    ensures forall i :: 0 <= i < |Drawn(s, events)| ==> s.counter <= Drawn(s, events)[i].counter < WRAP
    ensures forall i, j :: 0 <= i < j < |Drawn(s, events)| ==> Drawn(s, events)[i].counter < Drawn(s, events)[j].counter
    decreases |events|
  {
    if |events| > 0 {
      CounterMoves(s, events[0]);
      DrawnInOrder(Next(s, events[0]), events[1..]);
    }
  }

  lemma CounterMoves(s: System, e: Event)
    requires Enabled(s, e) && s.counter + 1 < WRAP
    ensures Next(s, e).counter == s.counter + |DrawnBy(s, e)|
  {
  }

  /** Whatever a worker is searching was drawn in the run. */
  ghost predicate HoldsDrawn(s: System, events: seq<Event>, w: nat)
    requires Run(s, events)
  {
    var t := After(s, events);
    w < |t.workers| && Counted(t.workers[w]) ==>
      var me := t.workers[w];
      Item(w, me.job, me.generation, me.counter) in Drawn(s, events)
  }

  /** The same from any state on, for a worker that has nothing yet or draws anew. */
  lemma {:induction false} HeldOrDrawn(s: System, events: seq<Event>, w: nat)
    requires Run(s, events) && w < |s.workers|
    ensures |After(s, events).workers| == |s.workers|
    ensures HoldsDrawn(s, events, w) || (Counted(s.workers[w]) && SameItem(s.workers[w], After(s, events).workers[w]))
    decreases |events|
  {
    if |events| > 0 {
      StepHolds(s, events[0], w);
      HeldOrDrawn(Next(s, events[0]), events[1..], w);
    }
  }

  predicate SameItem(a: Worker, b: Worker) {
    Counted(a) && Counted(b) && a.job == b.job && a.generation == b.generation && a.counter == b.counter
  }

  lemma StepHolds(s: System, e: Event, w: nat)
    requires Enabled(s, e) && w < |s.workers|
    ensures |Next(s, e).workers| == |s.workers|
    ensures var me := Next(s, e).workers[w];
      Counted(me) ==> SameItem(s.workers[w], me) || DrawnBy(s, e) == [Item(w, me.job, me.generation, me.counter)]
  {
  }

  lemma HeldIsDrawn(s: System, events: seq<Event>, w: nat)
    requires Initial(s) && Run(s, events) && w < |s.workers|
    ensures HoldsDrawn(s, events, w)
  {
    HeldOrDrawn(s, events, w);
  }

  /**
   * Any two work items of a run for one job, held at the same time or not, never lead to one input of the hash, at
   * whatever nonces, unless their counters agree modulo 256^size, which takes an extranonce2 of fewer than eight bytes,
   * or two inputs on the way to the headers collide.
   */
  lemma ItemsApart(D: Hasher, s: System, events: seq<Event>, i: nat, j: nat, m: Word, n: Word)
    requires Initial(s) && Run(s, events) && |events| < WRAP && i < j < |Drawn(s, events)|
    ensures var a, b := Drawn(s, events)[i], Drawn(s, events)[j];
      a.job == b.job && SameInput(D, a.job, a.counter, b.counter, m, n) ==>
        m == n && (Wrapped(a.job.extranonce2Size, a.counter, b.counter) || Collides(D, a.job, a.counter, b.counter))
  {
    hide SameInput, Wrapped, Collides;
    DrawnInOrder(s, events);
    var a, b := Drawn(s, events)[i], Drawn(s, events)[j];
    if a.job == b.job && SameInput(D, a.job, a.counter, b.counter, m, n) {
      SameInputApart(D, a.job, a.counter, b.counter, m, n);
    }
  }

  /**
   * Two workers with work for one job never hash the same input, at whatever nonces, unless their counters agree modulo
   * 256^size, which takes an extranonce2 of fewer than eight bytes, or two inputs on the way to the headers collide.
   */
  lemma WorkersApart(D: Hasher, s: System, events: seq<Event>, v: nat, w: nat, m: Word, n: Word)
    requires Initial(s) && Run(s, events) && |events| < WRAP && v < w < |s.workers|
    ensures |After(s, events).workers| == |s.workers|
    ensures var a, b := After(s, events).workers[v], After(s, events).workers[w];
      Counted(a) && Counted(b) && a.job == b.job && SameInput(D, a.job, a.counter, b.counter, m, n) ==>
        m == n && (Wrapped(a.job.extranonce2Size, a.counter, b.counter) || Collides(D, a.job, a.counter, b.counter))
  {
    hide SameInput, Wrapped, Collides;
    NoAba(s, events);
    var jobs := RunKeeps(s, [s.slot], events);
    RunGrows(s, [s.slot], events);
    var t := After(s, events);
    var a, b := t.workers[v], t.workers[w];
    if Counted(a) && Counted(b) && a.job == b.job && SameInput(D, a.job, a.counter, b.counter, m, n) {
      assert Remembers(t, jobs, a) && Remembers(t, jobs, b) && Distinct(a, b);
      SameInputApart(D, a.job, a.counter, b.counter, m, n);
    }
  }

  /** The inputs of the hash for two counters of a job, each at some nonce, are the same. */
  ghost predicate SameInput(D: Hasher, job: MiningJob, a: nat, b: nat, m: Word, n: Word) {
    WithNonce(Serialize(HeaderOf(D, job, BeBytes(a, job.extranonce2Size))), m)
    == WithNonce(Serialize(HeaderOf(D, job, BeBytes(b, job.extranonce2Size))), n)
  }

  ghost predicate Wrapped(size: nat, a: nat, b: nat) { size < 8 && a % Pow256(size) == b % Pow256(size) }

  ghost predicate Collides(D: Hasher, job: MiningJob, a: nat, b: nat) {
    exists x, y :: CollidesInside(D, job, BeBytes(a, job.extranonce2Size), BeBytes(b, job.extranonce2Size), x, y)
  }

  lemma SameInputApart(D: Hasher, job: MiningJob, a: nat, b: nat, m: Word, n: Word)
    requires a != b && a < WRAP && b < WRAP && SameInput(D, job, a, b, m, n)
    ensures m == n && (Wrapped(job.extranonce2Size, a, b) || Collides(D, job, a, b))
  {
    hide Pow256, CollidesInside, WithNonce, Serialize, HeaderOf, BeBytes;
    SameInputExplained(D, job, a, b, m, n);
    if job.extranonce2Size >= 8 {
      WideEnough(a, job.extranonce2Size);
      WideEnough(b, job.extranonce2Size);
    }
  }

  lemma WideEnough(counter: nat, size: nat)
    requires counter < WRAP && size >= 8
    ensures counter % Pow256(size) == counter
  {
    hide Pow256, Pow2;
    Pow256Is(8);
    Pow2Of64();
    Pow256Is(size);
    Pow2Mono(64, 8 * size);
    DivModUnique(counter, Pow256(size), 0, counter);
  }

  /** Two counters that agree modulo 256^size do give one input at equal nonces. */
  lemma WrappedCountersCoincide(D: Hasher, job: MiningJob, a: nat, b: nat, n: Word)
    requires a % Pow256(job.extranonce2Size) == b % Pow256(job.extranonce2Size)
    ensures SameInput(D, job, a, b, n, n)
  {
    hide Pow256, WithNonce, Serialize, HeaderOf;
    EncodedAlike(a, b, job.extranonce2Size);
  }

  // ---- How long old work goes on -----------------------------------------

  /** The chunks that worker w starts on work of a generation below g. */
  ghost function StaleStarts(s: System, events: seq<Event>, w: nat, g: nat): nat
    requires Run(s, events)
    decreases |events|
  {
    if |events| == 0 then 0
    else
      (if events[0].StartChunk? && events[0].w == w && s.workers[w].generation < g then 1 else 0)
      + StaleStarts(Next(s, events[0]), events[1..], w, g)
  }

  /** The nonces that those chunks cover. */
  ghost function StaleNonces(s: System, events: seq<Event>, w: nat, g: nat): nat
    requires Run(s, events)
    decreases |events|
  {
    if |events| == 0 then 0
    else
      (if events[0].StartChunk? && events[0].w == w && s.workers[w].generation < g then events[0].nonces else 0)
      + StaleNonces(Next(s, events[0]), events[1..], w, g)
  }

  /** The worker has checked an old generation and not yet started the chunk. */
  ghost predicate Committed(s: System, w: nat, g: nat) {
    w < |s.workers| && s.workers[w].Cleared? && s.workers[w].generation < g
  }

  lemma {:induction false} StaleWork(s: System, jobs: seq<Slot>, events: seq<Event>, w: nat, g: nat)
    requires Consistent(s, jobs) && Run(s, events) && g <= s.slot.generation
    requires s.slot.generation + |events| < WRAP && s.counter + |events| < WRAP
    ensures StaleStarts(s, events, w, g) <= if Committed(s, w, g) then 1 else 0
    ensures StaleNonces(s, events, w, g) <= if Committed(s, w, g) then s.chunkSize else 0
    decreases |events|
  {
    if |events| > 0 {
      var e, t := events[0], Next(s, events[0]);
      StepKeeps(s, jobs, e);
      StaleWork(t, Record(s, jobs, e), events[1..], w, g);
    }
  }

  /** A callback that ends the current generation. */
  predicate Replaces(s: System, e: Event) {
    || e.JobArrives?
    || (e.DifficultyChanges? && s.slot.hasJob)
    || (e.PoolStateChanges? && (e.state == Disconnected || e.state == Error))
  }

  /**
   * From the moment a job, a difficulty or a lost connection replaces the work, each worker starts at most one more
   * chunk of what it replaced, and only if it had already checked the generation for it.
   */
  lemma OldWorkEnds(s: System, before: seq<Event>, e: Event, after: seq<Event>, w: nat)
    requires Initial(s) && Run(s, before) && Enabled(After(s, before), e) && Replaces(After(s, before), e)
    requires Run(Next(After(s, before), e), after) && |before| + |after| + 1 < WRAP
    ensures var t := After(s, before);
      var committed := w < |t.workers| && t.workers[w].Cleared?;
      && StaleStarts(Next(t, e), after, w, t.slot.generation + 1) <= (if committed then 1 else 0)
      && StaleNonces(Next(t, e), after, w, t.slot.generation + 1) <= (if committed then t.chunkSize else 0)
  {
    hide Next, Enabled, Replaces, Consistent, StaleStarts, StaleNonces, Committed;
    var t := After(s, before);
    FreshHistory(s);
    var jobs := RunKeeps(s, [s.slot], before);
    RunGrows(s, [s.slot], before);
    StepKeeps(t, jobs, e);
    StepReplaces(t, jobs, e, w);
    StaleWork(Next(t, e), Record(t, jobs, e), after, w, t.slot.generation + 1);
  }

  lemma FreshHistory(s: System)
    requires Initial(s)
    ensures Consistent(s, [s.slot])
  {
  }

  lemma StepReplaces(s: System, jobs: seq<Slot>, e: Event, w: nat)
    requires Consistent(s, jobs) && Enabled(s, e) && Unwrapped(s) && Replaces(s, e)
    ensures Next(s, e).slot.generation == s.slot.generation + 1 && Next(s, e).chunkSize == s.chunkSize
    ensures Committed(Next(s, e), w, s.slot.generation + 1) ==> w < |s.workers| && s.workers[w].Cleared?
  {
  }

  /** Each step makes at most one new generation and draws at most one counter. */
  lemma {:induction false} RunGrows(s: System, jobs: seq<Slot>, events: seq<Event>)
    requires Consistent(s, jobs) && Run(s, events)
    requires s.slot.generation + |events| < WRAP && s.counter + |events| < WRAP
    ensures After(s, events).slot.generation <= s.slot.generation + |events|
    ensures After(s, events).counter <= s.counter + |events|
    decreases |events|
  {
    if |events| > 0 {
      StepKeeps(s, jobs, events[0]);
      RunGrows(Next(s, events[0]), Record(s, jobs, events[0]), events[1..]);
    }
  }

  /** The chunks that worker w starts on any work. */
  ghost function Starts(s: System, events: seq<Event>, w: nat): nat
    requires Run(s, events)
    decreases |events|
  {
    if |events| == 0 then 0
    else (if events[0].StartChunk? && events[0].w == w then 1 else 0) + Starts(Next(s, events[0]), events[1..], w)
  }

  /** From a lost connection until the next job a worker starts at most the one chunk it had already checked for. */
  lemma {:induction false} DeadConnection(s: System, events: seq<Event>, w: nat)
    requires Run(s, events) && !s.slot.hasJob && forall i :: 0 <= i < |events| ==> !events[i].JobArrives?
    ensures Starts(s, events, w) <= if w < |s.workers| && s.workers[w].Cleared? then 1 else 0
    decreases |events|
  {
    if |events| > 0 {
      assert forall i :: 0 <= i < |events[1..]| ==> events[1..][i] == events[i + 1];
      DeadConnection(Next(s, events[0]), events[1..], w);
    }
  }

  // ---- The bound is needed -----------------------------------------------

  lemma {:induction false} ManyJobs(s: System, job: MiningJob, n: nat)
    ensures var events := seq(n, _ => JobArrives(job));
      && Run(s, events) && After(s, events).workers == s.workers
      && (n > 0 ==> After(s, events).slot.hasJob && After(s, events).slot.job == job)
      && (s.slot.generation < WRAP ==> After(s, events).slot.generation == (s.slot.generation + n) % WRAP)
    decreases n
  {
    hide Next, Enabled;
    var events := seq(n, _ => JobArrives(job));
    if n > 0 {
      OneJob(s, job);
      assert events[0] == JobArrives(job) && events[1..] == seq(n - 1, _ => JobArrives(job));
      ManyJobs(Next(s, JobArrives(job)), job, n - 1);
      if s.slot.generation < WRAP { WrapOnce(s.slot.generation, n); }
    }
  }

  lemma OneJob(s: System, job: MiningJob)
    ensures Enabled(s, JobArrives(job))
    ensures var t := Next(s, JobArrives(job));
      t.workers == s.workers && t.slot.hasJob && t.slot.job == job && t.slot.generation == (s.slot.generation + 1) % WRAP
  {
  }

  lemma WrapOnce(g: nat, n: nat)
    requires g < WRAP && n > 0
    ensures ((g + 1) % WRAP + (n - 1)) % WRAP == (g + n) % WRAP
  {
  }

  /** After exactly 2^64 job changes the generation is back, and a worker can take a new job for its old one. */
  lemma AbaAfterWrap(s: System, w: nat, job: MiningJob)
    requires w < |s.workers| && s.workers[w].Ready? && s.workers[w].generation == s.slot.generation < WRAP
    requires job != s.workers[w].job
    ensures var events := seq(WRAP, _ => JobArrives(job));
      && Run(s, events) && Enabled(After(s, events), CheckGeneration(w))
      && var t := Next(After(s, events), CheckGeneration(w));
         t.workers[w].Cleared? && t.slot.hasJob && t.slot.generation == t.workers[w].generation
         && t.slot.job == job != t.workers[w].job
  {
    ManyJobs(s, job, WRAP);
  }
}

/** What is in the job slot, and what a worker's check of it finds, over whole runs: src/mining/miner.cpp. */
module ControllerSlot {
  import opened Controller
  import opened Stats
  import ShareDifficulty

  // ---- The slot ----------------------------------------------------------

  /** The pool connection is lost. */
  predicate Lost(e: Event) { e == PoolStateChanges(Disconnected) || e == PoolStateChanges(PoolState.Error) }

  /** Event k announces the job in force: no other job and no lost connection since. */
  ghost predicate InForce(events: seq<Event>, k: nat) {
    && k < |events| && events[k].JobArrives?
    && forall i :: k < i < |events| ==> !events[i].JobArrives? && !Lost(events[i])
  }

  /** The last difficulty announced after event k, or the one that came with its job. */
  ghost function DifficultySince(events: seq<Event>, k: nat): ShareDifficulty.Double
    requires k < |events| && events[k].JobArrives?
  {
    var n := |events| - 1;
    if n == k then events[k].job.difficulty
    else if events[n].DifficultyChanges? then events[n].d
    else DifficultySince(events[..n], k)
  }

  ghost predicate Holds(slot: Slot, events: seq<Event>) {
    && (slot.hasJob <==> exists k: nat :: InForce(events, k))
    && forall k: nat :: InForce(events, k) ==> slot.job == events[k].job.(difficulty := DifficultySince(events, k))
  }

  /**
   * After every run the slot has a job exactly when one has arrived and the connection has not been lost since; it is the
   * last that arrived, with the difficulty announced last since then.
   */
  lemma {:induction false} SlotIsLast(s: System, events: seq<Event>)
    requires Initial(s) && Run(s, events)
    ensures Holds(After(s, events).slot, events)
    decreases |events|
  {
    if |events| > 0 {
      var n := |events| - 1;
      RunSnoc(s, events, n);
      assert events[..n + 1] == events;
      SlotIsLast(s, events[..n]);
      StepHolds(After(s, events[..n]), events, n);
    }
  }

  lemma StepHolds(s: System, events: seq<Event>, n: nat)
    requires |events| == n + 1 && Enabled(s, events[n]) && Holds(s.slot, events[..n])
    ensures Holds(Next(s, events[n]).slot, events)
  {
    hide DifficultySince;
    var e, slot := events[n], Next(s, events[n]).slot;
    forall k: nat | k < n
      ensures InForce(events, k) <==> InForce(events[..n], k) && !e.JobArrives? && !Lost(e)
      ensures InForce(events, k) ==> slot.job == events[k].job.(difficulty := DifficultySince(events, k))
    {
      ForceStep(events, n, k);
      if InForce(events, k) { DifficultyStep(events, n, k); }
    }
    if e.JobArrives? {
      assert InForce(events, n);
      DifficultyStep(events, n, n);
    }
  }

  lemma ForceStep(events: seq<Event>, n: nat, k: nat)
    requires k < n && |events| == n + 1
    ensures InForce(events, k) <==> InForce(events[..n], k) && !events[n].JobArrives? && !Lost(events[n])
  {
    assert forall i :: k <= i < n ==> events[..n][i] == events[i];
  }

  lemma DifficultyStep(events: seq<Event>, n: nat, k: nat)
    requires k <= n && |events| == n + 1 && events[k].JobArrives?
    ensures DifficultySince(events, k)
      == if n == k then events[k].job.difficulty
         else if events[n].DifficultyChanges? then events[n].d
         else DifficultySince(events[..n], k)
  {
  }

  lemma {:induction false} RunSnoc(s: System, events: seq<Event>, n: nat)
    requires Run(s, events) && n < |events|
    ensures Run(s, events[..n]) && Run(s, events[..n + 1]) && Enabled(After(s, events[..n]), events[n])
    ensures After(s, events[..n + 1]) == Next(After(s, events[..n]), events[n])
    decreases n
  {
    hide Enabled, Next;
    assert events[..n + 1][0] == events[0];
    if n > 0 {
      RunSnoc(Next(s, events[0]), events[1..], n - 1);
      assert events[1..][..n - 1] == events[..n][1..] && events[1..][..n] == events[..n + 1][1..];
      assert events[..n][0] == events[0];
    } else {
      assert events[..1][1..] == [];
    }
  }

  // ---- The check ---------------------------------------------------------

  /** The callbacks of a run that end a generation. */
  ghost function Replacements(s: System, events: seq<Event>): nat
    requires Run(s, events)
    decreases |events|
  {
    if |events| == 0 then 0
    else (if Replaces(s, events[0]) then 1 else 0) + Replacements(Next(s, events[0]), events[1..])
  }

  /** A step changes the slot exactly when it replaces the work, and then the generation is a new one. */
  lemma SlotStep(s: System, e: Event)
    requires Enabled(s, e) && s.slot.generation + 1 < WRAP
    ensures Next(s, e).slot.generation == s.slot.generation + if Replaces(s, e) then 1 else 0
    ensures !Replaces(s, e) ==> Next(s, e).slot == s.slot
  {
  }

  lemma {:induction false} GenerationCounts(s: System, events: seq<Event>)
    requires Run(s, events) && s.slot.generation + |events| < WRAP
    ensures After(s, events).slot.generation == s.slot.generation + Replacements(s, events)
    ensures Replacements(s, events) == 0 ==> After(s, events).slot == s.slot
    decreases |events|
  {
    if |events| > 0 {
      hide Next, Enabled, Replaces;
      SlotStep(s, events[0]);
      GenerationCounts(Next(s, events[0]), events[1..]);
    }
  }

  ghost predicate NoSnapshot(events: seq<Event>, w: nat) { forall i :: 0 <= i < |events| ==> events[i] != Snapshot(w) }

  /** The worker has gone idle, or still works from the same snapshot. */
  predicate SameSnapshot(a: Worker, b: Worker) {
    b.Idle? || (!a.Idle? && b.job == a.job && b.generation == a.generation)
  }

  lemma SnapshotStep(s: System, e: Event, w: nat)
    requires Enabled(s, e) && w < |s.workers| && e != Snapshot(w)
    ensures |Next(s, e).workers| == |s.workers| && SameSnapshot(s.workers[w], Next(s, e).workers[w])
  {
  }

  lemma {:induction false} SnapshotKept(s: System, events: seq<Event>, w: nat)
    requires Run(s, events) && w < |s.workers| && NoSnapshot(events, w)
    ensures |After(s, events).workers| == |s.workers| && SameSnapshot(s.workers[w], After(s, events).workers[w])
    decreases |events|
  {
    if |events| > 0 {
      hide Next, Enabled;
      SnapshotStep(s, events[0], w);
      assert NoSnapshot(events[1..], w) by {
        assert forall i :: 0 <= i < |events[1..]| ==> events[1..][i] == events[i + 1];
      }
      SnapshotKept(Next(s, events[0]), events[1..], w);
    }
  }

  /**
   * The check that a worker makes before a chunk passes exactly when nothing has replaced its work since its snapshot; it
   * then goes on with the job it took, and otherwise takes a new one.
   */
  lemma CheckExactly(s: System, before: seq<Event>, w: nat, since: seq<Event>)
    requires Initial(s) && Run(s, before) && Enabled(After(s, before), Snapshot(w)) && After(s, before).slot.hasJob
    requires Run(Next(After(s, before), Snapshot(w)), since) && NoSnapshot(since, w) && |before| + |since| + 1 < WRAP
    requires Enabled(After(Next(After(s, before), Snapshot(w)), since), CheckGeneration(w))
    ensures var taken := Next(After(s, before), Snapshot(w));
      var me := Next(After(taken, since), CheckGeneration(w)).workers[w];
      && (me.Cleared? <==> Replacements(taken, since) == 0) && (!me.Cleared? ==> me.Idle?)
      && (me.Cleared? ==> me.job == After(s, before).slot.job && me.job == After(taken, since).slot.job)
  {
    hide Next, Enabled, Replacements, NoSnapshot;
    RunBound(s, before);
    var t := After(s, before);
    var taken := Next(t, Snapshot(w));
    SnapshotTakes(t, w);
    GenerationCounts(taken, since);
    SnapshotKept(taken, since, w);
    CheckCompares(After(taken, since), w);
  }

  lemma RunBound(s: System, events: seq<Event>)
    requires Initial(s) && Run(s, events) && |events| < WRAP
    ensures After(s, events).slot.generation <= |events|
  {
    FreshHistory(s);
    RunGrows(s, [s.slot], events);
  }

  lemma SnapshotTakes(s: System, w: nat)
    requires Enabled(s, Snapshot(w)) && s.slot.hasJob
    ensures var t := Next(s, Snapshot(w));
      t.slot == s.slot && w < |t.workers| && t.workers[w] == Holding(s.slot.job, s.slot.generation)
  {
  }

  lemma CheckCompares(s: System, w: nat)
    requires Enabled(s, CheckGeneration(w))
    ensures w < |s.workers| && s.workers[w].Ready? && w < |Next(s, CheckGeneration(w)).workers|
    ensures var me := Next(s, CheckGeneration(w)).workers[w];
      if s.slot.hasJob && s.slot.generation == s.workers[w].generation then me.Cleared? && me.job == s.workers[w].job
      else me.Idle?
  {
  }

  // ---- A lost connection -------------------------------------------------

  /**
   * Once the connection is lost, and until the next job arrives, a worker starts at most the one chunk that it had already
   * checked for, and one that is idle stays idle.
   */
  lemma LostConnection(s: System, e: Event, after: seq<Event>, w: nat)
    requires Lost(e) && Run(Next(s, e), after) && forall i :: 0 <= i < |after| ==> !after[i].JobArrives?
    ensures Starts(Next(s, e), after, w) <= if w < |s.workers| && s.workers[w].Cleared? then 1 else 0
    ensures w < |s.workers| && s.workers[w].Idle? ==>
      |After(Next(s, e), after).workers| == |s.workers| && After(Next(s, e), after).workers[w].Idle?
  {
    DeadConnection(Next(s, e), after, w);
    if w < |s.workers| && s.workers[w].Idle? { StaysIdle(Next(s, e), after, w); }
  }

  lemma {:induction false} StaysIdle(s: System, events: seq<Event>, w: nat)
    requires Run(s, events) && !s.slot.hasJob && forall i :: 0 <= i < |events| ==> !events[i].JobArrives?
    requires w < |s.workers| && s.workers[w].Idle?
    ensures |After(s, events).workers| == |s.workers| && After(s, events).workers[w].Idle?
    decreases |events|
  {
    if |events| > 0 {
      assert forall i :: 0 <= i < |events[1..]| ==> events[1..][i] == events[i + 1];
      StaysIdle(Next(s, events[0]), events[1..], w);
    }
  }
}

/** Hash-rate windows: src/mining/stats.cpp. */
module Stats {

  /** The state of the pool connection. */
  datatype PoolState = Disconnected | Connecting | Connected | Subscribed | Authorized | Error

  /** Clock readings are in milliseconds. */
  type Time = int

  const KEEP: int := 70_000

  datatype Sample = Sample(time: Time, hashes: nat)

  // ---- What a window shows -----------------------------------------------

  /** The samples not older than the cutoff. */
  function Since(samples: seq<Sample>, cutoff: Time): seq<Sample> {
    if |samples| == 0 then []
    else if samples[0].time < cutoff then Since(samples[1..], cutoff)
    else [samples[0]] + Since(samples[1..], cutoff)
  }

  function TotalHashes(samples: seq<Sample>): nat {
    if |samples| == 0 then 0 else samples[0].hashes + TotalHashes(samples[1..])
  }

  function Earliest(samples: seq<Sample>, now: Time): (e: Time)
    ensures e <= now && forall i :: 0 <= i < |samples| ==> e <= samples[i].time
  {
    if |samples| == 0 then now
    else
      var e := Earliest(samples[1..], now);
      if samples[0].time < e then samples[0].time else e
  }

  /** The hashes per second that a log shows over a window ending now. */
  function Rate(log: seq<Sample>, now: Time, window: int): real {
    var seen := Since(log, now - window);
    var hashes, elapsed := TotalHashes(seen), now - Earliest(seen, now);
    if hashes == 0 || elapsed <= 0 then 0.0 else (hashes * 1000) as real / elapsed as real
  }

  /** Exactly the samples not older than the cutoff are seen, in order and as often as they are there. */
  lemma {:induction false} SinceIs(samples: seq<Sample>, cutoff: Time)
    ensures forall s :: multiset(Since(samples, cutoff))[s] == if s.time < cutoff then 0 else multiset(samples)[s]
    decreases |samples|
  {
    if |samples| > 0 {
      assert samples == [samples[0]] + samples[1..];
      SinceIs(samples[1..], cutoff);
    }
  }

  /**
   * The rate times the milliseconds since the earliest sample seen is a thousand times the hashes seen; it is zero when
   * nothing was hashed or no time has passed.
   */
  lemma RateIs(log: seq<Sample>, now: Time, window: int)
    ensures var seen := Since(log, now - window);
      if TotalHashes(seen) == 0 || NoneBefore(seen, now) then Rate(log, now, window) == 0.0
      else exists e :: IsEarliest(seen, e) && IsRate(Rate(log, now, window), TotalHashes(seen), now - seen[e].time)
  {
    hide Since, TotalHashes, IsRate, Earliest, IsEarliest, NoneBefore;
    var seen := Since(log, now - window);
    EarliestIs(seen, now);
    if TotalHashes(seen) != 0 && !NoneBefore(seen, now) {
      var e :| IsEarliest(seen, e) && seen[e].time == Earliest(seen, now);
      QuotientIsRate(TotalHashes(seen), now - seen[e].time);
    }
  }

  predicate NoneBefore(samples: seq<Sample>, now: Time) { forall i :: 0 <= i < |samples| ==> samples[i].time >= now }

  predicate IsEarliest(samples: seq<Sample>, e: int)
    ensures IsEarliest(samples, e) ==> 0 <= e < |samples|
  {
    0 <= e < |samples| && forall i :: 0 <= i < |samples| ==> samples[e].time <= samples[i].time
  }

  predicate IsRate(rate: real, hashes: nat, milliseconds: int) { rate * milliseconds as real == 1000.0 * hashes as real }

  lemma QuotientIsRate(hashes: nat, milliseconds: int)
    requires milliseconds > 0
    ensures IsRate((hashes * 1000) as real / milliseconds as real, hashes, milliseconds)
  {
  }

  lemma {:induction false} EarliestIs(samples: seq<Sample>, now: Time)
    ensures Earliest(samples, now) == now <==> NoneBefore(samples, now)
    ensures Earliest(samples, now) < now ==>
      exists e :: IsEarliest(samples, e) && samples[e].time == Earliest(samples, now)
    decreases |samples|
  {
    if |samples| > 0 {
      var rest := samples[1..];
      EarliestIs(rest, now);
      assert forall i :: 0 <= i < |rest| ==> rest[i] == samples[i + 1];
      if Earliest(rest, now) < now {
        var e :| IsEarliest(rest, e) && rest[e].time == Earliest(rest, now);
        assert IsEarliest(samples, if samples[0].time < rest[e].time then 0 else e + 1);
      } else if samples[0].time < now {
        assert IsEarliest(samples, 0);
      }
    }
  }

  // ---- Pruning -----------------------------------------------------------

  /** Drops samples from the front while they are older than the cutoff. */
  function Prune(samples: seq<Sample>, cutoff: Time): seq<Sample> {
    if |samples| > 0 && samples[0].time < cutoff then Prune(samples[1..], cutoff) else samples
  }

  lemma {:induction false} SinceConcat(a: seq<Sample>, b: seq<Sample>, cutoff: Time)
    ensures Since(a + b, cutoff) == Since(a, cutoff) + Since(b, cutoff)
    decreases |a|
  {
    if |a| == 0 {
      assert a + b == b;
    } else {
      assert (a + b)[1..] == a[1..] + b;
      SinceConcat(a[1..], b, cutoff);
      assert [a[0]] + (Since(a[1..], cutoff) + Since(b, cutoff)) == [a[0]] + Since(a[1..], cutoff) + Since(b, cutoff);
    }
  }

  /** Pruning before the cutoff of a window does not change what the window shows. */
  lemma {:induction false} PruneUnseen(samples: seq<Sample>, prune: Time, cutoff: Time)
    requires prune <= cutoff
    ensures Since(Prune(samples, prune), cutoff) == Since(samples, cutoff)
    decreases |samples|
  {
    if |samples| > 0 && samples[0].time < prune {
      PruneUnseen(samples[1..], prune, cutoff);
    }
  }

  /** What a narrow window shows is what it shows of a wider one. */
  lemma {:induction false} SinceNarrows(samples: seq<Sample>, wide: Time, narrow: Time)
    requires wide <= narrow
    ensures Since(Since(samples, wide), narrow) == Since(samples, narrow)
    decreases |samples|
  {
    if |samples| > 0 {
      SinceNarrows(samples[1..], wide, narrow);
      if samples[0].time >= wide {
        var rest := Since(samples[1..], wide);
        assert ([samples[0]] + rest)[1..] == rest;
      }
    }
  }

  // ---- The statistics object ---------------------------------------------

  class Statistics {
    var totalHashes: nat
    var sessionHashes: nat
    var samples: seq<Sample>
    var sessionStart: Time
    var sessionActive: bool

    /** Every sample since the session last began or ended, and the latest clock reading that pruned one. */
    ghost var log: seq<Sample>
    ghost var horizon: Time

    /** The deque shows what the log shows, from 70 s before the horizon on; the session counter adds the log up. */
    ghost predicate Valid()
      reads this
    {
      && Since(samples, horizon - KEEP) == Since(log, horizon - KEEP)
      && (sessionActive ==> sessionHashes == TotalHashes(log))
    }

    constructor (now: Time)
      ensures Valid() && log == [] && samples == [] && totalHashes == 0 && sessionHashes == 0
      ensures !sessionActive && horizon == now
    {
      totalHashes, sessionHashes, samples := 0, 0, [];
      sessionStart, sessionActive := now, false;
      log, horizon := [], now;
    }

    method AddHashes(count: nat, now: Time)
      requires Valid()
      modifies this
      ensures Valid() && totalHashes == old(totalHashes) + count && sessionHashes == old(sessionHashes) + count
      ensures log == if count == 0 then old(log) else old(log) + [Sample(now, count)]
      ensures horizon == if count == 0 || now <= old(horizon) then old(horizon) else now
      ensures sessionActive == old(sessionActive) && sessionStart == old(sessionStart)
    {
      if count == 0 { return; }
      totalHashes := totalHashes + count;
      sessionHashes := sessionHashes + count;
      var sample := Sample(now, count);
      Pushed(samples, log, sample, horizon);
      samples := samples + [sample];
      TotalSnoc(log, sample);
      log := log + [sample];
      if horizon < now {
        Later(samples, log, horizon, now);
        horizon := now;
      }
      PruneUnseen(samples, now - KEEP, horizon - KEEP);
      PruneSamplesLocked(now);
    }

    method PruneSamplesLocked(now: Time)
      modifies this`samples
      ensures samples == Prune(old(samples), now - 70_000)
    {
      while |samples| > 0 && samples[0].time < now - KEEP
        invariant Prune(samples, now - KEEP) == Prune(old(samples), now - KEEP)
        decreases |samples|
      {
        samples := samples[1..];
      }
    }

    /** The rate over a window, from the pruned deque, is the rate over the whole log. */
    method HashrateOverWindow(window: int, now: Time) returns (rate: real)
      requires Valid() && now - window >= horizon - KEEP
      ensures rate == Rate(log, now, window)
    {
      Later(samples, log, horizon, now - window + KEEP);
      var cutoff := now - window;
      if |samples| == 0 { return 0.0; }
      assert samples[0..] == samples;
      var hashes: nat, earliest := 0, now;
      for i := 0 to |samples|
        invariant hashes + TotalHashes(Since(samples[i..], cutoff)) == TotalHashes(Since(samples, cutoff))
        invariant Earlier(earliest, Earliest(Since(samples[i..], cutoff), now)) == Earliest(Since(samples, cutoff), now)
      {
        SinceStep(samples, i, cutoff, now);
        if samples[i].time < cutoff { continue; }
        if samples[i].time < earliest { earliest := samples[i].time; }
        hashes := hashes + samples[i].hashes;
      }
      assert samples[|samples|..] == [];
      if hashes == 0 { return 0.0; }
      var elapsed := now - earliest;
      if elapsed <= 0 { return 0.0; }
      rate := (hashes * 1000) as real / elapsed as real;
    }

    method Hashrate10s(now: Time) returns (rate: real)
      requires Valid() && now + 60_000 >= horizon
      ensures rate == Rate(log, now, 10_000)
    {
      rate := HashrateOverWindow(10_000, now);
    }

    method Hashrate60s(now: Time) returns (rate: real)
      requires Valid() && now + 10_000 >= horizon
      ensures rate == Rate(log, now, 60_000)
    {
      rate := HashrateOverWindow(60_000, now);
    }

    method BeginSession(now: Time)
      modifies this
      ensures Valid() && log == [] && sessionHashes == 0 && sessionActive && sessionStart == now
      ensures totalHashes == old(totalHashes) && horizon == old(horizon)
    {
      sessionStart, sessionHashes, sessionActive := now, 0, true;
      samples, log := [], [];
    }

    method EndSession()
      modifies this
      ensures Valid() && log == [] && !sessionActive
      ensures totalHashes == old(totalHashes) && sessionHashes == old(sessionHashes) && horizon == old(horizon)
    {
      sessionActive := false;
      samples, log := [], [];
    }
  }

  function Earlier(a: Time, b: Time): Time { if a < b then a else b }

  lemma SinceStep(samples: seq<Sample>, i: nat, cutoff: Time, now: Time)
    requires i < |samples|
    ensures TotalHashes(Since(samples[i..], cutoff))
      == (if samples[i].time < cutoff then 0 else samples[i].hashes) + TotalHashes(Since(samples[i + 1..], cutoff))
    ensures Earliest(Since(samples[i..], cutoff), now)
      == if samples[i].time < cutoff then Earliest(Since(samples[i + 1..], cutoff), now)
         else Earlier(samples[i].time, Earliest(Since(samples[i + 1..], cutoff), now))
  {
  }

  lemma {:induction false} TotalSnoc(log: seq<Sample>, sample: Sample)
    ensures TotalHashes(log + [sample]) == TotalHashes(log) + sample.hashes
    decreases |log|
  {
    if |log| > 0 {
      assert (log + [sample])[1..] == log[1..] + [sample];
      TotalSnoc(log[1..], sample);
    } else {
      assert (log + [sample])[1..] == [];
    }
  }

  lemma Pushed(samples: seq<Sample>, log: seq<Sample>, sample: Sample, horizon: Time)
    requires Since(samples, horizon - KEEP) == Since(log, horizon - KEEP)
    ensures Since(samples + [sample], horizon - KEEP) == Since(log + [sample], horizon - KEEP)
  {
    SinceConcat(samples, [sample], horizon - KEEP);
    SinceConcat(log, [sample], horizon - KEEP);
  }

  lemma Later(samples: seq<Sample>, log: seq<Sample>, horizon: Time, later: Time)
    requires Since(samples, horizon - KEEP) == Since(log, horizon - KEEP) && horizon <= later
    ensures Since(samples, later - KEEP) == Since(log, later - KEEP)
  {
    SinceNarrows(samples, horizon - KEEP, later - KEEP);
    SinceNarrows(log, horizon - KEEP, later - KEEP);
  }
}

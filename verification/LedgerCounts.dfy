/** What the share counters count: src/stratum/client.cpp and the callbacks of src/mining/miner.cpp, over whole runs. */
module LedgerCounts {
  import opened Stats
  import opened Wrappers
  import opened Ledger

  /** The shares that a run settles with the given answer: those pending under the ids answered so, in order. */
  ghost function Answered(s: Ledger, events: seq<Event>, good: bool): seq<Share>
    requires Run(s, events)
    decreases |events|
  {
    if |events| == 0 then [] else AnsweredBy(s, events[0], good) + Answered(Next(s, events[0]), events[1..], good)
  }

  ghost function AnsweredBy(s: Ledger, e: Event, good: bool): seq<Share> {
    if e.Respond? && e.good == good && e.id in s.pending then [s.pending[e.id]] else []
  }

  /** The shares found while the session is authorized, or while it is not. */
  ghost function Found(s: Ledger, events: seq<Event>, authorized: bool): seq<Share>
    requires Run(s, events)
    decreases |events|
  {
    if |events| == 0 then [] else FoundBy(s, events[0], authorized) + Found(Next(s, events[0]), events[1..], authorized)
  }

  ghost function FoundBy(s: Ledger, e: Event, authorized: bool): seq<Share> {
    if e.Find? && (s.state == Authorized) == authorized then [e.share] else []
  }

  /** One step adds to each count what it answers or finds. */
  lemma StepAnswers(s: Ledger, e: Event)
    requires FreshIds(s) && Enabled(s, e)
    ensures Next(s, e).accepted == s.accepted + multiset(AnsweredBy(s, e, true))
    ensures Next(s, e).rejected == s.rejected + multiset(AnsweredBy(s, e, false))
    ensures Next(s, e).counters.accepted == s.counters.accepted + |AnsweredBy(s, e, true)|
    ensures Next(s, e).counters.rejected == s.counters.rejected + |AnsweredBy(s, e, false)|
  {
    hide Shares, Next, FreshIds, Enabled;
    match e {
      case Respond(id, good) => RespondAnswers(s, id, good);
      case _ => NothingAnswered(s, e);
    }
  }

  lemma RespondAnswers(s: Ledger, id: nat, good: bool)
    requires FreshIds(s) && Enabled(s, Respond(id, good))
    ensures var t := Next(s, Respond(id, good));
      && t.accepted == s.accepted + multiset(AnsweredBy(s, Respond(id, good), true))
      && t.rejected == s.rejected + multiset(AnsweredBy(s, Respond(id, good), false))
      && t.counters.accepted == s.counters.accepted + |AnsweredBy(s, Respond(id, good), true)|
      && t.counters.rejected == s.counters.rejected + |AnsweredBy(s, Respond(id, good), false)|
  {
    hide Shares;
  }

  lemma NothingAnswered(s: Ledger, e: Event)
    requires Enabled(s, e) && !e.Respond?
    ensures AnsweredBy(s, e, true) == [] && AnsweredBy(s, e, false) == []
    ensures Next(s, e).accepted == s.accepted && Next(s, e).rejected == s.rejected
    ensures Next(s, e).counters.accepted == s.counters.accepted && Next(s, e).counters.rejected == s.counters.rejected
  {
    hide Shares;
  }

  lemma StepFinds(s: Ledger, e: Event)
    requires Enabled(s, e)
    ensures Next(s, e).taken == s.taken + multiset(FoundBy(s, e, true))
    ensures Next(s, e).counters.stale == s.counters.stale + |FoundBy(s, e, false)|
    ensures Next(s, e).counters.verified == s.counters.verified + |FoundBy(s, e, true)| + |FoundBy(s, e, false)|
  {
    hide Shares;
  }

  lemma {:induction false} RunCounts(s: Ledger, events: seq<Event>)
    requires FreshIds(s) && Run(s, events)
    ensures After(s, events).accepted == s.accepted + multiset(Answered(s, events, true))
    ensures After(s, events).rejected == s.rejected + multiset(Answered(s, events, false))
    ensures After(s, events).taken == s.taken + multiset(Found(s, events, true))
    ensures After(s, events).counters.accepted == s.counters.accepted + |Answered(s, events, true)|
    ensures After(s, events).counters.rejected == s.counters.rejected + |Answered(s, events, false)|
    ensures After(s, events).counters.stale == s.counters.stale + |Found(s, events, false)|
    ensures After(s, events).counters.verified
      == s.counters.verified + |Found(s, events, true)| + |Found(s, events, false)|
    decreases |events|
  {
    hide Next, Enabled, FreshIds, AnsweredBy, FoundBy;
    if |events| > 0 {
      StepKeepsIds(s, events[0]);
      StepAnswers(s, events[0]);
      StepFinds(s, events[0]);
      RunCounts(Next(s, events[0]), events[1..]);
    }
  }

  /**
   * Over every run, the shares accepted are exactly those whose pending id was answered with no error and a true result,
   * the rejected ones those answered otherwise, and the stale ones those found while the session was not authorized.
   */
  lemma CountersCount(events: seq<Event>)
    requires Run(EMPTY, events)
    ensures var s := After(EMPTY, events);
      && s.accepted == multiset(Answered(EMPTY, events, true)) && s.counters.accepted == |Answered(EMPTY, events, true)|
      && s.rejected == multiset(Answered(EMPTY, events, false)) && s.counters.rejected == |Answered(EMPTY, events, false)|
      && s.taken == multiset(Found(EMPTY, events, true)) && s.counters.stale == |Found(EMPTY, events, false)|
      && s.counters.verified == |Found(EMPTY, events, true)| + |Found(EMPTY, events, false)|
  {
    hide Shares, Answered, Found;
    EmptyBalances();
    RunCounts(EMPTY, events);
  }

  // ---- The state of the session ------------------------------------------

  /** The state that a step announces; most leave it alone. */
  function Announced(s: Ledger, e: Event): Option<PoolState> {
    match e
    case Respond(id, good) =>
      if id != s.subscribeId && id != s.authorizeId then None
      else if !good then Some(Error)
      else if id == s.subscribeId then Some(Subscribed)
      else Some(Authorized)
    case Reset => Some(Connecting)
    case Subscribe(subscribed) => if subscribed then None else Some(Error)
    case Authorize(requested) => if requested then None else Some(Error)
    case ChangeState(next) => Some(next)
    case _ => None
  }

  /** The last state announced in a run, or the one before it. */
  ghost function LastAnnounced(s: Ledger, events: seq<Event>, before: PoolState): PoolState
    requires Run(s, events)
    decreases |events|
  {
    if |events| == 0 then before
    else
      LastAnnounced(Next(s, events[0]), events[1..],
                    match Announced(s, events[0]) case Some(state) => state case None => before)
  }

  /**
   * The state is the one announced last; so a share is taken exactly while the last word on the session is the answer that
   * grants the authorization requested last.
   */
  lemma {:induction false} StateIsLast(s: Ledger, events: seq<Event>)
    requires Run(s, events)
    ensures After(s, events).state == LastAnnounced(s, events, s.state)
    decreases |events|
  {
    if |events| > 0 {
      hide Next, Enabled, Announced;
      StepState(s, events[0]);
      StateIsLast(Next(s, events[0]), events[1..]);
    }
  }

  lemma StepState(s: Ledger, e: Event)
    requires Enabled(s, e)
    ensures Next(s, e).state == match Announced(s, e) case Some(state) => state case None => s.state
  {
    hide Shares;
  }
}

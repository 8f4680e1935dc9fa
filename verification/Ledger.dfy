/** Who owns a share between the worker that found it and the pool's answer: src/stratum/client.cpp. */
module Ledger {
  import opened StratumMessage
  import opened Stats
  import opened Wrappers

  type Share = ShareSubmission

  /**
   * The client's fields, the local queue of flushOutboundQueue, the miner's share counters, and, for the record, the
   * shares that were taken and what became of them.
   */
  datatype Ledger = Ledger(
    state: PoolState,
    outbound: seq<Share>,               // outbound_
    flushing: seq<Share>,               // taken out of outbound_ and not yet registered
    sending: Option<nat>,               // the id whose line is being sent
    pending: map<nat, Share>,           // pendingSubmits_
    nextId: nat, subscribeId: nat, authorizeId: nat,
    counters: Counters,
    entering: multiset<Share>,          // past submitShare's state check, not yet queued
    taken: multiset<Share>, accepted: multiset<Share>, rejected: multiset<Share>, dropped: multiset<Share>)

  /** Shares confirmed by the CPU, and the three share counters of the statistics. */
  datatype Counters = Counters(verified: nat, accepted: nat, rejected: nat, stale: nat)

  const EMPTY := Ledger(Disconnected, [], [], None, map[], 1, 0, 0, Counters(0, 0, 0, 0),
                        multiset{}, multiset{}, multiset{}, multiset{}, multiset{})

  /** One atomic step of a worker (the first two) or of the client's own thread. */
  datatype Event =
    | Find(share: Share)                // handleFoundNonce up to submitShare's check of the state
    | Push(found: Share)                // the rest of submitShare
    | BeginFlush
    | Register
    | SendResult(sent: bool)
    | Respond(id: nat, good: bool)      // handleResponse; good is no error and a result that is true or well formed
    | Reset                             // the head of runConnection
    | Subscribe(subscribed: bool)
    | Authorize(requested: bool)
    | ChangeState(next: PoolState)

  /** The client's thread is not in the middle of a flush. */
  predicate AtRest(s: Ledger) { s.flushing == [] && s.sending.None? }

  predicate Enabled(s: Ledger, e: Event) {
    match e
    case Find(_) => true
    case Push(share) => share in s.entering
    case BeginFlush => AtRest(s)
    case Register => s.sending.None? && |s.flushing| > 0
    case SendResult(_) => s.sending.Some? && s.sending.value in s.pending
    case ChangeState(next) => AtRest(s) && next != Subscribed && next != Authorized
    case _ => AtRest(s)
  }

  function Next(s: Ledger, e: Event): Ledger
    requires Enabled(s, e)
  {
    match e
    case Find(share) =>
      var c := s.counters.(verified := s.counters.verified + 1);
      if s.state == Authorized then
        s.(counters := c, entering := s.entering + multiset{share}, taken := s.taken + multiset{share})
      else s.(counters := c.(stale := c.stale + 1))
    case Push(share) => s.(entering := s.entering - multiset{share}, outbound := s.outbound + [share])
    case BeginFlush => s.(flushing := s.outbound, outbound := [])
    case Register =>
      s.(pending := s.pending[s.nextId := s.flushing[0]], sending := Some(s.nextId), nextId := s.nextId + 1,
         flushing := s.flushing[1..])
    case SendResult(sent) =>
      if sent then s.(sending := None)
      else s.(sending := None, pending := s.pending - {s.sending.value},
              dropped := s.dropped + multiset{s.pending[s.sending.value]})
    case Respond(id, good) =>
      if id == s.subscribeId then s.(state := if good then Subscribed else Error)
      else if id == s.authorizeId then s.(state := if good then Authorized else Error)
      else if id !in s.pending then s
      else if good then
        s.(pending := s.pending - {id}, accepted := s.accepted + multiset{s.pending[id]},
           counters := s.counters.(accepted := s.counters.accepted + 1))
      else
        s.(pending := s.pending - {id}, rejected := s.rejected + multiset{s.pending[id]},
           counters := s.counters.(rejected := s.counters.rejected + 1))
    case Reset =>
      s.(state := Connecting, pending := map[], outbound := [],
         dropped := s.dropped + multiset(s.outbound) + Shares(s.pending, s.nextId))
    case Subscribe(subscribed) =>
      s.(subscribeId := s.nextId, nextId := s.nextId + 1, state := if subscribed then s.state else Error)
    case Authorize(requested) =>
      s.(authorizeId := s.nextId, nextId := s.nextId + 1, state := if requested then s.state else Error)
    case ChangeState(next) => s.(state := next)
  }

  // ---- The shares in a map -----------------------------------------------

  /** The values under the keys below n, with their multiplicity. */
  function Shares(m: map<nat, Share>, n: nat): multiset<Share> {
    if n == 0 then multiset{} else Shares(m, n - 1) + if n - 1 in m then multiset{m[n - 1]} else multiset{}
  }

  lemma {:induction false} SharesAgree(a: map<nat, Share>, b: map<nat, Share>, n: nat)
    requires forall k: nat :: k < n ==> (k in a <==> k in b) && (k in a ==> a[k] == b[k])
    ensures Shares(a, n) == Shares(b, n)
  {
    if n > 0 { SharesAgree(a, b, n - 1); }
  }

  lemma {:induction false} SharesWithout(m: map<nat, Share>, k: nat, n: nat)
    requires k in m && k < n
    ensures Shares(m, n) == Shares(m - {k}, n) + multiset{m[k]}
  {
    var rest := m - {k};
    assert k !in rest && forall j :: j in rest <==> j in m && j != k;
    if k == n - 1 {
      SharesAgree(m, rest, n - 1);
    } else {
      SharesWithout(m, k, n - 1);
      assert n - 1 in m <==> n - 1 in rest;
    }
  }

  lemma {:induction false} SharesOfEmpty(n: nat)
    ensures Shares(map[], n) == multiset{}
  {
    if n > 0 { SharesOfEmpty(n - 1); }
  }

  lemma {:induction false} SharesCount(m: map<nat, Share>, n: nat)
    requires forall k :: k in m ==> k < n
    ensures |Shares(m, n)| == |m|
    decreases n
  {
    hide Shares;
    CountStep(m, n);
    if n == 0 {
      NoKeys(m);
    } else if n - 1 in m {
      LastKey(m, n);
      SharesCount(m - {n - 1}, n - 1);
    } else {
      SharesCount(m, n - 1);
    }
  }

  lemma CountStep(m: map<nat, Share>, n: nat)
    ensures |Shares(m, 0)| == 0
    ensures n > 0 ==> |Shares(m, n)| == |Shares(m, n - 1)| + if n - 1 in m then 1 else 0
  {
  }

  /** Taking out the last key leaves the shares below it. */
  lemma LastKey(m: map<nat, Share>, n: nat)
    requires n > 0 && n - 1 in m && forall k :: k in m ==> k < n
    ensures var rest := m - {n - 1};
      |rest| + 1 == |m| && Shares(rest, n - 1) == Shares(m, n - 1) && forall k :: k in rest ==> k < n - 1
  {
    hide Shares;
    OneKeyLess(m, n - 1);
    SharesAgree(m, m - {n - 1}, n - 1);
  }

  lemma OneKeyLess(m: map<nat, Share>, k: nat)
    requires k in m
    ensures |m - {k}| + 1 == |m|
  {
  }

  lemma NoKeys(m: map<nat, Share>)
    requires forall k :: k in m ==> k < 0
    ensures |m| == 0
  {
  }

  // ---- Conservation ------------------------------------------------------

  /** The shares that have been taken and are still on their way. */
  ghost function Underway(s: Ledger): multiset<Share> {
    s.entering + multiset(s.outbound) + multiset(s.flushing) + Shares(s.pending, s.nextId)
  }

  /** Every share taken is in exactly one place. */
  ghost predicate Conserved(s: Ledger) { s.taken == Underway(s) + s.accepted + s.rejected + s.dropped }

  /** The counters count what they should. */
  ghost predicate Tallied(s: Ledger) {
    && |s.accepted| == s.counters.accepted && |s.rejected| == s.counters.rejected
    && |s.taken| + s.counters.stale == s.counters.verified
  }

  /** No id is reused: those of pending shares differ from each other and from those of the two session requests. */
  ghost predicate FreshIds(s: Ledger) {
    && (forall id :: id in s.pending ==> id < s.nextId && id != s.subscribeId && id != s.authorizeId)
    && s.subscribeId < s.nextId && s.authorizeId < s.nextId
    && (s.sending.Some? ==> s.sending.value in s.pending)
  }

  ghost predicate Balanced(s: Ledger) { Conserved(s) && Tallied(s) && FreshIds(s) }

  lemma StepKeepsIds(s: Ledger, e: Event)
    requires FreshIds(s) && Enabled(s, e)
    ensures FreshIds(Next(s, e))
  {
    hide Shares;
  }

  lemma StepTallies(s: Ledger, e: Event)
    requires Tallied(s) && Enabled(s, e)
    ensures Tallied(Next(s, e))
  {
    hide Shares;
    match e {
      case Find(share) => FindTallies(s, share);
      case Respond(id, good) => RespondTallies(s, id, good);
      case _ =>
    }
  }

  lemma FindTallies(s: Ledger, share: Share)
    requires Tallied(s)
    ensures Tallied(Next(s, Find(share)))
  {
    hide Shares;
  }

  lemma RespondTallies(s: Ledger, id: nat, good: bool)
    requires Tallied(s) && Enabled(s, Respond(id, good))
    ensures Tallied(Next(s, Respond(id, good)))
  {
    hide Tallied;
    var t := Next(s, Respond(id, good));
    if id != s.subscribeId && id != s.authorizeId && id in s.pending {
      SettledTallies(s, t, s.pending[id]);
    } else {
      SameTallies(s, t);
    }
  }

  lemma SameTallies(s: Ledger, t: Ledger)
    requires Tallied(s) && t == s.(state := t.state)
    ensures Tallied(t)
  {
  }

  lemma SettledTallies(s: Ledger, t: Ledger, share: Share)
    requires Tallied(s) && t.taken == s.taken
    requires
      || (t.accepted == s.accepted + multiset{share} && t.rejected == s.rejected
          && t.counters == s.counters.(accepted := s.counters.accepted + 1))
      || (t.rejected == s.rejected + multiset{share} && t.accepted == s.accepted
          && t.counters == s.counters.(rejected := s.counters.rejected + 1))
    ensures Tallied(t)
  {
  }

  lemma StepConserves(s: Ledger, e: Event)
    requires Conserved(s) && FreshIds(s) && Enabled(s, e)
    ensures Conserved(Next(s, e))
  {
    hide Next, Conserved, FreshIds, Shares;
    match e {
      case Push(share) => PushConserves(s, share);
      case Register => RegisterConserves(s);
      case SendResult(sent) => SendConserves(s, sent);
      case Respond(id, good) => RespondConserves(s, id, good);
      case Reset => ResetConserves(s);
      case Find(share) => FindConserves(s, share);
      case BeginFlush => FlushConserves(s);
      case _ => IdsConserve(s, e);
    }
  }

  lemma FindConserves(s: Ledger, share: Share)
    requires Conserved(s)
    ensures Conserved(Next(s, Find(share)))
  {
  }

  lemma FlushConserves(s: Ledger)
    requires Conserved(s) && Enabled(s, BeginFlush)
    ensures Conserved(Next(s, BeginFlush))
  {
  }

  lemma PushConserves(s: Ledger, share: Share)
    requires Conserved(s) && share in s.entering
    ensures Conserved(Next(s, Push(share)))
  {
  }

  lemma RegisterConserves(s: Ledger)
    requires Conserved(s) && FreshIds(s) && Enabled(s, Register)
    ensures Conserved(Next(s, Register))
  {
    hide Shares;
    RegisterMoves(s.pending, s.nextId, s.flushing);
    var t := Next(s, Register);
    SwapLast(s.entering + multiset(s.outbound), multiset(s.flushing), Shares(s.pending, s.nextId));
    SwapLast(t.entering + multiset(t.outbound), multiset(t.flushing), Shares(t.pending, t.nextId));
    assert Shares(t.pending, t.nextId) + multiset(t.flushing) == Shares(s.pending, s.nextId) + multiset(s.flushing);
    assert Underway(t) == Underway(s);
  }

  lemma SwapLast(a: multiset<Share>, b: multiset<Share>, c: multiset<Share>)
    ensures a + b + c == a + (c + b)
  {
  }

  lemma SendConserves(s: Ledger, sent: bool)
    requires Conserved(s) && FreshIds(s) && Enabled(s, SendResult(sent))
    ensures Conserved(Next(s, SendResult(sent)))
  {
    hide Shares;
    var id := s.sending.value;
    var rest := s.pending - {id};
    SharesWithout(s.pending, id, s.nextId);
    MoveOne(s.entering + multiset(s.outbound) + multiset(s.flushing), Shares(s.pending, s.nextId), Shares(rest, s.nextId),
            s.accepted, s.rejected, s.dropped, multiset{s.pending[id]});
  }

  /** One share leaves the pending ones for one of the three ends. */
  lemma MoveOne(x: multiset<Share>, p: multiset<Share>, rest: multiset<Share>, a: multiset<Share>, r: multiset<Share>,
                d: multiset<Share>, one: multiset<Share>)
    requires p == rest + one
    ensures x + p + a + r + d == x + rest + (a + one) + r + d
    ensures x + p + a + r + d == x + rest + a + (r + one) + d
    ensures x + p + a + r + d == x + rest + a + r + (d + one)
  {
  }

  lemma RespondConserves(s: Ledger, id: nat, good: bool)
    requires Conserved(s) && FreshIds(s) && Enabled(s, Respond(id, good))
    ensures Conserved(Next(s, Respond(id, good)))
  {
    hide Shares;
    if id in s.pending {
      var rest := s.pending - {id};
      SharesWithout(s.pending, id, s.nextId);
      MoveOne(s.entering + multiset(s.outbound) + multiset(s.flushing), Shares(s.pending, s.nextId), Shares(rest, s.nextId),
              s.accepted, s.rejected, s.dropped, multiset{s.pending[id]});
    }
  }

  lemma ResetConserves(s: Ledger)
    requires Conserved(s) && Enabled(s, Reset)
    ensures Conserved(Next(s, Reset))
  {
    hide Shares;
    SharesOfEmpty(s.nextId);
    DropAll(s.entering, multiset(s.outbound), multiset(s.flushing), Shares(s.pending, s.nextId),
            s.accepted, s.rejected, s.dropped);
  }

  lemma DropAll(e: multiset<Share>, o: multiset<Share>, f: multiset<Share>, p: multiset<Share>, a: multiset<Share>,
                r: multiset<Share>, d: multiset<Share>)
    ensures var none: seq<Share> := [];
      e + o + f + p + a + r + d == e + multiset(none) + f + multiset{} + a + r + (d + o + p)
  {
  }

  lemma IdsConserve(s: Ledger, e: Event)
    requires Conserved(s) && FreshIds(s) && Enabled(s, e)
    requires e.Subscribe? || e.Authorize? || e.ChangeState?
    ensures Conserved(Next(s, e))
  {
    hide Shares;
    SharesBeyond(s.pending, s.nextId);
  }

  lemma RegisterMoves(m: map<nat, Share>, n: nat, flushing: seq<Share>)
    requires |flushing| > 0 && n !in m
    ensures Shares(m[n := flushing[0]], n + 1) + multiset(flushing[1..]) == Shares(m, n) + multiset(flushing)
  {
    SharesAgree(m, m[n := flushing[0]], n);
    assert flushing == [flushing[0]] + flushing[1..];
  }

  lemma SharesBeyond(m: map<nat, Share>, n: nat)
    requires n !in m
    ensures Shares(m, n + 1) == Shares(m, n)
  {
  }

  lemma StepBalances(s: Ledger, e: Event)
    requires Balanced(s) && Enabled(s, e)
    ensures Balanced(Next(s, e))
  {
    hide Conserved, Tallied, FreshIds, Next, Enabled;
    StepKeepsIds(s, e);
    StepTallies(s, e);
    StepConserves(s, e);
  }

  ghost predicate Run(s: Ledger, events: seq<Event>)
    decreases |events|
  {
    |events| > 0 ==> Enabled(s, events[0]) && Run(Next(s, events[0]), events[1..])
  }

  ghost function After(s: Ledger, events: seq<Event>): Ledger
    requires Run(s, events)
    decreases |events|
  {
    if |events| == 0 then s else After(Next(s, events[0]), events[1..])
  }

  lemma {:induction false} RunBalances(s: Ledger, events: seq<Event>)
    requires Balanced(s) && Run(s, events)
    ensures Balanced(After(s, events))
    decreases |events|
  {
    if |events| > 0 {
      StepBalances(s, events[0]);
      RunBalances(Next(s, events[0]), events[1..]);
    }
  }

  lemma EmptyBalances()
    ensures Balanced(EMPTY)
  {
  }

  /**
   * Over every run of finding, queueing, flushing, answering, failing to send and reconnecting, the shares the CPU
   * confirmed are exactly those accepted, rejected, stale, still underway, or dropped.
   */
  lemma Conservation(events: seq<Event>)
    requires Run(EMPTY, events)
    ensures var s := After(EMPTY, events);
      && s.taken == Underway(s) + s.accepted + s.rejected + s.dropped
      && s.counters.verified == s.counters.accepted + s.counters.rejected + s.counters.stale
           + |s.entering| + |s.outbound| + |s.flushing| + |s.pending| + |s.dropped|
  {
    EmptyBalances();
    RunBalances(EMPTY, events);
    SharesCount(After(EMPTY, events).pending, After(EMPTY, events).nextId);
  }

  // ---- When shares are lost ----------------------------------------------

  /** The two steps that can lose shares: a line that does not go out, and a reconnect with anything queued or pending. */
  predicate Loses(s: Ledger, e: Event) {
    e == SendResult(false) || (e.Reset? && (s.outbound != [] || s.pending != map[]))
  }

  /** No step of the run loses a share. */
  ghost predicate Lossless(s: Ledger, events: seq<Event>)
    requires Run(s, events)
    decreases |events|
  {
    |events| > 0 ==> !Loses(s, events[0]) && Lossless(Next(s, events[0]), events[1..])
  }

  lemma StepDrops(s: Ledger, e: Event)
    requires FreshIds(s) && Enabled(s, e)
    ensures |s.dropped| <= |Next(s, e).dropped|
    ensures Loses(s, e) <==> |s.dropped| < |Next(s, e).dropped|
  {
    hide Shares;
    if e.Reset? {
      SharesCount(s.pending, s.nextId);
      NoShares(s.pending);
    }
  }

  lemma NoShares(m: map<nat, Share>)
    ensures |m| == 0 <==> m == map[]
  {
  }

  lemma {:induction false} RunDrops(s: Ledger, events: seq<Event>)
    requires FreshIds(s) && Run(s, events)
    ensures |s.dropped| <= |After(s, events).dropped|
    ensures Lossless(s, events) <==> |s.dropped| == |After(s, events).dropped|
    decreases |events|
  {
    hide Next, Loses, FreshIds, Enabled;
    if |events| > 0 {
      StepKeepsIds(s, events[0]);
      StepDrops(s, events[0]);
      RunDrops(Next(s, events[0]), events[1..]);
    }
  }

  /**
   * The counters and the shares still on their way account for every confirmed share exactly when every line went out
   * and every reconnect found the queue and the pending shares empty.
   */
  lemma CountersMissDropped(events: seq<Event>)
    requires Run(EMPTY, events)
    ensures var s := After(EMPTY, events);
      s.counters.verified == s.counters.accepted + s.counters.rejected + s.counters.stale
        + |s.entering| + |s.outbound| + |s.flushing| + |s.pending|
      <==> Lossless(EMPTY, events)
    ensures var s := After(EMPTY, events);
      Underway(s) == multiset{} ==>
        (s.counters.verified == s.counters.accepted + s.counters.rejected + s.counters.stale <==> Lossless(EMPTY, events))
  {
    EmptyBalances();
    Conservation(events);
    RunDrops(EMPTY, events);
    UnderwayCount(EMPTY, events);
  }

  lemma UnderwayCount(s: Ledger, events: seq<Event>)
    requires Balanced(s) && Run(s, events)
    ensures var t := After(s, events); |Underway(t)| == |t.entering| + |t.outbound| + |t.flushing| + |t.pending|
  {
    hide Shares, Conserved, Tallied;
    RunBalances(s, events);
    SharesCount(After(s, events).pending, After(s, events).nextId);
  }

  /** A share that is queued when the connection is lost vanishes from every counter: it is not stale. */
  lemma ReconnectDrops(share: Share)
    ensures var events := [Subscribe(true), Authorize(true), Respond(2, true), Find(share), Push(share), Reset];
      && Run(EMPTY, events)
      && var s := After(EMPTY, events);
         s.dropped == multiset{share} && s.counters == Counters(1, 0, 0, 0) && Underway(s) == multiset{}
  {
    hide Next, Enabled, Shares;
    var l: seq<Event> := [Subscribe(true), Authorize(true), Respond(2, true), Find(share), Push(share), Reset];
    var s3, s5 := Session(), Queued(share);
    var s6 := s5.(outbound := [], dropped := multiset{share}, state := Connecting);
    LossStep(share);
    SharesOfEmpty(3);
    RunFrom(s6, l, 6);
    RunFrom(s5, l, 5);
    QueuedRun(share, l);
  }

  /** A share whose line does not go out vanishes the same way. */
  lemma SendFailureDrops(share: Share)
    ensures var events := [Subscribe(true), Authorize(true), Respond(2, true), Find(share), Push(share),
                           BeginFlush, Register, SendResult(false)];
      && Run(EMPTY, events)
      && var s := After(EMPTY, events);
         s.dropped == multiset{share} && s.counters == Counters(1, 0, 0, 0) && Underway(s) == multiset{}
  {
    hide Next, Enabled, Shares;
    var l: seq<Event> := [Subscribe(true), Authorize(true), Respond(2, true), Find(share), Push(share),
                          BeginFlush, Register, SendResult(false)];
    var s5 := Queued(share);
    var s6 := s5.(outbound := [], flushing := [share]);
    var s7 := s6.(flushing := [], pending := map[3 := share], sending := Some(3), nextId := 4);
    var s8 := s7.(pending := map[], sending := None, dropped := multiset{share});
    FailSteps(share, s6, s7, s8);
    SharesOfEmpty(4);
    RunFrom(s8, l, 8);
    RunFrom(s7, l, 7);
    RunFrom(s6, l, 6);
    RunFrom(s5, l, 5);
    QueuedRun(share, l);
  }

  /** An authorized session, and one with a share in its queue. */
  ghost function Session(): Ledger { EMPTY.(subscribeId := 1, authorizeId := 2, nextId := 3, state := Authorized) }

  ghost function Queued(share: Share): Ledger {
    Session().(counters := Counters(1, 0, 0, 0), taken := multiset{share}, outbound := [share])
  }

  lemma QueuedRun(share: Share, l: seq<Event>)
    requires |l| >= 5 && l[..5] == [Subscribe(true), Authorize(true), Respond(2, true), Find(share), Push(share)]
    requires Run(Queued(share), l[5..])
    ensures Run(EMPTY, l) && After(EMPTY, l) == After(Queued(share), l[5..])
  {
    hide Next, Enabled, Shares;
    var s1 := EMPTY.(subscribeId := 1, nextId := 2);
    var s2 := s1.(authorizeId := 2, nextId := 3);
    var s4 := Queued(share).(entering := multiset{share}, outbound := []);
    assert l[0] == l[..5][0] && l[1] == l[..5][1] && l[2] == l[..5][2] && l[3] == l[..5][3] && l[4] == l[..5][4];
    SessionSteps(s1, s2, Session());
    QueueSteps(share, s4);
    RunFrom(s4, l, 4);
    RunFrom(Session(), l, 3);
    RunFrom(s2, l, 2);
    RunFrom(s1, l, 1);
    RunFrom(EMPTY, l, 0);
    assert l[0..] == l;
  }

  lemma QueueSteps(share: Share, s4: Ledger)
    requires s4 == Queued(share).(entering := multiset{share}, outbound := [])
    ensures Enabled(Session(), Find(share)) && Next(Session(), Find(share)) == s4
    ensures Enabled(s4, Push(share)) && Next(s4, Push(share)) == Queued(share)
  {
  }

  lemma FailSteps(share: Share, s6: Ledger, s7: Ledger, s8: Ledger)
    requires s6 == Queued(share).(outbound := [], flushing := [share])
    requires s7 == s6.(flushing := [], pending := map[3 := share], sending := Some(3), nextId := 4)
    requires s8 == s7.(pending := map[], sending := None, dropped := multiset{share})
    ensures Enabled(Queued(share), BeginFlush) && Next(Queued(share), BeginFlush) == s6
    ensures Enabled(s6, Register) && Next(s6, Register) == s7
    ensures Enabled(s7, SendResult(false)) && Next(s7, SendResult(false)) == s8
  {
    assert s7.pending - {3} == map[];
  }

  lemma SessionSteps(s1: Ledger, s2: Ledger, s3: Ledger)
    requires s1 == EMPTY.(subscribeId := 1, nextId := 2) && s2 == s1.(authorizeId := 2, nextId := 3)
    requires s3 == s2.(state := Authorized)
    ensures Enabled(EMPTY, Subscribe(true)) && Next(EMPTY, Subscribe(true)) == s1
    ensures Enabled(s1, Authorize(true)) && Next(s1, Authorize(true)) == s2
    ensures Enabled(s2, Respond(2, true)) && Next(s2, Respond(2, true)) == s3
  {
  }

  lemma LossStep(share: Share)
    ensures Enabled(Queued(share), Reset)
    ensures Next(Queued(share), Reset) == Queued(share).(outbound := [], dropped := multiset{share}, state := Connecting)
  {
    hide Shares;
    SharesOfEmpty(3);
  }

  /** One step at the front of what remains of a run. */
  lemma RunFrom(s: Ledger, l: seq<Event>, k: nat)
    requires k <= |l|
    ensures k == |l| ==> Run(s, l[k..]) && After(s, l[k..]) == s
    ensures k < |l| && Enabled(s, l[k]) && Run(Next(s, l[k]), l[k + 1..]) ==>
      Run(s, l[k..]) && After(s, l[k..]) == After(Next(s, l[k]), l[k + 1..])
  {
  }

  /** An id that has left the pending shares, answered or dropped, is never pending again. */
  lemma {:induction false} AnsweredOnce(s: Ledger, events: seq<Event>, id: nat)
    requires FreshIds(s) && Run(s, events) && id < s.nextId && id !in s.pending
    ensures id !in After(s, events).pending
    decreases |events|
  {
    if |events| > 0 {
      StepKeepsIds(s, events[0]);
      IdStaysOut(s, events[0], id);
      AnsweredOnce(Next(s, events[0]), events[1..], id);
    }
  }

  lemma IdStaysOut(s: Ledger, e: Event, id: nat)
    requires Enabled(s, e) && id < s.nextId && id !in s.pending
    ensures id < Next(s, e).nextId && id !in Next(s, e).pending
  {
  }

  // ---- The client itself -------------------------------------------------

  class StratumClient {
    var state: PoolState
    var outbound: seq<Share>
    var pendingSubmits: map<nat, Share>
    var nextId: nat
    var subscribeId: nat
    var authorizeId: nat
    /** The statistics that the controller's callbacks keep. */
    var counters: Counters

    ghost var flushing: seq<Share>
    ghost var sending: Option<nat>
    ghost var entering: multiset<Share>
    ghost var taken: multiset<Share>
    ghost var accepted: multiset<Share>
    ghost var rejected: multiset<Share>
    ghost var dropped: multiset<Share>

    ghost function Contents(): Ledger
      reads this
    {
      Ledger(state, outbound, flushing, sending, pendingSubmits, nextId, subscribeId, authorizeId, counters,
             entering, taken, accepted, rejected, dropped)
    }

    ghost predicate Valid()
      reads this
    {
      Balanced(Contents())
    }

    constructor ()
      ensures Contents() == EMPTY && Valid()
    {
      state, outbound, pendingSubmits := Disconnected, [], map[];
      nextId, subscribeId, authorizeId, counters := 1, 0, 0, Counters(0, 0, 0, 0);
      flushing, sending, entering, taken := [], None, multiset{}, multiset{};
      accepted, rejected, dropped := multiset{}, multiset{}, multiset{};
      new;
      EmptyBalances();
    }

    /** A confirmed share reaches submitShare's check; when the check fails the controller counts it as stale. */
    method SubmitCheck(share: Share) returns (ok: bool)
      requires Valid()
      modifies this
      ensures Valid() && Contents() == Next(old(Contents()), Find(share)) && ok == (old(state) == Authorized)
    {
      hide Balanced, Shares;
      StepBalances(Contents(), Find(share));
      counters := counters.(verified := counters.verified + 1);
      if state != Authorized {
        counters := counters.(stale := counters.stale + 1);
        return false;
      }
      entering, taken := entering + multiset{share}, taken + multiset{share};
      ok := true;
    }

    method SubmitPush(share: Share)
      requires Valid() && share in entering
      modifies this
      ensures Valid() && Contents() == Next(old(Contents()), Push(share))
    {
      hide Balanced, Shares;
      StepBalances(Contents(), Push(share));
      entering := entering - multiset{share};
      outbound := outbound + [share];
    }

    /** sent(k) is whether the k-th line goes out whole. */
    method FlushOutboundQueue(sent: nat -> bool)
      requires Valid() && AtRest(Contents())
      modifies this
      ensures Valid() && AtRest(Contents())
      ensures Contents() == Flushed(Next(old(Contents()), BeginFlush), sent, 0)
      ensures FlushLeaves(Next(old(Contents()), BeginFlush), Contents(), sent, 0)
    {
      hide Next, SentOne, FlushLeaves;
      hide Balanced, Shares;
      StepBalances(Contents(), BeginFlush);
      FlushBegins(Contents());
      var pending := outbound;
      outbound, flushing := [], outbound;
      for i := 0 to |pending|
        invariant Valid() && sending.None? && flushing == pending[i..]
        invariant Flushed(Contents(), sent, i) == Flushed(Next(old(Contents()), BeginFlush), sent, 0)
      {
        SendOne(pending[i], sent(i));
        assert pending[i..][1..] == pending[i + 1..];
      }
      FlushKeysFresh(old(Contents()));
      FlushOutcome(Next(old(Contents()), BeginFlush), sent, 0);
    }

    method SendOne(share: Share, sent: bool)
      requires Valid() && sending.None? && |flushing| > 0 && share == flushing[0]
      modifies this
      ensures Valid() && Contents() == SentOne(old(Contents()), sent)
    {
      hide Balanced, Next, SentOne, Shares;
      SentBalances(Contents(), sent);
      var id := nextId;
      nextId := nextId + 1;
      pendingSubmits := pendingSubmits[id := share];
      flushing := flushing[1..];
      if !sent {
        pendingSubmits := pendingSubmits - {id};
        dropped := dropped + multiset{share};
      }
    }

    method HandleResponse(id: nat, good: bool)
      requires Valid() && AtRest(Contents())
      modifies this
      ensures Valid() && Contents() == Next(old(Contents()), Respond(id, good))
    {
      hide Balanced, Shares;
      StepBalances(Contents(), Respond(id, good));
      if id == subscribeId {
        state := if good then Subscribed else Error;
        return;
      }
      if id == authorizeId {
        state := if good then Authorized else Error;
        return;
      }
      if id !in pendingSubmits { return; }
      var share := pendingSubmits[id];
      pendingSubmits := pendingSubmits - {id};
      if good {
        counters := counters.(accepted := counters.accepted + 1);
        accepted := accepted + multiset{share};
      } else {
        counters := counters.(rejected := counters.rejected + 1);
        rejected := rejected + multiset{share};
      }
    }

    /** The head of runConnection. */
    method ResetSession()
      requires Valid() && AtRest(Contents())
      modifies this
      ensures Valid() && Contents() == Next(old(Contents()), Reset)
    {
      hide Balanced, Shares;
      StepBalances(Contents(), Reset);
      dropped := dropped + multiset(outbound) + Shares(pendingSubmits, nextId);
      pendingSubmits := map[];
      outbound := [];
      state := Connecting;
    }

    /** Subscribes and, if that could be sent, authorizes. */
    method OpenSession(subscribed: bool, requested: bool) returns (ok: bool)
      requires Valid() && AtRest(Contents())
      modifies this
      ensures Valid() && ok == (subscribed && requested)
      ensures Contents() == if subscribed then Next(Next(old(Contents()), Subscribe(true)), Authorize(requested))
                            else Next(old(Contents()), Subscribe(false))
    {
      hide Balanced, Shares;
      StepBalances(Contents(), Subscribe(subscribed));
      if subscribed { StepBalances(Next(Contents(), Subscribe(true)), Authorize(requested)); }
      subscribeId := nextId;
      nextId := nextId + 1;
      if !subscribed {
        state := Error;
        return false;
      }
      authorizeId := nextId;
      nextId := nextId + 1;
      if !requested {
        state := Error;
        return false;
      }
      ok := true;
    }
  }

  lemma SentBalances(s: Ledger, sent: bool)
    requires Balanced(s) && s.sending.None? && |s.flushing| > 0
    ensures Balanced(SentOne(s, sent)) && SentOne(s, sent) == SentShare(s, sent)
    ensures s.pending[s.nextId := s.flushing[0]] - {s.nextId} == s.pending && s.dropped + multiset{} == s.dropped
  {
    hide Next, Shares;
    RegisterEnables(s);
    StepBalances(s, Register);
    StepBalances(Next(s, Register), SendResult(sent));
    OneSent(s, sent);
  }

  lemma FlushKeysFresh(s: Ledger)
    requires Balanced(s) && AtRest(s)
    ensures KeysBelow(Next(s, BeginFlush))
  {
  }

  lemma FlushBegins(s: Ledger)
    requires AtRest(s)
    ensures Next(s, BeginFlush) == s.(flushing := s.outbound, outbound := [])
  {
  }

  lemma RegisterEnables(s: Ledger)
    requires s.sending.None? && |s.flushing| > 0
    ensures Enabled(s, Register) && forall sent :: Enabled(Next(s, Register), SendResult(sent))
  {
  }

  /** One share of a flush: registered under a fresh id, then sent or dropped. */
  function SentOne(s: Ledger, sent: bool): (t: Ledger)
    requires s.sending.None? && |s.flushing| > 0
    ensures t.sending.None? && t.flushing == s.flushing[1..]
  {
    Next(Next(s, Register), SendResult(sent))
  }

  /** The rest of a flush, from its i-th share. */
  ghost function Flushed(s: Ledger, sent: nat -> bool, i: nat): Ledger
    requires s.sending.None?
    decreases |s.flushing|
  {
    if |s.flushing| == 0 then s else Flushed(SentOne(s, sent(i)), sent, i + 1)
  }

  /** The steps of the rest of a flush of n shares, from the i-th on. */
  ghost function FlushEvents(n: nat, sent: nat -> bool, i: nat): seq<Event> {
    if n == 0 then [] else [Register, SendResult(sent(i))] + FlushEvents(n - 1, sent, i + 1)
  }

  /** A flush is a run of the ledger: each share is registered, and then its line sent or not. */
  lemma {:induction false} FlushIsRun(s: Ledger, sent: nat -> bool, i: nat)
    requires s.sending.None?
    ensures var events := FlushEvents(|s.flushing|, sent, i); Run(s, events) && After(s, events) == Flushed(s, sent, i)
    decreases |s.flushing|
  {
    if |s.flushing| > 0 {
      var events, rest := FlushEvents(|s.flushing|, sent, i), FlushEvents(|s.flushing| - 1, sent, i + 1);
      var t, u := Next(s, Register), SentOne(s, sent(i));
      FlushIsRun(u, sent, i + 1);
      RegisterEnables(s);
      RunFrom(t, events, 1);
      RunFrom(s, events, 0);
      assert events[0..] == events && events[2..] == rest && events[1] == SendResult(sent(i));
    }
  }

  /** The shares of a flush whose lines do not go out. */
  ghost function Unsent(flushing: seq<Share>, sent: nat -> bool, i: nat): multiset<Share> {
    if |flushing| == 0 then multiset{}
    else (if sent(i) then multiset{} else multiset{flushing[0]}) + Unsent(flushing[1..], sent, i + 1)
  }

  /** The k-th share of a flush is pending under the k-th fresh id exactly when its line went out. */
  ghost predicate Settled(s: Ledger, t: Ledger, sent: nat -> bool, i: nat, k: nat)
    requires k < |s.flushing|
  {
    && (s.nextId + k in t.pending <==> sent(i + k))
    && (sent(i + k) ==> t.pending[s.nextId + k] == s.flushing[k])
  }

  ghost predicate AllSettled(s: Ledger, t: Ledger, sent: nat -> bool, i: nat) {
    forall k :: 0 <= k < |s.flushing| ==> Settled(s, t, sent, i, k)
  }

  /** Ids given out before are pending in t exactly as in s. */
  ghost predicate OlderKept(s: Ledger, t: Ledger) {
    forall id: nat :: id < s.nextId ==>
      (id in t.pending <==> id in s.pending) && (id in s.pending ==> t.pending[id] == s.pending[id])
  }

  ghost predicate KeysBelow(s: Ledger) { forall id :: id in s.pending ==> id < s.nextId }

  /** What a flush leaves: fresh ids in order, the sent shares under theirs, the others dropped, all else as it was. */
  ghost predicate FlushLeaves(s: Ledger, t: Ledger, sent: nat -> bool, i: nat) {
    && t == s.(flushing := [], nextId := s.nextId + |s.flushing|, pending := t.pending,
               dropped := s.dropped + Unsent(s.flushing, sent, i))
    && AllSettled(s, t, sent, i) && OlderKept(s, t) && KeysBelow(t)
  }

  lemma {:induction false} FlushOutcome(s: Ledger, sent: nat -> bool, i: nat)
    requires s.sending.None? && KeysBelow(s)
    ensures FlushLeaves(s, Flushed(s, sent, i), sent, i)
    decreases |s.flushing|
  {
    if |s.flushing| > 0 {
      hide Next, SentOne, FlushLeaves, KeysBelow, OlderKept, AllSettled;
      OneSent(s, sent(i));
      var u, t := SentOne(s, sent(i)), Flushed(s, sent, i);
      FlushOutcome(u, sent, i + 1);
      LeavesStep(s, u, t, sent, i);
    }
  }

  /** s after one share of its flush; see OneSent. */
  ghost function SentShare(s: Ledger, sent: bool): Ledger
    requires |s.flushing| > 0
  {
    s.(flushing := s.flushing[1..], nextId := s.nextId + 1,
       pending := if sent then s.pending[s.nextId := s.flushing[0]] else s.pending,
       dropped := s.dropped + if sent then multiset{} else multiset{s.flushing[0]})
  }

  lemma LeavesStep(s: Ledger, u: Ledger, t: Ledger, sent: nat -> bool, i: nat)
    requires |s.flushing| > 0 && u == SentShare(s, sent(i)) && KeysBelow(s) && FlushLeaves(u, t, sent, i + 1)
    ensures FlushLeaves(s, t, sent, i)
  {
    hide AllSettled, OlderKept, KeysBelow;
    SettledStep(s, u, t, sent, i);
    OlderStep(s, u, t, sent(i));
    Associate(s.dropped, if sent(i) then multiset{} else multiset{s.flushing[0]}, Unsent(s.flushing[1..], sent, i + 1));
  }

  lemma Associate(a: multiset<Share>, b: multiset<Share>, c: multiset<Share>)
    ensures a + (b + c) == a + b + c
  {
  }

  lemma SettledStep(s: Ledger, u: Ledger, t: Ledger, sent: nat -> bool, i: nat)
    requires |s.flushing| > 0 && u == SentShare(s, sent(i)) && KeysBelow(s)
    requires AllSettled(u, t, sent, i + 1) && OlderKept(u, t)
    ensures AllSettled(s, t, sent, i)
  {
    forall k | 0 <= k < |s.flushing| ensures Settled(s, t, sent, i, k) {
      if k > 0 { assert Settled(u, t, sent, i + 1, k - 1); }
    }
  }

  lemma OlderStep(s: Ledger, u: Ledger, t: Ledger, sent: bool)
    requires |s.flushing| > 0 && u == SentShare(s, sent) && OlderKept(u, t)
    ensures OlderKept(s, t)
  {
  }

  lemma OneSent(s: Ledger, sent: bool)
    requires s.sending.None? && |s.flushing| > 0 && KeysBelow(s)
    ensures SentOne(s, sent) == SentShare(s, sent)
    ensures s.pending[s.nextId := s.flushing[0]] - {s.nextId} == s.pending
  {
    hide Shares;
    assert s.pending[s.nextId := s.flushing[0]] - {s.nextId} == s.pending;
  }
}

/** Which session a share goes out in: the queue between submitShare and runConnection of src/stratum/client.cpp. */
module LedgerSessions {
  import opened Stats
  import opened Wrappers
  import opened Ledger

  // ---- Runs from their end -----------------------------------------------

  lemma {:induction false} RunSnoc(s: Ledger, events: seq<Event>, n: nat)
    requires Run(s, events) && n < |events|
    ensures Run(s, events[..n]) && Run(s, events[..n + 1]) && Enabled(After(s, events[..n]), events[n])
    ensures After(s, events[..n + 1]) == Next(After(s, events[..n]), events[n])
    decreases n
  {
    hide Enabled, Next;
    assert events[..n + 1][0] == events[0];
    if n > 0 {
      RunSnoc(Next(s, events[0]), events[1..], n - 1);
      assert events[1..][..n - 1] == events[..n][1..] && events[1..][..n] == events[..n + 1][1..];
      assert events[..n][0] == events[0];
    } else {
      assert events[..1][1..] == [];
    }
  }

  // ---- Where the queued shares come from ---------------------------------

  /** The steps that pushed the shares still to be registered in a run, first in line first. */
  ghost function Waiting(events: seq<Event>): seq<nat> {
    if |events| == 0 then []
    else
      var n := |events| - 1;
      var w := Waiting(events[..n]);
      match events[n]
      case Push(_) => w + [n]
      case Register => if |w| > 0 then w[1..] else []
      case Reset => []
      case _ => w
  }

  ghost predicate NoReset(events: seq<Event>, from: nat, to: nat)
    requires to <= |events|
  {
    forall i :: from <= i < to ==> !events[i].Reset?
  }

  /** Step p pushed this share, and there has been no reconnect since. */
  ghost predicate PushedAt(events: seq<Event>, p: nat, share: Share) {
    p < |events| && events[p] == Push(share) && NoReset(events, p, |events|)
  }

  ghost predicate Matches(events: seq<Event>, queue: seq<Share>) {
    |Waiting(events)| == |queue| && forall i :: 0 <= i < |queue| ==> PushedAt(events, Waiting(events)[i], queue[i])
  }

  /** What waits in the queue, or in the middle of a flush, was pushed since the last reconnect, in this order. */
  lemma {:induction false} WaitingIs(events: seq<Event>)
    requires Run(EMPTY, events)
    ensures Matches(events, After(EMPTY, events).flushing + After(EMPTY, events).outbound)
    decreases |events|
  {
    if |events| > 0 {
      var n := |events| - 1;
      RunSnoc(EMPTY, events, n);
      assert events[..n + 1] == events;
      WaitingIs(events[..n]);
      StepWaits(After(EMPTY, events[..n]), events, n);
    }
  }

  lemma StepWaits(s: Ledger, events: seq<Event>, n: nat)
    requires |events| == n + 1 && Enabled(s, events[n]) && Matches(events[..n], s.flushing + s.outbound)
    ensures var t := Next(s, events[n]); Matches(events, t.flushing + t.outbound)
  {
    hide Enabled, Next, Waiting;
    WaitingStep(events, n);
    var t := Next(s, events[n]);
    var before, after := s.flushing + s.outbound, t.flushing + t.outbound;
    StepQueue(s, events[n]);
    forall i | 0 <= i < |after| ensures PushedAt(events, Waiting(events)[i], after[i]) {
      var k := if events[n].Register? then i + 1 else i;
      if k < |before| { assert PushedAt(events[..n], Waiting(events[..n])[k], before[k]); }
    }
  }

  lemma WaitingStep(events: seq<Event>, n: nat)
    requires |events| == n + 1
    ensures var w := Waiting(events[..n]);
      Waiting(events) == match events[n]
        case Push(_) => w + [n]
        case Register => if |w| > 0 then w[1..] else []
        case Reset => []
        case _ => w
  {
  }

  lemma StepQueue(s: Ledger, e: Event)
    requires Enabled(s, e)
    ensures var t := Next(s, e);
      var before, after := s.flushing + s.outbound, t.flushing + t.outbound;
      match e
      case Push(share) => after == before + [share]
      case Register => |before| > 0 && after == before[1..]
      case Reset => after == []
      case _ => after == before
  {
    hide Shares;
  }

  // ---- The session of a share --------------------------------------------

  /** The session that step i belongs to: how many reconnects came before. */
  ghost function SessionAt(events: seq<Event>, i: nat): nat
    requires i <= |events|
  {
    if i == 0 then 0 else SessionAt(events, i - 1) + if events[i - 1].Reset? then 1 else 0
  }

  lemma {:induction false} SameSession(events: seq<Event>, a: nat, b: nat)
    requires a <= b <= |events|
    ensures SessionAt(events, a) <= SessionAt(events, b)
    ensures SessionAt(events, a) == SessionAt(events, b) <==> NoReset(events, a, b)
    decreases b - a
  {
    if a < b {
      SameSession(events, a, b - 1);
      assert NoReset(events, a, b) ==> !events[b - 1].Reset?;
      assert NoReset(events, a, b - 1) && !events[b - 1].Reset? ==> NoReset(events, a, b);
    }
  }

  /** Some worker had this share confirmed, in an authorized session, before step p. */
  ghost predicate FoundAt(events: seq<Event>, f: nat, p: nat, share: Share)
    requires Run(EMPTY, events)
  {
    f < p <= |events| && events[f] == Find(share) && Run(EMPTY, events[..f])
    && After(EMPTY, events[..f]).state == Authorized
  }

  lemma {:induction false} EnteringWasFound(events: seq<Event>, n: nat, share: Share) returns (f: nat)
    requires Run(EMPTY, events) && n <= |events| && Run(EMPTY, events[..n])
    requires share in After(EMPTY, events[..n]).entering
    ensures FoundAt(events, f, n, share)
    decreases n
  {
    hide Enabled, Next;
    assert n > 0;
    RunSnoc(EMPTY, events, n - 1);
    StepEnters(After(EMPTY, events[..n - 1]), events[n - 1], share);
    if share in After(EMPTY, events[..n - 1]).entering {
      f := EnteringWasFound(events, n - 1, share);
    } else {
      f := n - 1;
    }
  }

  lemma StepEnters(s: Ledger, e: Event, share: Share)
    requires Enabled(s, e) && share in Next(s, e).entering
    ensures share in s.entering || (e == Find(share) && s.state == Authorized)
  {
    hide Shares;
  }

  /**
   * The line that step r begins to send carries a share that was pushed in the session of step r and confirmed before:
   * it goes out in the session that found it exactly when no reconnect came between its find and its push.
   */
  lemma SessionOfShare(events: seq<Event>, r: nat) returns (p: nat, f: nat)
    requires Run(EMPTY, events) && r < |events| && events[r].Register?
    ensures Run(EMPTY, events[..r]) && |After(EMPTY, events[..r]).flushing| > 0
    ensures var share := After(EMPTY, events[..r]).flushing[0];
      && p < r && events[p] == Push(share) && SessionAt(events, p) == SessionAt(events, r)
      && FoundAt(events, f, p, share)
      && forall f' :: FoundAt(events, f', p, share) ==>
           (SessionAt(events, f') == SessionAt(events, r) <==> NoReset(events, f', p))
  {
    hide Enabled, Next, Waiting;
    RunSnoc(EMPTY, events, r);
    var s := After(EMPTY, events[..r]);
    RegisterNeeds(s);
    var share := s.flushing[0];
    WaitingIs(events[..r]);
    p := Waiting(events[..r])[0];
    assert PushedAt(events[..r], p, (s.flushing + s.outbound)[0]);
    forall i | p <= i < r ensures !events[i].Reset? { assert events[..r][i] == events[i]; }
    SameSession(events, p, r);
    RunSnoc(EMPTY, events, p);
    PushNeeds(After(EMPTY, events[..p]), share);
    f := EnteringWasFound(events, p, share);
    forall f' | FoundAt(events, f', p, share)
      ensures SessionAt(events, f') == SessionAt(events, r) <==> NoReset(events, f', p)
    {
      SameSession(events, f', p);
    }
  }

  /** A share that is confirmed, then overtaken by a reconnect and only then pushed, does go out in the new session. */
  lemma OldShareGoesOut(share: Share)
    ensures var events := [Subscribe(true), Authorize(true), Respond(2, true), Find(share), ChangeState(Disconnected),
                           Reset, Push(share), ChangeState(Connected), Subscribe(true), Authorize(true),
                           BeginFlush, Register, SendResult(true)];
      && Run(EMPTY, events) && FoundAt(events, 3, 6, share) && SessionAt(events, 3) < SessionAt(events, 11)
      && After(EMPTY, events).pending == map[5 := share] && After(EMPTY, events).state == Connected
  {
    hide Next, Enabled, Shares, Run, After, SessionAt;
    var l: seq<Event> := [Subscribe(true), Authorize(true), Respond(2, true), Find(share), ChangeState(Disconnected),
                          Reset, Push(share), ChangeState(Connected), Subscribe(true), Authorize(true),
                          BeginFlush, Register, SendResult(true)];
    Reopened(share, l);
    Overtaken(share, l);
    OpenedAs(l);
    OpenedAs(l[..3]);
    assert l[..3][3..] == [];
    NoMore(Session());
    assert l[5].Reset?;
    SameSession(l, 3, 11);
  }

  lemma NoMore(s: Ledger)
    ensures Run(s, []) && After(s, []) == s
  {
  }

  /** The opening of a session, at the head of a run. */
  lemma OpenedAs(l: seq<Event>)
    requires |l| >= 3 && l[0] == Subscribe(true) && l[1] == Authorize(true) && l[2] == Respond(2, true)
    ensures Run(Session(), l[3..]) ==> Run(EMPTY, l) && After(EMPTY, l) == After(Session(), l[3..])
  {
    hide Next, Enabled, Shares, Run, After;
    var s1 := EMPTY.(subscribeId := 1, nextId := 2);
    var s2 := s1.(authorizeId := 2, nextId := 3);
    SessionSteps(s1, s2, Session());
    RunFrom(s2, l, 2);
    RunFrom(s1, l, 1);
    RunFrom(EMPTY, l, 0);
    assert l[0..] == l;
  }

  /** The reconnect that overtakes a confirmed share before it is pushed. */
  lemma Overtaken(share: Share, l: seq<Event>)
    requires |l| >= 7 && l[3] == Find(share) && l[4] == ChangeState(Disconnected) && l[5] == Reset && l[6] == Push(share)
    ensures Run(Late(share), l[7..]) ==> Run(Session(), l[3..]) && After(Session(), l[3..]) == After(Late(share), l[7..])
  {
    hide Next, Enabled, Shares, Run, After;
    var s := Confirmed(share);
    OvertakenSteps(share);
    RunFrom(s.(state := Connecting), l, 6);
    RunFrom(s.(state := Disconnected), l, 5);
    RunFrom(s, l, 4);
    RunFrom(Session(), l, 3);
  }

  /** The next session, and its first flush. */
  lemma Reopened(share: Share, l: seq<Event>)
    requires |l| == 13 && l[7] == ChangeState(Connected) && l[8] == Subscribe(true) && l[9] == Authorize(true)
    requires l[10] == BeginFlush && l[11] == Register && l[12] == SendResult(true)
    ensures Run(Late(share), l[7..])
    ensures var t := After(Late(share), l[7..]); t.pending == map[5 := share] && t.state == Connected
  {
    hide Next, Enabled, Shares, Run, After;
    var s := Late(share);
    var t := s.(state := Connected, subscribeId := 3, authorizeId := 4, nextId := 5);
    var u := t.(outbound := [], pending := map[5 := share], sending := Some(5), nextId := 6);
    ReopenSteps(s);
    FlushSteps(t, share);
    RunFrom(u.(sending := None), l, 13);
    RunFrom(u, l, 12);
    RunFrom(t.(outbound := [], flushing := [share]), l, 11);
    RunFrom(t, l, 10);
    RunFrom(s.(state := Connected, subscribeId := 3, nextId := 4), l, 9);
    RunFrom(s.(state := Connected), l, 8);
    RunFrom(s, l, 7);
  }

  /** A share of an earlier session in the queue of one that is being opened. */
  ghost function Late(share: Share): Ledger {
    Confirmed(share).(state := Connecting, entering := multiset{}, outbound := [share])
  }

  /** An authorized session whose one share has been confirmed and is not yet queued. */
  ghost function Confirmed(share: Share): Ledger {
    Session().(counters := Counters(1, 0, 0, 0), taken := multiset{share}, entering := multiset{share})
  }

  lemma OvertakenSteps(share: Share)
    ensures var s := Confirmed(share);
      && Enabled(Session(), Find(share)) && Next(Session(), Find(share)) == s
      && Enabled(s, ChangeState(Disconnected)) && Next(s, ChangeState(Disconnected)) == s.(state := Disconnected)
      && Enabled(s.(state := Disconnected), Reset)
      && Next(s.(state := Disconnected), Reset) == s.(state := Connecting)
      && Enabled(s.(state := Connecting), Push(share))
      && Next(s.(state := Connecting), Push(share)) == Late(share)
  {
    hide Shares;
    SharesOfEmpty(3);
  }

  lemma ReopenSteps(s: Ledger)
    requires AtRest(s) && s.nextId == 3
    ensures Enabled(s, ChangeState(Connected)) && Next(s, ChangeState(Connected)) == s.(state := Connected)
    ensures var t := s.(state := Connected);
      && Enabled(t, Subscribe(true)) && Next(t, Subscribe(true)) == t.(subscribeId := 3, nextId := 4)
      && var u := t.(subscribeId := 3, nextId := 4);
         Enabled(u, Authorize(true)) && Next(u, Authorize(true)) == u.(authorizeId := 4, nextId := 5)
  {
  }

  lemma FlushSteps(s: Ledger, share: Share)
    requires AtRest(s) && s.outbound == [share] && s.pending == map[] && s.nextId == 5
    ensures var t := s.(outbound := [], flushing := [share]);
      && Enabled(s, BeginFlush) && Next(s, BeginFlush) == t
      && Enabled(t, Register)
      && var u := s.(outbound := [], pending := map[5 := share], sending := Some(5), nextId := 6);
         Next(t, Register) == u && Enabled(u, SendResult(true)) && Next(u, SendResult(true)) == u.(sending := None)
  {
  }

  lemma RegisterNeeds(s: Ledger)
    requires Enabled(s, Register)
    ensures |s.flushing| > 0
  {
  }

  lemma PushNeeds(s: Ledger, share: Share)
    requires Enabled(s, Push(share))
    ensures share in s.entering
  {
  }
}

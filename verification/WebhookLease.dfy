/**
 What the lease does not guarantee, the retry delay, and one uninterrupted delivery.

 `Webhooks.HandlersSeparated` asks that a worker's re-read returns its own claim. The code
 does not check that; this module gives the interleaving that breaks the separation when
 the re-read is late, and says exactly how long a lease may be for it to separate handlers
 all the same.
*/
module WebhookLease {
  import opened Wrappers
  import opened Webhooks

  /** Which runs are looked at: how short a retry delay can be, and whether dead-lettered events are replayed. */
  datatype Setting = Setting(lease: nat, least: nat, replays: bool)

  predicate Allowed(c: Setting, e: Event) {
    && ((e.Step? || e.Broken?) ==> c.least <= e.delay)
    && (e.Start? && e.replay ==> c.replays)
  }

  /** Some run with distinct claim times ends in `s`. */
  ghost predicate Reachable(c: Setting, s: State) {
    exists states, events :: EndsIn(c, states, events, s)
  }

  ghost predicate EndsIn(c: Setting, states: seq<State>, events: seq<Event>, s: State) {
    && IsRun(c.lease, states, events)
    && states[|events|] == s
    && forall i :: 0 <= i < |events| ==> !ReusesStamp(c.lease, states[i], events[i]) && Allowed(c, events[i])
  }

  lemma ReachInitial(c: Setting, s: State)
    requires InitialState(s)
    ensures Reachable(c, s)
  {
    assert EndsIn(c, [s], [], s);
  }

  lemma ReachNext(c: Setting, s: State, e: Event)
    requires Reachable(c, s) && Enabled(s, e) && !ReusesStamp(c.lease, s, e) && Allowed(c, e)
    ensures Reachable(c, Next(c.lease, s, e))
  {
    var states, events :| EndsIn(c, states, events, s);
    var t := Next(c.lease, s, e);
    var states', events' := states + [t], events + [e];
    forall i | 0 <= i < |events'|
      ensures Enabled(states'[i], events'[i]) && states'[i + 1] == Next(c.lease, states'[i], events'[i])
      ensures !ReusesStamp(c.lease, states'[i], events'[i]) && Allowed(c, events'[i])
    {
      if i < |events| {
        assert states'[i] == states[i] && states'[i + 1] == states[i + 1] && events'[i] == events[i];
      }
    }
    assert EndsIn(c, states', events', t);
  }

  /** Worker `w` starts, reads a row it may try to claim, and reads the clock at once. */
  lemma ReachRead(c: Setting, s: State, w: nat)
    requires Reachable(c, s) && s.At(w).Idle? && OnRead(s.row, s.clock) == HasRead(s.clock)
    ensures Reachable(c, s.(workers := s.workers[w := HasRead(s.clock)]))
  {
    ReachNext(c, s, Start(w, false));
    var t := s.(workers := s.workers[w := RowRead(s.row)]);
    ReachNext(c, t, Step(w, true, c.least));
    assert t.workers[w := HasRead(s.clock)] == s.workers[w := HasRead(s.clock)];
  }

  /** Worker 0 claims at time 0 and stalls; its lease runs out and worker 1 claims. */
  function Overtaken(lease: nat, maxRetries: nat): State {
    State(Row(Processing, 0, maxRetries, lease, Some(lease + lease)), lease,
          map[0 := Claimed(Lease(0, 1)), 1 := Handling(Lease(lease, 2), lease)], 2, 0, {0, lease})
  }

  lemma OvertakenReachable(c: Setting, maxRetries: nat)
    requires 1 <= c.lease
    ensures Reachable(c, Overtaken(c.lease, maxRetries))
  {
    var lease := c.lease;
    var s0 := State(Row(Pending, 0, maxRetries, 0, None), 0, map[], 0, 0, {});
    ReachInitial(c, s0);
    ReachRead(c, s0, 0);
    var s1 := s0.(workers := map[0 := HasRead(0)]);
    ReachNext(c, s1, Step(0, true, c.least));
    var s2 := State(Row(Processing, 0, maxRetries, 0, Some(lease)), 0, map[0 := Claimed(Lease(0, 1))], 1, 0, {0});
    assert s2 == Next(lease, s1, Step(0, true, c.least));
    ReachNext(c, s2, Tick(lease));
    var s3 := s2.(clock := lease);
    ReachRead(c, s3, 1);
    var s4 := s3.(workers := map[0 := Claimed(Lease(0, 1)), 1 := HasRead(lease)]);
    ReachNext(c, s4, Step(1, true, c.least));
    var s5 := State(Row(Processing, 0, maxRetries, lease, Some(lease + lease)), lease,
                    map[0 := Claimed(Lease(0, 1)), 1 := Claimed(Lease(lease, 2))], 2, 0, {0, lease});
    assert s5 == Next(lease, s4, Step(1, true, c.least));
    ReachNext(c, s5, Step(1, true, c.least));
    assert Overtaken(lease, maxRetries) == Next(lease, s5, Step(1, true, c.least));
  }

  /** Worker 0 wakes up, takes worker 1's token for its own, fails, and schedules a retry
      while worker 1 is still in the handler. */
  function Sabotaged(lease: nat, delay: nat, maxRetries: nat): State {
    State(Row(Failed, 1, maxRetries, lease, Some(lease + delay)), lease + delay,
          map[0 := Done(RepliedFailed), 1 := Handling(Lease(lease, 2), lease)], 2, 1, {0, lease})
  }

  /** Worker 0's late re-read finds worker 1's token, and its handler fails. */
  function Misled(lease: nat, maxRetries: nat): State {
    Overtaken(lease, maxRetries).(workers := map[0 := Failing(Lease(0, 1), lease), 1 := Handling(Lease(lease, 2), lease)])
  }

  lemma MisledReachable(c: Setting, maxRetries: nat)
    requires 1 <= c.lease
    ensures Reachable(c, Misled(c.lease, maxRetries))
  {
    var lease := c.lease;
    var s6 := Overtaken(lease, maxRetries);
    OvertakenReachable(c, maxRetries);
    ReachNext(c, s6, Step(0, true, c.least));
    var s7 := s6.(workers := map[0 := Handling(Lease(0, 1), lease), 1 := Handling(Lease(lease, 2), lease)]);
    assert s7 == Next(lease, s6, Step(0, true, c.least));
    ReachNext(c, s7, Step(0, false, c.least));
    assert Misled(lease, maxRetries) == Next(lease, s7, Step(0, false, c.least));
  }

  /** Worker 0 is about to schedule a retry. */
  function AboutToFail(lease: nat, maxRetries: nat): State {
    Misled(lease, maxRetries).(
      workers := map[0 := FailReady(Lease(0, 1), lease, 1, false, lease), 1 := Handling(Lease(lease, 2), lease)])
  }

  lemma AboutToFailReachable(c: Setting, maxRetries: nat)
    requires 1 <= c.lease && 1 <= maxRetries
    ensures Reachable(c, AboutToFail(c.lease, maxRetries))
  {
    var lease := c.lease;
    var s8 := Misled(lease, maxRetries);
    MisledReachable(c, maxRetries);
    ReachNext(c, s8, Step(0, true, c.least));
    var s9 := s8.(workers := map[0 := FailDecided(Lease(0, 1), lease, 1, false), 1 := Handling(Lease(lease, 2), lease)]);
    assert s9 == Next(lease, s8, Step(0, true, c.least));
    ReachNext(c, s9, Step(0, true, c.least));
    assert AboutToFail(lease, maxRetries) == Next(lease, s9, Step(0, true, c.least));
  }

  lemma SabotagedReachable(c: Setting, delay: nat, maxRetries: nat)
    requires 1 <= c.lease && c.least <= delay && 1 <= maxRetries
    ensures Reachable(c, Sabotaged(c.lease, delay, maxRetries))
  {
    var lease := c.lease;
    var s9 := AboutToFail(lease, maxRetries);
    AboutToFailReachable(c, maxRetries);
    ReachNext(c, s9, Step(0, true, delay));
    var s10 := Sabotaged(lease, delay, maxRetries).(clock := lease);
    assert s10 == Next(lease, s9, Step(0, true, delay));
    ReachNext(c, s10, Tick(lease + delay));
    assert Sabotaged(lease, delay, maxRetries) == Next(lease, s10, Tick(lease + delay));
  }

  /** For every lease longer than the retry delay there is a run with distinct claim times,
      and without replays, in which two workers are inside the handler although the older of
      the two claims is younger than a lease. */
  lemma LateRereadBreaksSeparation(c: Setting, delay: nat, maxRetries: nat)
    requires 1 <= delay < c.lease && c.least <= delay && 1 <= maxRetries
    ensures exists s, v, w ::
      && Reachable(c, s)
      && s.At(v).Handling? && s.At(w).Handling?
      && s.At(v).lease.number < s.At(w).lease.number
      && s.clock < s.At(v).lease.now + c.lease
  {
    var lease := c.lease;
    var s11 := Sabotaged(lease, delay, maxRetries);
    var other := Handling(Lease(lease, 2), lease);
    var t := lease + delay;
    SabotagedReachable(c, delay, maxRetries);
    ReachRead(c, s11, 2);
    var s12 := s11.(workers := map[0 := Done(RepliedFailed), 1 := other, 2 := HasRead(t)]);
    assert s12.workers == s11.workers[2 := HasRead(t)];
    ReachNext(c, s12, Step(2, true, c.least));
    var s13 := State(Row(Processing, 1, maxRetries, t, Some(t + lease)), t,
                     map[0 := Done(RepliedFailed), 1 := other, 2 := Claimed(Lease(t, 3))], 3, 1, {0, lease, t});
    assert s13 == Next(lease, s12, Step(2, true, c.least));
    ReachNext(c, s13, Step(2, true, c.least));
    var s14 := Next(lease, s13, Step(2, true, c.least));
    assert s14.At(1) == other && s14.At(2) == Handling(Lease(t, 3), t);
  }

  // ---------------------------------------------------------------------------
  // No positive lease separates handlers by itself
  // ---------------------------------------------------------------------------

  /** Of two workers inside the handler the older claim is at least a lease old. */
  ghost predicate HandlersApart(lease: nat, s: State) {
    forall v, w :: s.At(v).Handling? && s.At(w).Handling? && s.At(v).lease.number < s.At(w).lease.number
      ==> s.At(v).lease.now + lease <= s.clock
  }

  /** No worker has read or claimed at a later time than now. */
  ghost predicate NotAhead(s: State) {
    forall w :: (s.At(w).HasRead? ==> s.At(w).seen <= s.clock) && (s.At(w).Holds() ==> s.At(w).lease.now <= s.clock)
  }

  lemma StepKeepsNotAhead(lease: nat, s: State, e: Event)
    requires NotAhead(s) && Enabled(s, e)
    ensures NotAhead(Next(lease, s, e))
  {
    OthersStay(lease, s, e);
  }

  lemma {:induction false} RunsNotAhead(lease: nat, states: seq<State>, events: seq<Event>, n: nat)
    requires IsRun(lease, states, events) && n < |states|
    ensures NotAhead(states[n])
  {
    if n > 0 {
      RunsNotAhead(lease, states, events, n - 1);
      assert Enabled(states[n - 1], events[n - 1]) && states[n] == Next(lease, states[n - 1], events[n - 1]);
      StepKeepsNotAhead(lease, states[n - 1], events[n - 1]);
    }
  }

  /** Worker 2 reads at time 0 and stalls. Worker 0 claims at time 1 and stalls; worker 1
      claims when that lease is over. No retries are allowed. */
  function Stalled(lease: nat): State {
    State(Row(Processing, 0, 0, 1 + lease, Some(1 + lease + lease)), 1 + lease,
          map[2 := HasRead(0), 0 := Claimed(Lease(1, 1)), 1 := Handling(Lease(1 + lease, 2), 1 + lease)], 2, 0, {1, 1 + lease})
  }

  lemma StalledReachable(c: Setting)
    requires 1 <= c.lease
    ensures Reachable(c, Stalled(c.lease))
  {
    var lease := c.lease;
    var s0 := State(Row(Pending, 0, 0, 0, None), 0, map[], 0, 0, {});
    ReachInitial(c, s0);
    ReachRead(c, s0, 2);
    var s1 := s0.(workers := map[2 := HasRead(0)]);
    ReachNext(c, s1, Tick(1));
    var s2 := s1.(clock := 1);
    ReachRead(c, s2, 0);
    var s3 := s2.(workers := map[2 := HasRead(0), 0 := HasRead(1)]);
    ReachNext(c, s3, Step(0, true, c.least));
    var s4 := State(Row(Processing, 0, 0, 1, Some(1 + lease)), 1, map[2 := HasRead(0), 0 := Claimed(Lease(1, 1))], 1, 0, {1});
    assert s4 == Next(lease, s3, Step(0, true, c.least));
    ReachNext(c, s4, Tick(1 + lease));
    var s5 := s4.(clock := 1 + lease);
    StalledSecondClaim(c, s5);
  }

  lemma StalledSecondClaim(c: Setting, s5: State)
    requires 1 <= c.lease && Reachable(c, s5)
    requires s5 == State(Row(Processing, 0, 0, 1, Some(1 + c.lease)), 1 + c.lease,
                         map[2 := HasRead(0), 0 := Claimed(Lease(1, 1))], 1, 0, {1})
    ensures Reachable(c, Stalled(c.lease))
  {
    var lease := c.lease;
    ReachRead(c, s5, 1);
    var s6 := s5.(workers := s5.workers[1 := HasRead(1 + lease)]);
    ReachNext(c, s6, Step(1, true, c.least));
    var s7 := Stalled(lease).(workers := s5.workers[1 := Claimed(Lease(1 + lease, 2))]);
    assert s7 == Next(lease, s6, Step(1, true, c.least));
    ReachNext(c, s7, Step(1, true, c.least));
    assert Stalled(lease) == Next(lease, s7, Step(1, true, c.least));
  }

  /** Worker 0 wakes up, takes worker 1's token and fails. */
  function StalledFails(lease: nat): State {
    Stalled(lease).(workers := map[2 := HasRead(0), 0 := Failing(Lease(1, 1), 1 + lease),
                                   1 := Handling(Lease(1 + lease, 2), 1 + lease)])
  }

  lemma StalledFailsReachable(c: Setting)
    requires 1 <= c.lease
    ensures Reachable(c, StalledFails(c.lease))
  {
    var lease := c.lease;
    var s0 := Stalled(lease);
    StalledReachable(c);
    ReachNext(c, s0, Step(0, true, c.least));
    var s1 := s0.(workers := map[2 := HasRead(0), 0 := Handling(Lease(1, 1), 1 + lease),
                                 1 := Handling(Lease(1 + lease, 2), 1 + lease)]);
    assert s1 == Next(lease, s0, Step(0, true, c.least));
    ReachNext(c, s1, Step(0, false, c.least));
    assert StalledFails(lease) == Next(lease, s1, Step(0, false, c.least));
  }

  /** The row is dead-lettered and replayed at once, and worker 2 claims it with the time it
      read at the start. */
  lemma StalledBreaks(c: Setting)
    requires 1 <= c.lease && c.replays
    ensures exists s :: Reachable(c, s) && !HandlersApart(c.lease, s)
  {
    var lease, t := c.lease, 1 + c.lease;
    var other := Handling(Lease(t, 2), t);
    var s2 := StalledFails(lease);
    StalledFailsReachable(c);
    ReachNext(c, s2, Step(0, true, c.least));
    var s3 := s2.(workers := map[2 := HasRead(0), 0 := FailDecided(Lease(1, 1), t, 1, true), 1 := other]);
    assert s3 == Next(lease, s2, Step(0, true, c.least));
    ReachNext(c, s3, Step(0, true, c.least));
    var ready := s3.(workers := map[2 := HasRead(0), 0 := FailReady(Lease(1, 1), t, 1, true, t), 1 := other]);
    assert ready == Next(lease, s3, Step(0, true, c.least));
    ReachNext(c, ready, Step(0, true, c.least));
    var s4 := State(Row(Dlq, 0, 0, t, Some(t + lease)), t,
                    map[2 := HasRead(0), 0 := Done(RepliedDlq), 1 := other], 2, 1, {1, t});
    assert s4 == Next(lease, ready, Step(0, true, c.least));
    ReplayBreaks(c, s4);
  }

  lemma ReplayBreaks(c: Setting, s4: State)
    requires 1 <= c.lease && c.replays && Reachable(c, s4)
    requires var t := 1 + c.lease;
      s4 == State(Row(Dlq, 0, 0, t, Some(t + c.lease)), t,
                  map[2 := HasRead(0), 0 := Done(RepliedDlq), 1 := Handling(Lease(t, 2), t)], 2, 1, {1, t})
    ensures exists s :: Reachable(c, s) && !HandlersApart(c.lease, s)
  {
    var lease := c.lease;
    var t := 1 + lease;
    ReachNext(c, s4, Start(3, true));
    var s5 := s4.(workers := s4.workers[3 := ReplayReady]);
    assert s5 == Next(lease, s4, Start(3, true));
    ReachNext(c, s5, Step(3, true, c.least));
    var s6 := State(Row(Pending, 0, 0, t, Some(t + c.least)), t, s4.workers[3 := Done(Replayed)], 2, 0, {1, t});
    assert s6 == Next(lease, s5, Step(3, true, c.least));
    ReachNext(c, s6, Step(2, true, c.least));
    var s7 := Next(lease, s6, Step(2, true, c.least));
    assert s7.At(2) == Claimed(Lease(0, 3)) && s7.At(1) == s4.At(1) && s7.clock == t;
    ReachNext(c, s7, Step(2, true, c.least));
    var s8 := Next(lease, s7, Step(2, true, c.least));
    assert s8.At(2).Handling? && s8.At(2).lease == Lease(0, 3) && s8.At(1) == s4.At(1) && s8.clock == t;
    assert !HandlersApart(lease, s8);
  }

  /** Where dead-lettered events are replayed, the lease separates handlers exactly when it
      is zero, that is, when it promises nothing, however long the shortest delay is: every
      positive lease needs the re-reads to be checked. */
  lemma LeaseAloneSeparatesIff(c: Setting)
    requires c.replays
    ensures (forall s :: Reachable(c, s) ==> HandlersApart(c.lease, s)) <==> c.lease == 0
  {
    if c.lease == 0 {
      forall s | Reachable(c, s) ensures HandlersApart(c.lease, s) {
        var states, events :| EndsIn(c, states, events, s);
        RunsNotAhead(c.lease, states, events, |events|);
      }
    } else {
      StalledBreaks(c);
    }
  }

  // ---------------------------------------------------------------------------
  // The lease against the shortest delay
  // ---------------------------------------------------------------------------

  /** Without replays: old holders are at least a lease old, and no holder claimed later
      than the row's own times allow. */
  ghost predicate DelayInv(c: Setting, s: State) {
    && NotAhead(s) && TokensPast(s)
    && (s.row.status == Pending ==> s.claims == 0)
    && (s.row.status == Failed ==> s.row.nextRetryAt.Some?)
    && (forall w :: !s.At(w).ReplayReady?)
    && (forall w :: s.At(w).Holds() ==> HolderInv(c, s, s.At(w).lease))
  }

  /** Tokens are times gone by, and a failure write carries a later time than the token. */
  ghost predicate TokensPast(s: State) {
    && (s.claims > 0 ==> s.row.updatedAt <= s.clock)
    && (forall w :: s.At(w).Holds() ==> s.claims > 0)
    && (forall w :: s.At(w).HasToken() ==> s.At(w).token <= s.clock)
    && (forall w :: s.At(w).FailReady? ==> s.At(w).token <= s.At(w).at <= s.clock)
  }

  lemma StepKeepsTokensPast(lease: nat, s: State, e: Event)
    requires NotAhead(s) && TokensPast(s) && Enabled(s, e)
    ensures TokensPast(Next(lease, s, e))
  {
    OthersStay(lease, s, e);
  }

  predicate HolderInv(c: Setting, s: State, l: Lease) {
    && 1 <= l.number <= s.claims && l.now in s.stamps
    && (l.number < s.claims ==> l.now + c.lease <= s.clock)
    && (l.number == s.claims && s.row.status == Processing ==> s.row.updatedAt == l.now)
    && (s.row.status == Processing ==> l.now <= s.row.updatedAt)
    && (s.row.status == Failed && s.row.nextRetryAt.Some? ==> l.now + c.least <= s.row.nextRetryAt.value)
  }

  predicate Short(c: Setting) {
    c.lease <= c.least || c.lease <= 1
  }

  lemma HolderAfterClaim(c: Setting, s: State, t: State, seen: nat, l: Lease)
    requires Short(c) && HolderInv(c, s, l) && (s.row.status == Pending ==> s.claims == 0)
    requires Claimable(s.row, seen, c.lease) && seen !in s.stamps && l.now != seen && seen <= s.clock
    requires t.row == ClaimRow(s.row, seen, c.lease) && t.claims == s.claims + 1 && t.stamps == s.stamps + {seen}
    requires t.clock == s.clock
    ensures HolderInv(c, t, l)
  {}

  lemma ClaimKeepsDelayInv(c: Setting, s: State, e: Event)
    requires Short(c) && DelayInv(c, s) && Enabled(s, e) && !ReusesStamp(c.lease, s, e) && Allowed(c, e) && !c.replays
    requires (e.Step? || e.Broken?) && s.At(e.w).HasRead?
    ensures DelayInv(c, Next(c.lease, s, e))
  {
    var t := Next(c.lease, s, e);
    OthersStay(c.lease, s, e);
    StepKeepsNotAhead(c.lease, s, e);
    StepKeepsTokensPast(c.lease, s, e);
    forall w | t.At(w).Holds() ensures HolderInv(c, t, t.At(w).lease) {
      if w != e.w {
        assert s.At(w).Holds() && t.At(w).lease == s.At(w).lease;
        if t.row != s.row || t.claims != s.claims {
          HolderAfterClaim(c, s, t, s.At(e.w).seen, s.At(w).lease);
        }
      }
    }
  }

  lemma OtherStepKeepsDelayInv(c: Setting, s: State, e: Event)
    requires DelayInv(c, s) && Enabled(s, e) && Allowed(c, e) && !c.replays
    requires (e.Step? || e.Broken?) ==> !s.At(e.w).HasRead?
    ensures DelayInv(c, Next(c.lease, s, e))
  {
    var t := Next(c.lease, s, e);
    OthersStay(c.lease, s, e);
    StepKeepsNotAhead(c.lease, s, e);
    StepKeepsTokensPast(c.lease, s, e);
    forall w | t.At(w).Holds() ensures HolderInv(c, t, t.At(w).lease) {
      assert e.Tick? || w != e.w ==> t.At(w) == s.At(w);
      assert s.At(w).Holds() && t.At(w).lease == s.At(w).lease;
    }
  }

  lemma {:induction false} RunsKeepDelayInv(c: Setting, states: seq<State>, events: seq<Event>, n: nat)
    requires Short(c) && !c.replays && IsRun(c.lease, states, events) && n < |states|
    requires forall i :: 0 <= i < |events| ==> !ReusesStamp(c.lease, states[i], events[i]) && Allowed(c, events[i])
    ensures DelayInv(c, states[n])
  {
    if n > 0 {
      RunsKeepDelayInv(c, states, events, n - 1);
      var s, e := states[n - 1], events[n - 1];
      assert Enabled(s, e) && states[n] == Next(c.lease, s, e);
      if (e.Step? || e.Broken?) && s.At(e.w).HasRead? {
        ClaimKeepsDelayInv(c, s, e);
      } else {
        OtherStepKeepsDelayInv(c, s, e);
      }
    }
  }

  /** Without replays, and with unchecked re-reads, the lease separates handlers exactly when
      it is no longer than the shortest retry delay (or than one tick, since claim times
      differ). The defaults, half a minute against two seconds, do not meet this. */
  lemma LeaseAgainstDelayIff(c: Setting)
    requires !c.replays
    ensures (forall s :: Reachable(c, s) ==> HandlersApart(c.lease, s)) <==> c.lease <= c.least || c.lease <= 1
  {
    if Short(c) {
      forall s | Reachable(c, s) ensures HandlersApart(c.lease, s) {
        var states, events :| EndsIn(c, states, events, s);
        RunsKeepDelayInv(c, states, events, |events|);
      }
    } else {
      LateRereadBreaksSeparation(c, if c.least < 1 then 1 else c.least, 1);
    }
  }

  // ---------------------------------------------------------------------------
  // Retry delay
  // ---------------------------------------------------------------------------

  datatype RetryConfig = RetryConfig(initialDelayMs: real, backoffMultiplier: real, maxDelayMs: real)

  function Pow(b: real, e: nat): real {
    if e == 0 then 1.0 else b * Pow(b, e - 1)
  }

  /** The delay before jitter is added. */
  function RetryAfterMs(retryCount: nat, cfg: RetryConfig): real {
    var d := cfg.initialDelayMs * Pow(cfg.backoffMultiplier, retryCount);
    if d <= cfg.maxDelayMs then d else cfg.maxDelayMs
  }

  lemma {:induction false} PowGrows(b: real, i: nat, j: nat)
    requires b >= 1.0 && i <= j
    ensures 1.0 <= Pow(b, i) <= Pow(b, j)
    decreases j
  {
    if i < j {
      PowGrows(b, i, j - 1);
      assert b * Pow(b, j - 1) >= Pow(b, j - 1);
    } else if i > 0 {
      PowGrows(b, i - 1, j - 1);
      assert b * Pow(b, i - 1) >= Pow(b, i - 1);
    }
  }

  /** With a multiplier of at least one, delays never shrink from one retry to a later one,
      start at the initial delay (or the cap, if that is lower) and stay within the cap. */
  lemma RetryDelayGrows(cfg: RetryConfig, i: nat, j: nat)
    requires cfg.initialDelayMs >= 0.0 && cfg.backoffMultiplier >= 1.0 && i <= j
    ensures RetryAfterMs(0, cfg) <= RetryAfterMs(i, cfg) <= RetryAfterMs(j, cfg) <= cfg.maxDelayMs
    ensures RetryAfterMs(0, cfg) == cfg.initialDelayMs || RetryAfterMs(0, cfg) == cfg.maxDelayMs
  {
    PowGrows(cfg.backoffMultiplier, 0, i);
    PowGrows(cfg.backoffMultiplier, i, j);
    var x := cfg.initialDelayMs;
    assert x * Pow(cfg.backoffMultiplier, 0) <= x * Pow(cfg.backoffMultiplier, i) by {
      Scale(x, Pow(cfg.backoffMultiplier, 0), Pow(cfg.backoffMultiplier, i));
    }
    assert x * Pow(cfg.backoffMultiplier, i) <= x * Pow(cfg.backoffMultiplier, j) by {
      Scale(x, Pow(cfg.backoffMultiplier, i), Pow(cfg.backoffMultiplier, j));
    }
  }

  function Capped(d: real, cap: real): real {
    if d <= cap then d else cap
  }

  /** The first delay is the initial one, each later one the multiplier times the one before, up to the cap. */
  lemma RetryDelayStep(cfg: RetryConfig, i: nat)
    requires cfg.backoffMultiplier >= 1.0 && cfg.maxDelayMs >= 0.0
    ensures RetryAfterMs(0, cfg) == Capped(cfg.initialDelayMs, cfg.maxDelayMs)
    ensures RetryAfterMs(i + 1, cfg) == Capped(cfg.backoffMultiplier * RetryAfterMs(i, cfg), cfg.maxDelayMs)
  {
    var b, p := cfg.backoffMultiplier, Pow(cfg.backoffMultiplier, i);
    assert Pow(b, i + 1) == b * p;
    Reorder(cfg.initialDelayMs, b, p);
    CappedStep(cfg.initialDelayMs * p, b, cfg.maxDelayMs);
  }

  lemma Reorder(x: real, b: real, p: real)
    ensures x * (b * p) == b * (x * p)
  {}

  lemma CappedStep(d: real, b: real, cap: real)
    requires cap >= 0.0 && b >= 1.0
    ensures Capped(b * d, cap) == Capped(b * Capped(d, cap), cap)
  {
    if d > cap {
      Grows(d, b, cap);
    }
  }

  lemma Grows(d: real, b: real, cap: real)
    requires d > cap >= 0.0 && b >= 1.0
    ensures b * d > cap && b * cap >= cap
  {}

  lemma Scale(x: real, a: real, b: real)
    requires x >= 0.0 && a <= b
    ensures x * a <= x * b
  {}

  // ---------------------------------------------------------------------------
  // The database row and one uninterrupted delivery
  // ---------------------------------------------------------------------------

  /** What processing an event does to its row when nobody interferes, at one clock
      reading, for a handler that succeeds or not. */
  function Delivered(r: Row, now: nat, lease: nat, ok: bool, delay: nat): (Row, Reply) {
    if r.status == Processed || r.status == Dlq then (r, Skipped)
    else if r.status == Failed && r.nextRetryAt.Some? && r.nextRetryAt.value > now then (r, RetryLater)
    else if !Claimable(r, now, lease) then (r, Conflict)
    else
      var c := ClaimRow(r, now, lease);
      if ok then (FinalRow(c, now), RepliedProcessed)
      else if r.retryCount + 1 > r.maxRetries then (DlqRow(c, now), RepliedDlq)
      else (FailRow(c, r.retryCount + 1, now, delay), RepliedFailed)
  }

  /** The same delivery as steps of the protocol, with worker `w` running alone. */
  function Alone(lease: nat, s: State, w: nat, ok: bool, delay: nat, steps: nat): State
  {
    if steps == 0 then (if s.At(w).Idle? then Next(lease, s, Start(w, false)) else s)
    else
      var t := Alone(lease, s, w, ok, delay, steps - 1);
      if t.At(w).Idle? || t.At(w).Done? then t else Next(lease, t, Step(w, ok, delay))
  }

  /** The row is read, then the clock. */
  lemma AloneReads(lease: nat, s: State, w: nat, ok: bool, delay: nat)
    requires s.At(w) == Idle
    ensures var t := Alone(lease, s, w, ok, delay, 1);
      t.row == s.row && t.clock == s.clock && t.At(w) == OnRead(s.row, s.clock)
  {
    assert Alone(lease, s, w, ok, delay, 0) == s.(workers := s.workers[w := RowRead(s.row)]);
  }

  /** From a claim that will succeed, three steps lead past the handler. */
  lemma AloneHandles(lease: nat, s: State, w: nat, ok: bool, delay: nat)
    requires s.At(w) == Idle && OnRead(s.row, s.clock).HasRead? && Claimable(s.row, s.clock, lease)
    ensures var t := Alone(lease, s, w, ok, delay, 4);
      && t.row == ClaimRow(s.row, s.clock, lease) && t.clock == s.clock
      && (if ok then t.At(w).Finalizing? else t.At(w).Failing?) && t.At(w).token == s.clock
  {
    AloneReads(lease, s, w, ok, delay);
    var t2 := Alone(lease, s, w, ok, delay, 2);
    var t3 := Alone(lease, s, w, ok, delay, 3);
    assert t2.row == ClaimRow(s.row, s.clock, lease) && t2.clock == s.clock && t2.At(w).Claimed?;
    assert t3.row == t2.row && t3.clock == s.clock && t3.At(w) == Handling(t2.At(w).lease, s.clock);
  }

  lemma AloneFails(lease: nat, s: State, w: nat, delay: nat)
    requires s.At(w) == Idle && OnRead(s.row, s.clock).HasRead? && Claimable(s.row, s.clock, lease)
    ensures var t := Alone(lease, s, w, false, delay, 6);
      && t.row == ClaimRow(s.row, s.clock, lease)
      && t.At(w).FailReady? && t.At(w).token == t.At(w).at == s.clock
      && t.At(w).next == s.row.retryCount + 1 && t.At(w).toDlq == (s.row.retryCount + 1 > s.row.maxRetries)
  {
    AloneHandles(lease, s, w, false, delay);
    var t5 := Alone(lease, s, w, false, delay, 5);
    assert t5.row == ClaimRow(s.row, s.clock, lease) && t5.clock == s.clock && t5.At(w).FailDecided?;
  }

  lemma AloneConflicts(lease: nat, s: State, w: nat, ok: bool, delay: nat)
    requires s.At(w) == Idle && OnRead(s.row, s.clock).HasRead? && !Claimable(s.row, s.clock, lease)
    ensures var t := Alone(lease, s, w, ok, delay, 2); t.row == s.row && t.At(w) == Done(Conflict)
  {
    AloneReads(lease, s, w, ok, delay);
  }

  lemma AloneFinalizes(lease: nat, s: State, w: nat, delay: nat)
    requires s.At(w) == Idle && OnRead(s.row, s.clock).HasRead? && Claimable(s.row, s.clock, lease)
    ensures var t := Alone(lease, s, w, true, delay, 5);
      t.row == FinalRow(ClaimRow(s.row, s.clock, lease), s.clock) && t.At(w) == Done(RepliedProcessed)
  {
    AloneHandles(lease, s, w, true, delay);
  }

  lemma AloneSettles(lease: nat, s: State, w: nat, delay: nat)
    requires s.At(w) == Idle && OnRead(s.row, s.clock).HasRead? && Claimable(s.row, s.clock, lease)
    ensures var t := Alone(lease, s, w, false, delay, 7);
      t.At(w).Done? && (t.row, t.At(w).reply) == Delivered(s.row, s.clock, lease, false, delay)
  {
    AloneFails(lease, s, w, delay);
  }

  /** A worker that is done stays done. */
  lemma {:induction false} AloneStaysUntil(lease: nat, s: State, w: nat, ok: bool, delay: nat, steps: nat)
    requires steps <= 7 && Alone(lease, s, w, ok, delay, steps).At(w).Done?
    ensures Alone(lease, s, w, ok, delay, 7) == Alone(lease, s, w, ok, delay, steps)
    decreases 7 - steps
  {
    if steps < 7 {
      assert Alone(lease, s, w, ok, delay, steps + 1) == Alone(lease, s, w, ok, delay, steps);
      AloneStaysUntil(lease, s, w, ok, delay, steps + 1);
    }
  }

  /** One uninterrupted delivery takes at most seven more steps and ends with the row and
      reply above: the step system and the straight-line reading of the code agree. */
  lemma AloneDelivers(lease: nat, s: State, w: nat, ok: bool, delay: nat)
    requires s.At(w) == Idle
    ensures Alone(lease, s, w, ok, delay, 7).At(w).Done?
    ensures var t := Alone(lease, s, w, ok, delay, 7);
      (t.row, t.At(w).reply) == Delivered(s.row, s.clock, lease, ok, delay)
  {
    AloneReads(lease, s, w, ok, delay);
    if !OnRead(s.row, s.clock).HasRead? {
      AloneStaysUntil(lease, s, w, ok, delay, 1);
    } else if !Claimable(s.row, s.clock, lease) {
      AloneConflicts(lease, s, w, ok, delay);
      AloneStaysUntil(lease, s, w, ok, delay, 2);
    } else if ok {
      AloneHandles(lease, s, w, ok, delay);
      AloneFinalizes(lease, s, w, delay);
      AloneStaysUntil(lease, s, w, ok, delay, 5);
    } else {
      AloneFails(lease, s, w, delay);
      AloneSettles(lease, s, w, delay);
    }
  }

  /** The event's row in the database; each method is one conditional `updateMany` and
      returns the number of rows it changed. */
  class WebhookEvent {
    var row: Row

    constructor (maxRetries: nat, now: nat, delay: nat)
      ensures row == Row(Pending, 0, maxRetries, now, Some(now + delay))
    {
      row := Row(Pending, 0, maxRetries, now, Some(now + delay));
    }

    method Claim(now: nat, lease: nat) returns (count: nat)
      modifies this
      ensures count == if Claimable(old(row), now, lease) then 1 else 0
      ensures row == if count == 1 then ClaimRow(old(row), now, lease) else old(row)
    {
      if row.status == Pending
         || (row.status == Failed && row.nextRetryAt.Some? && row.nextRetryAt.value <= now)
         || (row.status == Processing && row.updatedAt + lease <= now)
      {
        row := row.(status := Processing, updatedAt := now, nextRetryAt := Some(now + lease));
        return 1;
      }
      return 0;
    }

    method Finalize(token: nat, now: nat) returns (count: nat)
      modifies this
      ensures count == if Owns(old(row), token) then 1 else 0
      ensures row == if count == 1 then FinalRow(old(row), now) else old(row)
    {
      if row.status == Processing && row.updatedAt == token {
        row := row.(status := Processed, nextRetryAt := None, updatedAt := now);
        return 1;
      }
      return 0;
    }

    method Fail(token: nat, next: nat, now: nat, delay: nat) returns (count: nat)
      modifies this
      ensures count == if Owns(old(row), token) then 1 else 0
      ensures row == if count == 1 then FailRow(old(row), next, now, delay) else old(row)
    {
      if row.status == Processing && row.updatedAt == token {
        row := row.(status := Failed, retryCount := next, nextRetryAt := Some(now + delay), updatedAt := now);
        return 1;
      }
      return 0;
    }

    method DeadLetter(token: nat, now: nat) returns (count: nat)
      modifies this
      ensures count == if Owns(old(row), token) then 1 else 0
      ensures row == if count == 1 then DlqRow(old(row), now) else old(row)
    {
      if row.status == Processing && row.updatedAt == token {
        row := row.(status := Dlq, updatedAt := now);
        return 1;
      }
      return 0;
    }

    method Replay(now: nat, delay: nat) returns (done: bool)
      modifies this
      ensures done <==> old(row).status == Dlq
      ensures row == if done then ReplayRow(old(row), now, delay) else old(row)
    {
      if row.status != Dlq {
        return false;
      }
      row := row.(status := Pending, retryCount := 0, nextRetryAt := Some(now + delay), updatedAt := now);
      return true;
    }

    method HandleFailure(token: nat, now: nat, delay: nat) returns (reply: Reply)
      modifies this
      ensures !Owns(old(row), token) ==> row == old(row) && reply == Conflict
      ensures Owns(old(row), token) ==>
        (row, reply) == if old(row).retryCount + 1 > old(row).maxRetries
                        then (DlqRow(old(row), now), RepliedDlq)
                        else (FailRow(old(row), old(row).retryCount + 1, now, delay), RepliedFailed)
    {
      if row.status != Processing || row.updatedAt != token {
        return Conflict;
      }
      var next := row.retryCount + 1;
      if next > row.maxRetries {
        var count := DeadLetter(token, now);
        return if count == 1 then RepliedDlq else Conflict;
      } else {
        var count := Fail(token, next, now, delay);
        return if count == 1 then RepliedFailed else Conflict;
      }
    }

    /** `processWebhookEvent` with nobody interfering. */
    method Process(now: nat, lease: nat, handlerOk: bool, delay: nat) returns (reply: Reply)
      modifies this
      ensures (row, reply) == Delivered(old(row), now, lease, handlerOk, delay)
    {
      if row.status == Processed || row.status == Dlq {
        return Skipped;
      }
      if row.status == Failed && row.nextRetryAt.Some? && row.nextRetryAt.value > now {
        return RetryLater;
      }
      var claimed := Claim(now, lease);
      if claimed != 1 {
        return Conflict;
      }
      var token := row.updatedAt;
      if handlerOk {
        var updated := Finalize(token, now);
        return if updated == 1 then RepliedProcessed else Conflict;
      }
      reply := HandleFailure(token, now, delay);
    }
  }
}

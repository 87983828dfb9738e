/**
 Deliveries get through: what a worker running alone replies, and that an event nobody has
 settled can always be taken over in the end.
*/
module WebhookProgress {
  import opened Wrappers
  import opened Webhooks
  import opened WebhookLease

  /** Open to a new claim at time `now`: pending, due for a retry, or held by a claim whose lease is over. */
  predicate IsOpen(r: Row, now: nat, lease: nat) {
    match r.status
    case Pending => true
    case Failed => r.nextRetryAt.Some? && r.nextRetryAt.value <= now
    case Processing => now >= r.updatedAt + lease
    case _ => false
  }

  /** The row is in processing under this token. */
  predicate HeldBy(r: Row, token: nat) {
    r.status == Processing && r.updatedAt == token
  }

  /** What a worker's next step does amid any others: it replies with success of any kind
      exactly when its own conditional write found the row as expected, and writes nothing
      else. */
  lemma StepReplies(lease: nat, s: State, w: nat, ok: bool, delay: nat)
    requires Enabled(s, Step(w, ok, delay))
    ensures var t, l, r := Next(lease, s, Step(w, ok, delay)), s.At(w), s.row;
      && (l.RowRead? ==> t.row == r)
      && (l.HasRead? ==>
            if IsOpen(r, l.seen, lease) then
              t.At(w) == Claimed(Lease(l.seen, s.claims + 1))
              && t.row == Row(Processing, r.retryCount, r.maxRetries, l.seen, Some(l.seen + lease))
            else t.At(w) == Done(Conflict) && t.row == r)
      && (l.Claimed? ==> t.At(w) == Handling(l.lease, r.updatedAt) && t.row == r)
      && (l.Handling? ==> t.At(w) == (if ok then Finalizing(l.lease, l.token) else Failing(l.lease, l.token)) && t.row == r)
      && (l.Finalizing? ==>
            if HeldBy(r, l.token) then
              t.At(w) == Done(RepliedProcessed) && t.row == Row(Processed, r.retryCount, r.maxRetries, s.clock, None)
            else t.At(w) == Done(Conflict) && t.row == r)
      && (l.Failing? ==>
            && t.row == r
            && t.At(w) == if HeldBy(r, l.token) then FailDecided(l.lease, l.token, r.retryCount + 1, r.retryCount >= r.maxRetries)
                          else Done(Conflict))
      && (l.FailDecided? ==> t.At(w) == FailReady(l.lease, l.token, l.next, l.toDlq, s.clock) && t.row == r)
      && (l.FailReady? ==>
            if !HeldBy(r, l.token) then t.At(w) == Done(Conflict) && t.row == r
            else if l.toDlq then
              t.At(w) == Done(RepliedDlq) && t.row == Row(Dlq, r.retryCount, r.maxRetries, l.at, r.nextRetryAt)
            else
              t.At(w) == Done(RepliedFailed) && t.row == Row(Failed, l.next, r.maxRetries, l.at, Some(l.at + delay)))
      && (l.ReplayReady? ==>
            if r.status == Dlq then
              t.At(w) == Done(Replayed) && t.row == Row(Pending, 0, r.maxRetries, s.clock, Some(s.clock + delay))
            else t.At(w) == Done(NotReplayed) && t.row == r)
  {}

  /** The state after one uninterrupted delivery by worker `w`. */
  function Delivery(lease: nat, s: State, w: nat, ok: bool, delay: nat): State {
    Alone(lease, s, w, ok, delay, 7)
  }

  /** What a delivery without interference replies, in every case, and the row it leaves. */
  lemma DeliveryReplies(lease: nat, s: State, w: nat, ok: bool, delay: nat)
    requires s.At(w) == Idle
    ensures Delivery(lease, s, w, ok, delay).At(w).Done?
    ensures var t := Delivery(lease, s, w, ok, delay);
      var reply, r := t.At(w).reply, s.row;
      && (reply == Skipped <==> r.status == Processed || r.status == Dlq)
      && (reply == RetryLater <==> r.status == Failed && r.nextRetryAt.Some? && s.clock < r.nextRetryAt.value)
      && (reply == Conflict <==>
            (r.status == Failed && r.nextRetryAt.None?) || (r.status == Processing && s.clock < r.updatedAt + lease))
      && (reply == RepliedProcessed <==> ok && IsOpen(r, s.clock, lease))
      && (reply == RepliedFailed <==> !ok && IsOpen(r, s.clock, lease) && r.retryCount < r.maxRetries)
      && (reply == RepliedDlq <==> !ok && IsOpen(r, s.clock, lease) && r.retryCount >= r.maxRetries)
      && (reply == RepliedProcessed ==> t.row == Row(Processed, r.retryCount, r.maxRetries, s.clock, None))
      && (reply == RepliedFailed ==>
            t.row == Row(Failed, r.retryCount + 1, r.maxRetries, s.clock, Some(s.clock + delay)))
      && (reply == RepliedDlq ==> t.row == Row(Dlq, r.retryCount, r.maxRetries, s.clock, Some(s.clock + lease)))
      && (reply in {Skipped, RetryLater, Conflict} ==> t.row == r)
  {
    AloneDelivers(lease, s, w, ok, delay);
  }

  /** A failed row always has a time for its next retry, and a row in processing the end of its lease. */
  ghost predicate RetriesPlanned(lease: nat, s: State) {
    && (s.row.status == Failed ==> s.row.nextRetryAt.Some?)
    && (s.row.status == Processing ==> s.row.nextRetryAt == Some(s.row.updatedAt + lease))
    && (s.row.status == Processed ==> s.row.nextRetryAt == None)
  }

  lemma {:induction false} RunsPlanRetries(lease: nat, states: seq<State>, events: seq<Event>, n: nat)
    requires IsRun(lease, states, events) && n < |states|
    ensures RetriesPlanned(lease, states[n])
  {
    if n > 0 {
      RunsPlanRetries(lease, states, events, n - 1);
      assert Enabled(states[n - 1], events[n - 1]) && states[n] == Next(lease, states[n - 1], events[n - 1]);
    }
  }

  /** When the event is open to a worker that starts now or later. */
  function DueAt(r: Row, lease: nat): nat
    requires r.status == Failed ==> r.nextRetryAt.Some?
  {
    match r.status
    case Failed => r.nextRetryAt.value
    case Processing => r.updatedAt + lease
    case _ => 0
  }

  lemma FreshWorker(s: State) returns (w: nat)
    ensures s.At(w) == Idle
  {
    w := 0;
    var left := s.workers.Keys;
    while w in s.workers
      invariant left <= s.workers.Keys
      invariant forall v: nat :: v in s.workers && v >= w ==> v in left
      decreases |left|
    {
      left := left - {w};
      w := w + 1;
    }
  }

  /** In every state of every run in which the event is neither processed nor dead-lettered,
      whatever workers have stalled or crashed, a worker that starts at time `at` and runs
      alone with a handler that succeeds processes it exactly when `at` has reached the due
      time of the row; and there is such a worker. */
  lemma EventsGetThrough(lease: nat, states: seq<State>, events: seq<Event>, n: nat, at: nat, w: nat, delay: nat)
    requires IsRun(lease, states, events) && n < |states|
    requires states[n].row.status != Processed && states[n].row.status != Dlq
    requires states[n].clock <= at && states[n].At(w) == Idle
    ensures RetriesPlanned(lease, states[n])
    ensures var s := Next(lease, states[n], Tick(at));
      var t := Delivery(lease, s, w, true, delay);
      && t.At(w).Done?
      && (t.At(w).reply == RepliedProcessed <==> at >= DueAt(states[n].row, lease))
      && (t.row.status == Processed <==> at >= DueAt(states[n].row, lease))
  {
    RunsPlanRetries(lease, states, events, n);
    DeliveryReplies(lease, Next(lease, states[n], Tick(at)), w, true, delay);
  }

  /** So from every such state the event can be finished. */
  lemma EveryEventCanFinish(lease: nat, states: seq<State>, events: seq<Event>, n: nat, delay: nat)
    requires IsRun(lease, states, events) && n < |states|
    requires states[n].row.status != Processed && states[n].row.status != Dlq
    ensures exists at: nat, w: nat ::
      && at >= states[n].clock && states[n].At(w) == Idle
      && Delivery(lease, Next(lease, states[n], Tick(at)), w, true, delay).At(w) == Done(RepliedProcessed)
  {
    RunsPlanRetries(lease, states, events, n);
    var w := FreshWorker(states[n]);
    var at := states[n].clock + DueAt(states[n].row, lease);
    EventsGetThrough(lease, states, events, n, at, w, delay);
    assert Delivery(lease, Next(lease, states[n], Tick(at)), w, true, delay).At(w) == Done(RepliedProcessed);
  }

  /** A dead-lettered event that is replayed is open at once. */
  lemma ReplayReopens(lease: nat, s: State, w: nat, delay: nat, now: nat)
    requires s.row.status == Dlq && s.At(w) == Idle
    ensures var t := Next(lease, Next(lease, s, Start(w, true)), Step(w, true, delay));
      && t.At(w) == Done(Replayed) && IsOpen(t.row, now, lease)
      && t.row == Row(Pending, 0, s.row.maxRetries, s.clock, Some(s.clock + delay))
  {}
}

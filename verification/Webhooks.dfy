/**
 The webhook delivery protocol: many workers race on one event row.

 A worker's code runs between database calls; each database call is one atomic step. The
 step system below lets any number of workers, admin replays, clock ticks and database
 failures interleave in any order. Clock readings are taken where the code takes them: the
 `now` a claim is made with was read after the row and before the claim, so both may be
 old by the time the claim is executed, and so may the time a failure write carries. Only
 the `updatedAt` of finalize and replay writes, on which nothing depends, is read at the
 write itself.
*/
module Webhooks {
  import opened Wrappers

  datatype Status = Pending | Processing | Failed | Processed | Dlq

  datatype Row = Row(status: Status, retryCount: nat, maxRetries: nat, updatedAt: nat, nextRetryAt: Option<nat>)

  datatype Reply = Skipped | RetryLater | Conflict | RepliedFailed | RepliedDlq | RepliedProcessed | Replayed | NotReplayed

  /** What a worker remembers of its claim: the time it wrote, and which claim of the row
      it was, counting from one. */
  datatype Lease = Lease(now: nat, number: nat)

  /** Where a worker (or an admin replay) is. `token` is the `updatedAt` it read back after
      its claim; `at` is the time its failure write carries, read before that write. */
  datatype Local =
    | Idle
    | RowRead(row: Row)
    | HasRead(seen: nat)
    | Claimed(lease: Lease)
    | Handling(lease: Lease, token: nat)
    | Finalizing(lease: Lease, token: nat)
    | Failing(lease: Lease, token: nat)
    | FailDecided(lease: Lease, token: nat, next: nat, toDlq: bool)
    | FailReady(lease: Lease, token: nat, next: nat, toDlq: bool, at: nat)
    | ReplayReady
    | Done(reply: Reply)
  {
    predicate Holds() {
      Claimed? || HasToken()
    }

    predicate HasToken() {
      Handling? || Finalizing? || Failing? || Decided()
    }

    predicate Decided() {
      FailDecided? || FailReady?
    }
  }

  /** The row, the clock, the workers (a missing worker has not started), and three history
      variables: how many claims were made, how many failures were committed since the row
      was created or last replayed, and the times of all claims. */
  datatype State = State(
    row: Row,
    clock: nat,
    workers: map<nat, Local>,
    claims: nat,
    failures: nat,
    stamps: set<nat>)
  {
    function At(w: nat): Local {
      if w in workers then workers[w] else Idle
    }
  }

  // ---------------------------------------------------------------------------
  // The conditional updates
  // ---------------------------------------------------------------------------

  predicate Claimable(r: Row, now: nat, lease: nat) {
    || r.status == Pending
    || (r.status == Failed && r.nextRetryAt.Some? && r.nextRetryAt.value <= now)
    || (r.status == Processing && r.updatedAt + lease <= now)
  }

  predicate Owns(r: Row, token: nat) {
    r.status == Processing && r.updatedAt == token
  }

  function ClaimRow(r: Row, now: nat, lease: nat): Row {
    r.(status := Processing, updatedAt := now, nextRetryAt := Some(now + lease))
  }

  function FinalRow(r: Row, clock: nat): Row {
    r.(status := Processed, nextRetryAt := None, updatedAt := clock)
  }

  function FailRow(r: Row, next: nat, at: nat, delay: nat): Row {
    r.(status := Failed, retryCount := next, nextRetryAt := Some(at + delay), updatedAt := at)
  }

  function DlqRow(r: Row, at: nat): Row {
    r.(status := Dlq, updatedAt := at)
  }

  function ReplayRow(r: Row, clock: nat, delay: nat): Row {
    r.(status := Pending, retryCount := 0, nextRetryAt := Some(clock + delay), updatedAt := clock)
  }

  // ---------------------------------------------------------------------------
  // Steps
  // ---------------------------------------------------------------------------

  /** `Step` is the next database call (or clock reading, or the handler's return) of worker `w`; `ok` is the
      handler's verdict and `delay` the retry delay, where the step needs them. In `Broken`
      the call throws instead, its write having been applied or not. */
  datatype Event =
    | Tick(to: nat)
    | Start(w: nat, replay: bool)
    | Step(w: nat, ok: bool, delay: nat)
    | Broken(w: nat, applied: bool, delay: nat)

  /** The row and history after the write that worker `w` is about to make. */
  function Write(lease: nat, s: State, w: nat, delay: nat): State {
    match s.At(w)
    case HasRead(now) =>
      if Claimable(s.row, now, lease) then
        s.(row := ClaimRow(s.row, now, lease), claims := s.claims + 1, stamps := s.stamps + {now})
      else s
    case Finalizing(_, token) =>
      if Owns(s.row, token) then s.(row := FinalRow(s.row, s.clock)) else s
    case FailReady(_, token, next, toDlq, at) =>
      if Owns(s.row, token) then
        s.(row := if toDlq then DlqRow(s.row, at) else FailRow(s.row, next, at, delay),
           failures := s.failures + 1)
      else s
    case ReplayReady =>
      if s.row.status == Dlq then
        s.(row := ReplayRow(s.row, s.clock, delay), failures := 0)
      else s
    case _ => s
  }

  /** What a worker does with the row it read, at the time it reads off the clock afterwards. */
  function OnRead(r: Row, now: nat): Local {
    if r.status == Processed || r.status == Dlq then Done(Skipped)
    else if r.status == Failed && r.nextRetryAt.Some? && r.nextRetryAt.value > now then Done(RetryLater)
    else HasRead(now)
  }

  /** Where worker `w` is after its next step. */
  function Advance(lease: nat, s: State, w: nat, ok: bool): Local {
    match s.At(w)
    case Idle => RowRead(s.row)
    case RowRead(r) => OnRead(r, s.clock)
    case HasRead(now) =>
      if Claimable(s.row, now, lease) then Claimed(Lease(now, s.claims + 1)) else Done(Conflict)
    case Claimed(l) => Handling(l, s.row.updatedAt)
    case Handling(l, token) => if ok then Finalizing(l, token) else Failing(l, token)
    case Finalizing(l, token) => if Owns(s.row, token) then Done(RepliedProcessed) else Done(Conflict)
    case Failing(l, token) =>
      if Owns(s.row, token) then
        FailDecided(l, token, s.row.retryCount + 1, s.row.retryCount + 1 > s.row.maxRetries)
      else Done(Conflict)
    case FailDecided(l, token, next, toDlq) => FailReady(l, token, next, toDlq, s.clock)
    case FailReady(_, token, _, toDlq, _) =>
      if Owns(s.row, token) then Done(if toDlq then RepliedDlq else RepliedFailed) else Done(Conflict)
    case ReplayReady => if s.row.status == Dlq then Done(Replayed) else Done(NotReplayed)
    case Done(r) => Done(r)
  }

  /** Where worker `w` is after its database call threw: the failure handler once it has a
      token, else a failed reply. */
  function Recover(l: Local): Local {
    match l
    case Finalizing(lease, token) => Failing(lease, token)
    case Handling(lease, token) => Failing(lease, token)
    case ReplayReady => Done(NotReplayed)
    case Done(r) => Done(r)
    case _ => Done(RepliedFailed)
  }

  predicate Enabled(s: State, e: Event) {
    match e
    case Tick(to) => s.clock <= to
    case Start(w, replay) => s.At(w).Idle?
    case Step(w, _, _) => !s.At(w).Idle? && !s.At(w).Done?
    case Broken(w, _, _) => !s.At(w).Done? && !s.At(w).RowRead? && !s.At(w).FailDecided?
  }

  function Next(lease: nat, s: State, e: Event): State
    requires Enabled(s, e)
  {
    match e
    case Tick(to) => s.(clock := to)
    case Start(w, replay) =>
      s.(workers := s.workers[w :=
        if replay then (if s.row.status == Dlq then ReplayReady else Done(NotReplayed)) else RowRead(s.row)])
    case Step(w, ok, delay) => Write(lease, s, w, delay).(workers := s.workers[w := Advance(lease, s, w, ok)])
    case Broken(w, applied, delay) =>
      (if applied then Write(lease, s, w, delay) else s).(workers := s.workers[w := Recover(s.At(w))])
  }

  /** A step moves at most the worker it names. */
  lemma OthersStay(lease: nat, s: State, e: Event)
    requires Enabled(s, e)
    ensures forall v {:trigger Next(lease, s, e).At(v)} :: e.Tick? || v != e.w ==> Next(lease, s, e).At(v) == s.At(v)
  {}

  predicate InitialState(s: State) {
    && s.row.status == Pending && s.row.retryCount == 0
    && s.workers == map[] && s.claims == 0 && s.failures == 0 && s.stamps == {}
  }

  ghost predicate IsRun(lease: nat, states: seq<State>, events: seq<Event>) {
    && |states| == |events| + 1
    && InitialState(states[0])
    && forall i :: 0 <= i < |events| ==>
         Enabled(states[i], events[i]) && states[i + 1] == Next(lease, states[i], events[i])
  }

  // ---------------------------------------------------------------------------
  // Processed once, and for good
  // ---------------------------------------------------------------------------

  /** The replies so far are consistent with the row, and no retry is ever counted past the
      limit. Nothing is assumed about the clock. */
  ghost predicate Safe(s: State) {
    && s.row.retryCount <= s.row.maxRetries
    && (forall v, w :: s.At(v) == Done(RepliedProcessed) && s.At(w) == Done(RepliedProcessed) ==> v == w)
    && (forall w :: s.At(w) == Done(RepliedProcessed) ==> s.row.status == Processed)
    && (forall w :: s.At(w).Decided() && !s.At(w).toDlq ==> s.At(w).next <= s.row.maxRetries)
  }

  lemma StepKeepsSafe(lease: nat, s: State, e: Event)
    requires Safe(s) && Enabled(s, e)
    ensures Safe(Next(lease, s, e))
    ensures Next(lease, s, e).row.maxRetries == s.row.maxRetries
    ensures s.row.status == Processed ==> Next(lease, s, e).row == s.row
  {
    OthersStay(lease, s, e);
  }

  /** In every run, with any interleaving of workers, replays, ticks and database failures:
      at most one worker ever replies "processed", a processed row never changes again, and
      the retry count never passes the limit. */
  lemma {:induction false} ProcessedOnce(lease: nat, states: seq<State>, events: seq<Event>, i: nat, j: nat)
    requires IsRun(lease, states, events) && i <= j < |states|
    ensures Safe(states[j])
    ensures states[j].row.retryCount <= states[0].row.maxRetries
    ensures states[j].row.maxRetries == states[0].row.maxRetries
    ensures states[i].row.status == Processed ==> states[j].row == states[i].row
    decreases j
  {
    if j > 0 {
      ProcessedOnce(lease, states, events, if i < j then i else j - 1, j - 1);
      assert Enabled(states[j - 1], events[j - 1]) && states[j] == Next(lease, states[j - 1], events[j - 1]);
      StepKeepsSafe(lease, states[j - 1], events[j - 1]);
    }
  }

  // ---------------------------------------------------------------------------
  // Retries are counted exactly
  // ---------------------------------------------------------------------------

  /** The event is a claim made with the time of an earlier claim. */
  predicate ReusesStamp(lease: nat, s: State, e: Event) {
    && (e.Step? || e.Broken?)
    && s.At(e.w).HasRead? && Claimable(s.row, s.At(e.w).seen, lease) && s.At(e.w).seen in s.stamps
  }

  /** The recorded retry count is the number of committed failures, a worker that still owns
      the row has counted from the current number, and the row is dead-lettered exactly when
      one failure more than allowed was committed. */
  ghost predicate Counted(s: State) {
    && (s.row.status == Dlq ==> s.failures == s.row.maxRetries + 1)
    && (s.row.status != Dlq ==> s.failures == s.row.retryCount <= s.row.maxRetries)
    && (s.row.status == Processing ==> s.row.updatedAt in s.stamps)
    && (forall w :: s.At(w).Decided() ==> s.At(w).token in s.stamps)
    && (forall w :: s.At(w).Decided() && Owns(s.row, s.At(w).token) ==>
          s.At(w).next == s.row.retryCount + 1 && (s.At(w).toDlq <==> s.At(w).next > s.row.maxRetries))
  }

  lemma StepKeepsCounted(lease: nat, s: State, e: Event)
    requires Counted(s) && Enabled(s, e) && !ReusesStamp(lease, s, e)
    ensures Counted(Next(lease, s, e))
  {
    OthersStay(lease, s, e);
  }

  /** In every run in which claims have distinct times, the row is in the dead
      letter queue exactly when the number of failures committed since it was created or
      last replayed is one more than the allowed retries; until then that number is the
      stored retry count. */
  lemma {:induction false} DlqExactly(lease: nat, states: seq<State>, events: seq<Event>, n: nat)
    requires IsRun(lease, states, events) && n < |states|
    requires forall i :: 0 <= i < n ==> !ReusesStamp(lease, states[i], events[i])
    ensures Counted(states[n])
    ensures states[n].row.status == Dlq <==> states[n].failures == states[n].row.maxRetries + 1
    ensures states[n].row.status != Dlq ==> states[n].failures == states[n].row.retryCount
  {
    if n > 0 {
      DlqExactly(lease, states, events, n - 1);
      assert Enabled(states[n - 1], events[n - 1]) && states[n] == Next(lease, states[n - 1], events[n - 1]);
      StepKeepsCounted(lease, states[n - 1], events[n - 1]);
    }
  }

  // ---------------------------------------------------------------------------
  // Leases separate handlers
  // ---------------------------------------------------------------------------

  /** The worker reads back another claim's `updatedAt` and takes it for its own. */
  predicate TakesForeignToken(s: State, e: Event) {
    e.Step? && s.At(e.w).Claimed? && s.row.updatedAt != s.At(e.w).lease.now
  }

  /** Every worker still holding a claim that is not the latest one made its claim at least
      one lease ago. */
  ghost predicate Separated(lease: nat, s: State) {
    forall w :: s.At(w).Holds() && s.At(w).lease.number < s.claims ==> s.At(w).lease.now + lease <= s.clock
  }

  /** The latest claimant, while it holds its claim, owns the row, unless the row has been
      processed. */
  ghost predicate LeaseInv(lease: nat, s: State) {
    && Separated(lease, s)
    && (forall w :: s.At(w).HasRead? ==> s.At(w).seen <= s.clock)
    && (forall w :: s.At(w).Holds() ==>
          1 <= s.At(w).lease.number <= s.claims && s.At(w).lease.now in s.stamps && s.At(w).lease.now <= s.clock)
    && (forall w :: s.At(w).HasToken() ==> s.At(w).token == s.At(w).lease.now)
    && (forall w :: s.At(w).Holds() && s.At(w).lease.number == s.claims ==>
          Owns(s.row, s.At(w).lease.now) || s.row.status == Processed)
    && (forall v, w :: s.At(v).Holds() && s.At(w).Holds() && v != w ==>
          s.At(v).lease.number != s.At(w).lease.number && s.At(v).lease.now != s.At(w).lease.now)
  }

  lemma ClaimKeepsLease(lease: nat, s: State, e: Event)
    requires LeaseInv(lease, s) && Enabled(s, e) && !ReusesStamp(lease, s, e)
    requires (e.Step? || e.Broken?) && s.At(e.w).HasRead?
    ensures LeaseInv(lease, Next(lease, s, e))
  {
    var t := Next(lease, s, e);
    OthersStay(lease, s, e);
    assert t.row != s.row ==> t.claims == s.claims + 1 && Claimable(s.row, s.At(e.w).seen, lease);
  }

  /** No claim is added or moved, and the row stays. */
  lemma LeaseFrame(lease: nat, s: State, t: State)
    requires LeaseInv(lease, s)
    requires t.row == s.row && t.stamps == s.stamps && t.claims == s.claims && s.clock <= t.clock
    requires forall w :: t.At(w).Holds() ==> s.At(w).Holds() && t.At(w).lease == s.At(w).lease
    requires forall w :: t.At(w).HasRead? ==> t.At(w).seen <= t.clock
    requires forall w :: t.At(w).HasToken() ==> t.At(w).token == t.At(w).lease.now
    ensures LeaseInv(lease, t)
  {}

  /** Steps that write nothing. */
  lemma QuietStepKeepsLease(lease: nat, s: State, e: Event)
    requires LeaseInv(lease, s) && Enabled(s, e) && !TakesForeignToken(s, e)
    requires (e.Step? || e.Broken?) ==> !s.At(e.w).HasRead?
    requires Next(lease, s, e).row == s.row && Next(lease, s, e).stamps == s.stamps
    ensures LeaseInv(lease, Next(lease, s, e))
  {
    OthersStay(lease, s, e);
    var t := Next(lease, s, e);
    forall w
      ensures t.At(w).Holds() ==> s.At(w).Holds() && t.At(w).lease == s.At(w).lease
      ensures t.At(w).HasRead? ==> t.At(w).seen <= t.clock
      ensures t.At(w).HasToken() ==> t.At(w).token == t.At(w).lease.now
    {
      assert e.Tick? || w != e.w ==> t.At(w) == s.At(w);
    }
    LeaseFrame(lease, s, t);
  }

  /** Writes other than a claim: the writer gives its claim up, and no other worker can be
      the latest claimant. */
  lemma WriteKeepsLease(lease: nat, s: State, e: Event)
    requires LeaseInv(lease, s) && Enabled(s, e)
    requires (e.Step? || e.Broken?) && (s.At(e.w).Finalizing? || s.At(e.w).FailReady? || s.At(e.w).ReplayReady?)
    requires Next(lease, s, e).row != s.row || Next(lease, s, e).stamps != s.stamps
    ensures LeaseInv(lease, Next(lease, s, e))
  {
    WriterOwned(lease, s, e);
    OthersStay(lease, s, e);
    var t := Next(lease, s, e);
    forall w | t.At(w).Holds()
      ensures s.At(w).Holds() && t.At(w).lease == s.At(w).lease
      ensures s.At(w).lease.number == s.claims ==> t.row.status == Processed
    {
      assert w != e.w ==> t.At(w) == s.At(w);
    }
  }

  /** The writer was the latest claimant or replays a dead-lettered row, and either way the
      row of the latest claimant was its own. */
  lemma WriterOwned(lease: nat, s: State, e: Event)
    requires LeaseInv(lease, s) && Enabled(s, e)
    requires (e.Step? || e.Broken?) && (s.At(e.w).Finalizing? || s.At(e.w).FailReady? || s.At(e.w).ReplayReady?)
    requires Next(lease, s, e).row != s.row || Next(lease, s, e).stamps != s.stamps
    ensures var t := Next(lease, s, e); t.claims == s.claims && s.clock == t.clock && s.stamps == t.stamps
    ensures s.row.status == Dlq || (s.At(e.w).HasToken() && Owns(s.row, s.At(e.w).lease.now))
    ensures var t := Next(lease, s, e);
      t.At(e.w).Holds() ==> s.At(e.w).Holds() && t.At(e.w).lease == s.At(e.w).lease && t.row.status == Processed
  {}

  /** With distinct claim times and every re-read returning the worker's own claim: if two
      workers are inside the handler at once, the one with the older claim made it at least
      one lease ago. */
  lemma {:induction false} HandlersSeparated(lease: nat, states: seq<State>, events: seq<Event>, n: nat)
    requires IsRun(lease, states, events) && n < |states|
    requires forall i :: 0 <= i < n ==>
      !ReusesStamp(lease, states[i], events[i]) && !TakesForeignToken(states[i], events[i])
    ensures LeaseInv(lease, states[n])
    ensures forall v, w :: states[n].At(v).Handling? && states[n].At(w).Handling? && v != w ==>
      states[n].At(v).lease.number != states[n].At(w).lease.number
    ensures forall v, w :: (states[n].At(v).Handling? && states[n].At(w).Handling?
                            && states[n].At(v).lease.number < states[n].At(w).lease.number) ==>
      states[n].At(v).lease.now + lease <= states[n].clock
  {
    if n > 0 {
      HandlersSeparated(lease, states, events, n - 1);
      var s, e := states[n - 1], events[n - 1];
      assert Enabled(s, e) && states[n] == Next(lease, s, e);
      if (e.Step? || e.Broken?) && s.At(e.w).HasRead? {
        ClaimKeepsLease(lease, s, e);
      } else if states[n].row == s.row && states[n].stamps == s.stamps {
        QuietStepKeepsLease(lease, s, e);
      } else {
        WriteKeepsLease(lease, s, e);
      }
    }
  }
}

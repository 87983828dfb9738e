/**
 The lockout guarantee: how many failed credential checks a period can contain.

 Only logins touch the attempt records, so a run is a list of login attempts. The bound
 holds from any state of the records; it needs no history.
*/
module Lockout {
  import opened Wrappers
  import opened Tokens
  import opened Flows

  /** One login: who, whether the credentials were accepted, and the clock reading. */
  datatype Try = Try(subject: Subject, passwordEmpty: bool, balance: Option<nat>, now: nat)

  datatype Outcome = Failure | Success | Turned

  function OutcomeOf(cfg: Config, s: AuthState, t: Try): Outcome {
    var r := LoggedIn(cfg, s, t.subject, t.passwordEmpty, t.balance, t.now).1;
    match r
    case Ok(_) => Success
    case Err(e) => if e == InvalidCredentials then Failure else if e == Panicked then Success else Turned
  }

  function Step(cfg: Config, s: AuthState, t: Try): AuthState {
    LoggedIn(cfg, s, t.subject, t.passwordEmpty, t.balance, t.now).0
  }

  /** Failed credential checks for `subject` while the attempts are made in order. */
  function Failures(cfg: Config, s: AuthState, tries: seq<Try>, subject: Subject): nat
    decreases |tries|
  {
    if tries == [] then 0
    else
      (if tries[0].subject == subject && OutcomeOf(cfg, s, tries[0]) == Failure then 1 else 0)
      + Failures(cfg, Step(cfg, s, tries[0]), tries[1..], subject)
  }

  /** The credentials of `subject` are never accepted during the attempts. */
  predicate NoSuccess(cfg: Config, s: AuthState, tries: seq<Try>, subject: Subject)
    decreases |tries|
  {
    tries == []
    || (!(tries[0].subject == subject && OutcomeOf(cfg, s, tries[0]) == Success)
        && NoSuccess(cfg, Step(cfg, s, tries[0]), tries[1..], subject))
  }

  /** The clock never goes back and stays within [first, last]. */
  predicate Clocked(tries: seq<Try>, first: nat, last: nat) {
    && (forall i :: 0 <= i < |tries| ==> first <= tries[i].now <= last)
    && (forall i, j :: 0 <= i < j < |tries| ==> tries[i].now <= tries[j].now)
  }

  /** How many more failures the subject's record allows up to time `last`. */
  function Budget(cfg: Config, s: AuthState, subject: Subject, last: nat): nat {
    match AttemptsOf(s, subject)
    case None => cfg.maxLoginAttempts
    case Some(a) =>
      match a.lockedUntil
      case Some(until) => if until <= last then cfg.maxLoginAttempts else 0
      case None => if a.count >= cfg.maxLoginAttempts then 0 else cfg.maxLoginAttempts - a.count
  }

  ghost predicate ReasonableConfig(cfg: Config) {
    1 <= cfg.maxLoginAttempts <= U32_MAX && 1 <= cfg.lockoutSecs
  }

  /** One attempt uses the budget up by what it fails, and nothing refills it before the
      end of a period shorter than the lockout. */
  lemma StepSpendsBudget(cfg: Config, s: AuthState, t: Try, subject: Subject, first: nat, last: nat)
    requires ReasonableConfig(cfg)
    requires first <= t.now <= last < first + cfg.lockoutSecs && last < U64_MAX
    requires !(t.subject == subject && OutcomeOf(cfg, s, t) == Success)
    ensures (if t.subject == subject && OutcomeOf(cfg, s, t) == Failure then 1 else 0)
          + Budget(cfg, Step(cfg, s, t), subject, last) <= Budget(cfg, s, subject, last)
  {
    var s' := Step(cfg, s, t);
    if t.subject != subject {
      assert AttemptsOf(s', subject) == AttemptsOf(s, subject);
    }
  }

  lemma {:induction false} FailuresWithinBudget(
    cfg: Config, s: AuthState, tries: seq<Try>, subject: Subject, first: nat, last: nat)
    requires ReasonableConfig(cfg) && Clocked(tries, first, last)
    requires last < first + cfg.lockoutSecs && last < U64_MAX
    requires NoSuccess(cfg, s, tries, subject)
    ensures Failures(cfg, s, tries, subject) <= Budget(cfg, s, subject, last)
    decreases |tries|
  {
    if tries != [] {
      StepSpendsBudget(cfg, s, tries[0], subject, first, last);
      FailuresWithinBudget(cfg, Step(cfg, s, tries[0]), tries[1..], subject, first, last);
    }
  }

  /** The promise at clock limit `limit`: whatever the records say at the start, and
      whatever other subjects do in between, a period shorter than the lockout in which the
      subject never succeeds contains at most `maxLoginAttempts` failed checks. */
  ghost predicate BoundHoldsUpTo(cfg: Config, limit: nat) {
    forall s, tries, subject, first: nat, last: nat {:trigger Failures(cfg, s, tries, subject), Clocked(tries, first, last)} ::
      Clocked(tries, first, last) && last < first + cfg.lockoutSecs && last <= limit
      && NoSuccess(cfg, s, tries, subject)
      ==> Failures(cfg, s, tries, subject) <= cfg.maxLoginAttempts
  }

  /** A client that fails over and over at the very last second of the clock: the lock
      saturates to that same second and is lifted by the next attempt. */
  function Hammer(n: nat): seq<Try> {
    seq(n, i => LAST_SECOND)
  }

  /** The service after `count` failures; the empty one before the first. */
  function Failing(cfg: Config, count: nat): AuthState {
    if count == 0 then INITIAL else INITIAL.(attempts := map[[1] := Attempts(count, None)])
  }

  const LAST_SECOND := Try([1], true, None, U64_MAX)

  lemma HammerStep(cfg: Config, k: nat)
    requires ReasonableConfig(cfg) && k < cfg.maxLoginAttempts
    ensures Step(cfg, Failing(cfg, k), LAST_SECOND) == Failing(cfg, k + 1)
    ensures OutcomeOf(cfg, Failing(cfg, k), LAST_SECOND) == Failure
  {
    assert Gate(cfg, AttemptsOf(Failing(cfg, k), [1]), U64_MAX) == (Attempts(k, None), None);
  }

  lemma HammerFirst(n: nat, tail: seq<Try>)
    requires n > 0
    ensures var all := Hammer(n) + tail; all[0] == LAST_SECOND && all[1..] == Hammer(n - 1) + tail
  {}

  /** One failing attempt in front of others. */
  lemma CountFirst(cfg: Config, s: AuthState, s': AuthState, t: Try, rest: seq<Try>, all: seq<Try>)
    requires all != [] && all[0] == t && all[1..] == rest
    requires t.subject == [1] && OutcomeOf(cfg, s, t) == Failure && Step(cfg, s, t) == s'
    ensures Failures(cfg, s, all, [1]) == 1 + Failures(cfg, s', rest, [1])
    ensures NoSuccess(cfg, s, all, [1]) <==> NoSuccess(cfg, s', rest, [1])
  {}

  lemma HammerMore(cfg: Config, k: nat, n: nat, tail: seq<Try>)
    requires ReasonableConfig(cfg) && k < cfg.maxLoginAttempts && n > 0
    ensures Failures(cfg, Failing(cfg, k), Hammer(n) + tail, [1])
         == 1 + Failures(cfg, Failing(cfg, k + 1), Hammer(n - 1) + tail, [1])
    ensures NoSuccess(cfg, Failing(cfg, k), Hammer(n) + tail, [1])
       <==> NoSuccess(cfg, Failing(cfg, k + 1), Hammer(n - 1) + tail, [1])
  {
    HammerStep(cfg, k);
    HammerFirst(n, tail);
    CountFirst(cfg, Failing(cfg, k), Failing(cfg, k + 1), LAST_SECOND, Hammer(n - 1) + tail, Hammer(n) + tail);
  }

  /** From `k` recorded failures, `n` more attempts all fail, up to the limit. */
  lemma {:induction false} HammerFails(cfg: Config, k: nat, n: nat, tail: seq<Try>)
    requires ReasonableConfig(cfg) && k + n <= cfg.maxLoginAttempts
    requires NoSuccess(cfg, Failing(cfg, k + n), tail, [1])
    ensures Failures(cfg, Failing(cfg, k), Hammer(n) + tail, [1])
         == n + Failures(cfg, Failing(cfg, k + n), tail, [1])
    ensures NoSuccess(cfg, Failing(cfg, k), Hammer(n) + tail, [1])
    decreases n
  {
    if n == 0 {
      assert Hammer(n) + tail == tail;
    } else {
      HammerFails(cfg, k + 1, n - 1, tail);
      HammerMore(cfg, k, n, tail);
    }
  }

  /** The lockout promise holds for a clock limit exactly when the limit is below the
      largest representable second. */
  lemma LockoutBoundIff(cfg: Config, limit: nat)
    requires ReasonableConfig(cfg) && limit <= U64_MAX
    ensures BoundHoldsUpTo(cfg, limit) <==> limit < U64_MAX
  {
    if limit < U64_MAX {
      forall s, tries, subject, first: nat, last: nat |
        Clocked(tries, first, last) && last < first + cfg.lockoutSecs && last <= limit
        && NoSuccess(cfg, s, tries, subject)
        ensures Failures(cfg, s, tries, subject) <= cfg.maxLoginAttempts
      {
        FailuresWithinBudget(cfg, s, tries, subject, first, last);
      }
    } else {
      SaturationBreaksBound(cfg);
    }
  }

  /** From the empty service: one failure more than allowed, all in the last second. */
  lemma SaturationBreaksBound(cfg: Config)
    requires ReasonableConfig(cfg)
    ensures var tries := Hammer(cfg.maxLoginAttempts) + Hammer(2);
      && Clocked(tries, U64_MAX, U64_MAX) && NoSuccess(cfg, INITIAL, tries, [1])
      && Failures(cfg, INITIAL, tries, [1]) == cfg.maxLoginAttempts + 1
    ensures !BoundHoldsUpTo(cfg, U64_MAX)
  {
    var n := cfg.maxLoginAttempts;
    var tail := Hammer(2);
    var full := Failing(cfg, n);
    var locked := Step(cfg, full, tail[0]);
    assert AttemptsOf(locked, [1]) == Some(Attempts(n, Some(U64_MAX)));
    assert OutcomeOf(cfg, full, tail[0]) == Turned;
    assert OutcomeOf(cfg, locked, tail[1]) == Failure;
    assert tail[1..] == [tail[1]] && tail[1..][1..] == [];
    assert NoSuccess(cfg, locked, tail[1..], [1]);
    assert Failures(cfg, locked, tail[1..], [1]) == 1;
    HammerFails(cfg, 0, n, tail);
    var tries := Hammer(n) + tail;
    assert Clocked(tries, U64_MAX, U64_MAX);
    assert Failures(cfg, INITIAL, tries, [1]) == n + 1;
  }

  // ---------------------------------------------------------------------------
  // The lockout from its first failure to its end
  // ---------------------------------------------------------------------------

  /** Nothing is counted against the subject. */
  predicate Clean(s: AuthState, subject: Subject) {
    AttemptsOf(s, subject).None? || AttemptsOf(s, subject) == Some(Attempts(0, None))
  }

  /** The service after failing logins of the subject at the given times. */
  function AfterFailures(cfg: Config, s: AuthState, subject: Subject, balance: Option<nat>, times: seq<nat>): AuthState {
    if times == [] then s
    else LoggedIn(cfg, AfterFailures(cfg, s, subject, balance, times[..|times| - 1]), subject, true, balance, times[|times| - 1]).0
  }

  /** `n` failures on record, and nothing else changed. */
  predicate FailedSince(s: AuthState, t: AuthState, subject: Subject, n: nat) {
    && t.store == s.store && t.sessions == s.sessions && t.nextSessionId == s.nextSessionId
    && (n == 0 ==> Clean(t, subject)) && (n > 0 ==> AttemptsOf(t, subject) == Some(Attempts(n, None)))
  }

  lemma {:induction false} FailuresCounted(cfg: Config, s: AuthState, subject: Subject, balance: Option<nat>, times: seq<nat>)
    requires ReasonableConfig(cfg) && ValidLoginInput(subject, balance) && Clean(s, subject) && |times| <= cfg.maxLoginAttempts
    ensures FailedSince(s, AfterFailures(cfg, s, subject, balance, times), subject, |times|)
    ensures |times| < cfg.maxLoginAttempts ==> forall now ::
      LoggedIn(cfg, AfterFailures(cfg, s, subject, balance, times), subject, true, balance, now).1 == Err(InvalidCredentials)
  {
    if times != [] {
      FailuresCounted(cfg, s, subject, balance, times[..|times| - 1]);
    }
  }

  /** A subject that is empty or longer than 256 bytes, or an amount out of range, is refused without a trace. */
  lemma InputRefused(cfg: Config, s: AuthState, subject: Subject, passwordEmpty: bool, balance: Option<nat>, now: nat)
    ensures var (t, r) := LoggedIn(cfg, s, subject, passwordEmpty, balance, now);
      && (r == Err(ValidationError) <==> subject == [] || |subject| > 256)
      && (r == Err(AmountValidationFailed) <==>
            subject != [] && |subject| <= 256 && balance.Some? && !(1 <= balance.value <= 9_223_372_036_854_775_807))
      && (r == Err(ValidationError) || r == Err(AmountValidationFailed) ==> t == s)
  {}

  /** Which answers the logouts give. */
  lemma LogoutAnswers(s: AuthState, subject: Subject, sid: nat)
    ensures LoggedOut(s, sid).1 == (if sid in s.sessions then Ok(()) else Err(SessionNotFound))
    ensures LoggedOutFor(s, subject, sid).1 ==
      if sid !in s.sessions then Err(SessionNotFound)
      else if s.sessions[sid].subject != subject then Err(ValidationError)
      else Ok(())
    ensures LoggedOut(s, sid).1.Err? ==> LoggedOut(s, sid).0 == s
    ensures LoggedOutFor(s, subject, sid).1.Err? ==> LoggedOutFor(s, subject, sid).0 == s
    ensures LoggedOutFor(s, subject, sid).1.Ok? ==> LoggedOutFor(s, subject, sid).0 == LoggedOut(s, sid).0
  {}

  predicate RoomForLogin(s: AuthState) {
    s.store.nextId + 2 <= U64_MAX && s.nextSessionId < U64_MAX
  }

  /** The login succeeds: a new live session of the subject, and nothing counted against it any more. */
  predicate LetsIn(cfg: Config, s: AuthState, subject: Subject, balance: Option<nat>, now: nat) {
    var (t, r) := LoggedIn(cfg, s, subject, false, balance, now);
    && r.Ok? && r.value == Session(r.value.id, subject, now, now, r.value.tokens, false)
    && r.value.id !in s.sessions && t.sessions == s.sessions[r.value.id := r.value] && Clean(t, subject)
  }

  /** With fewer failures than allowed, a login with the password succeeds at any time. */
  lemma LetInBelowLimit(cfg: Config, s: AuthState, subject: Subject, balance: Option<nat>, times: seq<nat>, now: nat)
    requires ReasonableConfig(cfg) && ValidLoginInput(subject, balance) && Clean(s, subject)
    requires |times| < cfg.maxLoginAttempts && RoomForLogin(s) && s.nextSessionId !in s.sessions
    ensures LetsIn(cfg, AfterFailures(cfg, s, subject, balance, times), subject, balance, now)
  {
    FailuresCounted(cfg, s, subject, balance, times);
  }

  /** The locked service: as before, with a lock until the given time. */
  function LockedState(cfg: Config, s: AuthState, subject: Subject, until: nat): AuthState {
    s.(attempts := s.attempts[subject := Attempts(cfg.maxLoginAttempts, Some(until))])
  }

  /** After the last allowed failure, the next attempt at `u`, with or without the password,
      starts a lock until `u` plus the lockout. */
  lemma LockStarts(cfg: Config, s: AuthState, subject: Subject, balance: Option<nat>, times: seq<nat>, u: nat, passwordEmpty: bool)
    requires ReasonableConfig(cfg) && ValidLoginInput(subject, balance) && Clean(s, subject) && |times| == cfg.maxLoginAttempts
    ensures var full := AfterFailures(cfg, s, subject, balance, times);
      LoggedIn(cfg, full, subject, passwordEmpty, balance, u)
        == (LockedState(cfg, full, subject, Min(u + cfg.lockoutSecs, U64_MAX)), Err(AccountLocked(cfg.lockoutSecs)))
  {
    FailuresCounted(cfg, s, subject, balance, times);
  }

  /** Before that time every attempt is told how long is left and changes nothing; from then
      on the password decides again, and the first failure counts as one. */
  lemma LockEnds(cfg: Config, s: AuthState, subject: Subject, balance: Option<nat>, until: nat, t: nat, passwordEmpty: bool)
    requires ReasonableConfig(cfg) && ValidLoginInput(subject, balance) && RoomForLogin(s) && s.nextSessionId !in s.sessions
    ensures var locked := LockedState(cfg, s, subject, until);
      && (t < until ==> LoggedIn(cfg, locked, subject, passwordEmpty, balance, t) == (locked, Err(AccountLocked(until - t))))
      && (t >= until ==>
            && LetsIn(cfg, locked, subject, balance, t)
            && LoggedIn(cfg, locked, subject, true, balance, t).1 == Err(InvalidCredentials)
            && FailedSince(s, LoggedIn(cfg, locked, subject, true, balance, t).0, subject, 1))
  {
    var locked := LockedState(cfg, s, subject, until);
    assert locked.attempts[subject := Attempts(cfg.maxLoginAttempts, Some(until))] == locked.attempts;
    assert AttemptsOf(locked, subject) == Some(Attempts(cfg.maxLoginAttempts, Some(until)));
  }
}

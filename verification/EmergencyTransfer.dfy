/** The reducer behind an emergency transfer: its phases and its audit trail. */
module EmergencyTransfer {
  import opened Wrappers

  datatype Phase =
    | Idle | Reviewing | Confirmed | Submitting | Succeeded | Failed | Expired | ConfigChangedPhase | UnauthorizedPhase
    | CapabilityRevoked | Dismissed

  datatype Capability = Granted | Denied | Checking | Unconfigured

  /** The reviewed configuration, as one opaque text. */
  type Config = string

  datatype Event =
    | ReviewStarted(config: Config)
    | RiskAcknowledged(snapshot: Option<Config>)
    | RiskUnacknowledged(snapshot: Option<Config>)
    | ConfirmationBound(snapshot: Option<Config>, key: Option<string>)
    | SubmitAttempted(snapshot: Option<Config>, key: Option<string>)
    | SubmitSucceeded(snapshot: Option<Config>, key: Option<string>, txHash: string)
    | SubmitFailed(snapshot: Option<Config>, key: Option<string>, code: string, message: string)
    | DuplicateBlocked(snapshot: Option<Config>, key: Option<string>)
    | ExpiredEvent(snapshot: Option<Config>)
    | ConfigChangedEvent(snapshot: Option<Config>, newConfig: Config)
    | UnauthorizedEvent(snapshot: Option<Config>, reason: string)
    | DismissedEvent(snapshot: Option<Config>)

  datatype State = State(
    phase: Phase,
    riskAcknowledged: bool,
    capability: Capability,
    bindingKey: Option<string>,
    reviewedConfig: Option<Config>,
    txHash: Option<string>,
    errorMessage: Option<string>,
    unavailableReason: Option<string>,
    events: seq<Event>
  )

  datatype Action =
    | StartReview(config: Config)
    | AcknowledgeRisk
    | UnacknowledgeRisk
    | BindConfirmation(key: string)
    | Submit
    | SubmitSuccess(hash: string)
    | SubmitFailure(code: string, message: string)
    | BlockDuplicate
    | ConflictingKeyReused(why: string)
    | Expire
    | ChangeConfig(newConfig: Config)
    | Unauthorize(reason: string)
    | CapabilityGranted
    | CapabilityChecking
    | RevokeCapability
    | Dismiss
    | Reset
    | AppendEvent(event: Event)

  const INITIAL := State(Idle, false, Unconfigured, None, None, None, None, None, [])

  /** Stand-ins for the messages shown to the user. */
  const EXPIRED_REASON := "expired"
  const CHANGED_REASON := "changed"
  const NOT_GRANTED := "not granted"
  const REVOKED_REASON := "revoked"

  predicate BeforeEnd(p: Phase) {
    p in {Idle, Reviewing, Confirmed, Submitting}
  }

  /** `VALID_TRANSITIONS`; actions it does not list are always allowed. */
  predicate Allowed(a: Action, p: Phase) {
    match a
    case AcknowledgeRisk => p == Reviewing
    case UnacknowledgeRisk => p == Reviewing
    case BindConfirmation(_) => p == Reviewing
    case Submit => p == Confirmed
    case SubmitSuccess(_) => p == Submitting
    case SubmitFailure(_, _) => p == Submitting
    case BlockDuplicate => p == Submitting
    case Expire => BeforeEnd(p)
    case ChangeConfig(_) => p in {Reviewing, Confirmed, Submitting}
    case Unauthorize(_) => BeforeEnd(p)
    case CapabilityGranted => BeforeEnd(p)
    case CapabilityChecking => BeforeEnd(p)
    case RevokeCapability => BeforeEnd(p)
    case Dismiss => p != Idle && p != Dismissed
    case _ => true
  }

  function Append(s: State, e: Event): State {
    s.(events := s.events + [e])
  }

  function Reduce(s: State, a: Action): State {
    if !Allowed(a, s.phase) then s
    else
      match a
      case StartReview(config) =>
        Append(INITIAL.(phase := Reviewing, reviewedConfig := Some(config), events := s.events), ReviewStarted(config))
      case AcknowledgeRisk => Append(s.(riskAcknowledged := true), RiskAcknowledged(s.reviewedConfig))
      case UnacknowledgeRisk =>
        Append(s.(riskAcknowledged := false, bindingKey := None), RiskUnacknowledged(s.reviewedConfig))
      case BindConfirmation(key) =>
        if !s.riskAcknowledged then s
        else Append(s.(phase := Confirmed, bindingKey := Some(key)), ConfirmationBound(s.reviewedConfig, Some(key)))
      case Submit => Append(s.(phase := Submitting, errorMessage := None), SubmitAttempted(s.reviewedConfig, s.bindingKey))
      case SubmitSuccess(hash) =>
        Append(s.(phase := Succeeded, txHash := Some(hash)), SubmitSucceeded(s.reviewedConfig, s.bindingKey, hash))
      case SubmitFailure(code, message) =>
        Append(s.(phase := Failed, errorMessage := Some(message), bindingKey := None, txHash := None),
               SubmitFailed(s.reviewedConfig, s.bindingKey, code, message))
      case BlockDuplicate => Append(s, DuplicateBlocked(s.reviewedConfig, s.bindingKey))
      case ConflictingKeyReused(_) => s
      case Expire =>
        Append(s.(phase := Expired, bindingKey := None, txHash := None, unavailableReason := Some(EXPIRED_REASON)),
               ExpiredEvent(s.reviewedConfig))
      case ChangeConfig(newConfig) =>
        Append(s.(phase := ConfigChangedPhase, bindingKey := None, txHash := None, unavailableReason := Some(CHANGED_REASON)),
               ConfigChangedEvent(s.reviewedConfig, newConfig))
      case Unauthorize(reason) =>
        Append(s.(phase := UnauthorizedPhase, unavailableReason := Some(reason)), UnauthorizedEvent(s.reviewedConfig, reason))
      case CapabilityGranted => s.(capability := Granted)
      case CapabilityChecking => s.(capability := Checking)
      case RevokeCapability =>
        Append(s.(phase := CapabilityRevoked, capability := Denied, unavailableReason := Some(REVOKED_REASON)),
               UnauthorizedEvent(s.reviewedConfig, NOT_GRANTED))
      case Dismiss =>
        if s.reviewedConfig.Some? then Append(INITIAL.(events := s.events), DismissedEvent(s.reviewedConfig)) else INITIAL
      case Reset => INITIAL
      case AppendEvent(event) => Append(s, event)
  }

  function Run(actions: seq<Action>): State {
    if actions == [] then INITIAL else Reduce(Run(actions[..|actions| - 1]), actions[|actions| - 1])
  }

  // ---------------------------------------------------------------------------
  // Reading the audit trail, back to the latest start of a review
  // ---------------------------------------------------------------------------

  /** The configuration whose review was started last. */
  function ReviewedIn(events: seq<Event>): Option<Config> {
    if events == [] then None
    else
      var last := events[|events| - 1];
      if last.ReviewStarted? then Some(last.config) else ReviewedIn(events[..|events| - 1])
  }

  /** The confirmations bound since. */
  function BoundSince(events: seq<Event>): seq<Event> {
    if events == [] then []
    else
      var last := events[|events| - 1];
      if last.ReviewStarted? then []
      else BoundSince(events[..|events| - 1]) + (if last.ConfirmationBound? then [last] else [])
  }

  /** The risk was acknowledged since, and not withdrawn after that. */
  predicate AcknowledgedSince(events: seq<Event>) {
    events != [] &&
    var last := events[|events| - 1];
    last.RiskAcknowledged? || (!last.RiskUnacknowledged? && !last.ReviewStarted? && AcknowledgedSince(events[..|events| - 1]))
  }

  predicate SucceededSince(events: seq<Event>) {
    events != [] &&
    var last := events[|events| - 1];
    last.SubmitSucceeded? || (!last.ReviewStarted? && SucceededSince(events[..|events| - 1]))
  }

  /**
   * The trail up to here justifies a success with this configuration and key:
   * in the review in progress there is exactly one bound confirmation, it has
   * the same configuration and key, the acknowledgement stands, and there was
   * no other success.
   */
  predicate Justifies(events: seq<Event>, snapshot: Option<Config>, key: Option<string>) {
    && snapshot.Some? && key.Some?
    && ReviewedIn(events) == snapshot
    && BoundSince(events) == [ConfirmationBound(snapshot, key)]
    && AcknowledgedSince(events)
    && !SucceededSince(events)
  }

  predicate SuccessJustified(events: seq<Event>, p: nat)
    requires p < |events|
  {
    events[p].SubmitSucceeded? ==> Justifies(events[..p], events[p].snapshot, events[p].key)
  }

  ghost predicate AllJustified(events: seq<Event>) {
    forall p: nat :: p < |events| ==> SuccessJustified(events, p)
  }

  // ---------------------------------------------------------------------------
  // The invariant
  // ---------------------------------------------------------------------------

  /** What the trail says in each phase of a review. */
  predicate TrailMatches(s: State) {
    match s.phase
    case Reviewing =>
      && s.reviewedConfig.Some? && s.reviewedConfig == ReviewedIn(s.events)
      && BoundSince(s.events) == [] && !SucceededSince(s.events)
      && (s.riskAcknowledged ==> AcknowledgedSince(s.events))
    case Confirmed => Justifies(s.events, s.reviewedConfig, s.bindingKey)
    case Submitting => Justifies(s.events, s.reviewedConfig, s.bindingKey)
    case _ => true
  }

  ghost predicate Inv(s: State) {
    && AllJustified(s.events)
    && TrailMatches(s)
    && (s.txHash.Some? <==> s.phase == Succeeded)
  }

  lemma JustifiedAppend(events: seq<Event>, e: Event)
    requires AllJustified(events)
    requires e.SubmitSucceeded? ==> Justifies(events, e.snapshot, e.key)
    ensures AllJustified(events + [e])
  {
    forall p: nat | p <= |events| ensures SuccessJustified(events + [e], p) {
      assert (events + [e])[..p] == events[..p];
      if p < |events| {
        assert SuccessJustified(events, p);
      } else {
        assert events[..p] == events;
      }
    }
  }

  lemma TrailAppend(events: seq<Event>, e: Event)
    ensures ReviewedIn(events + [e]) == if e.ReviewStarted? then Some(e.config) else ReviewedIn(events)
    ensures BoundSince(events + [e]) ==
      if e.ReviewStarted? then [] else BoundSince(events) + (if e.ConfirmationBound? then [e] else [])
    ensures AcknowledgedSince(events + [e]) ==
      (e.RiskAcknowledged? || (!e.RiskUnacknowledged? && !e.ReviewStarted? && AcknowledgedSince(events)))
    ensures SucceededSince(events + [e]) == (e.SubmitSucceeded? || (!e.ReviewStarted? && SucceededSince(events)))
  {
    assert (events + [e])[..|events|] == events;
  }

  /** The event an action adds, if it adds one. */
  lemma AddsAtMostOne(s: State, a: Action) returns (e: Option<Event>)
    ensures e.Some? ==> Reduce(s, a).events == s.events + [e.value]
    ensures e.None? ==> Reduce(s, a).events == s.events || Reduce(s, a) == INITIAL
    ensures e.Some? && e.value.SubmitSucceeded? && !a.AppendEvent? ==>
      s.phase == Submitting && e.value.snapshot == s.reviewedConfig && e.value.key == s.bindingKey
  {
    var t := Reduce(s, a);
    if t.events == s.events || t.events == [] {
      e := None;
    } else {
      e := Some(t.events[|t.events| - 1]);
    }
  }

  lemma ReduceKeepsJustified(s: State, a: Action)
    requires AllJustified(s.events) && TrailMatches(s) && !a.AppendEvent?
    ensures AllJustified(Reduce(s, a).events)
  {
    var e := AddsAtMostOne(s, a);
    if e.Some? {
      JustifiedAppend(s.events, e.value);
    }
  }

  lemma ReduceKeepsTrail(s: State, a: Action)
    requires TrailMatches(s) && !a.AppendEvent?
    ensures TrailMatches(Reduce(s, a))
  {
    var e := AddsAtMostOne(s, a);
    if e.Some? {
      TrailAppend(s.events, e.value);
    }
  }

  lemma ReduceKeepsInv(s: State, a: Action)
    requires Inv(s) && !a.AppendEvent?
    ensures Inv(Reduce(s, a))
  {
    ReduceKeepsJustified(s, a);
    ReduceKeepsTrail(s, a);
  }

  /**
   * In every run, each recorded success is justified by the trail before it:
   * one confirmation per review, bound to the same configuration and key under
   * a standing acknowledgement, and at most one success per review. A
   * transaction hash is shown exactly in the succeeded phase.
   */
  lemma {:induction false} SuccessesJustified(actions: seq<Action>)
    requires forall i :: 0 <= i < |actions| ==> !actions[i].AppendEvent?
    ensures Inv(Run(actions))
  {
    if actions != [] {
      SuccessesJustified(actions[..|actions| - 1]);
      ReduceKeepsInv(Run(actions[..|actions| - 1]), actions[|actions| - 1]);
    }
  }

  /** The two actions that drop the trail. */
  predicate Wipes(s: State, a: Action) {
    a.Reset? || (a.Dismiss? && Allowed(a, s.phase) && s.reviewedConfig.None?)
  }

  /** The trail only grows, by at most one event, except exactly when it is wiped. */
  lemma TrailGrowsUnlessWiped(s: State, a: Action)
    ensures s.events <= Reduce(s, a).events <==> !Wipes(s, a) || s.events == []
    ensures !Wipes(s, a) ==> |Reduce(s, a).events| <= |s.events| + 1
    ensures Wipes(s, a) ==> Reduce(s, a) == INITIAL
  {}

  /** Two successes in a run are separated by the start of a new review. */
  lemma SuccessesAreSeparated(events: seq<Event>, p: nat, q: nat)
    requires AllJustified(events) && p < q < |events|
    requires events[p].SubmitSucceeded? && events[q].SubmitSucceeded?
    ensures exists r: nat :: p < r < q && events[r].ReviewStarted?
  {
    assert SuccessJustified(events, q);
    StillSucceeded(events, p, q);
  }

  lemma {:induction false} StillSucceeded(events: seq<Event>, p: nat, q: nat)
    requires p < q <= |events| && events[p].SubmitSucceeded?
    ensures SucceededSince(events[..q]) || exists r: nat :: p < r < q && events[r].ReviewStarted?
  {
    assert events[..q][..q - 1] == events[..q - 1];
    if p < q - 1 {
      StillSucceeded(events, p, q - 1);
    }
  }
}

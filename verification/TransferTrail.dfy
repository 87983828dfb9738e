/**
 Which actions an emergency transfer accepts, what each one records, and what its phase and
 its trail say about each other.
*/
module TransferTrail {
  import opened Wrappers
  import opened EmergencyTransfer

  // ---------------------------------------------------------------------------
  // Actions
  // ---------------------------------------------------------------------------

  /** A review is in progress. */
  predicate UnderReview(p: Phase) {
    p == Reviewing || p == Confirmed || p == Submitting
  }

  /** The action takes effect: each has its phases, and a confirmation needs the risk acknowledged. */
  predicate Takes(s: State, a: Action) {
    match a
    case StartReview(_) => true
    case AcknowledgeRisk => s.phase == Reviewing
    case UnacknowledgeRisk => s.phase == Reviewing
    case BindConfirmation(_) => s.phase == Reviewing && s.riskAcknowledged
    case Submit => s.phase == Confirmed
    case SubmitSuccess(_) => s.phase == Submitting
    case SubmitFailure(_, _) => s.phase == Submitting
    case BlockDuplicate => s.phase == Submitting
    case ConflictingKeyReused(_) => false
    case Expire => s.phase == Idle || UnderReview(s.phase)
    case ChangeConfig(_) => UnderReview(s.phase)
    case Unauthorize(_) => s.phase == Idle || UnderReview(s.phase)
    case CapabilityGranted => s.phase == Idle || UnderReview(s.phase)
    case CapabilityChecking => s.phase == Idle || UnderReview(s.phase)
    case RevokeCapability => s.phase == Idle || UnderReview(s.phase)
    case Dismiss => s.phase != Idle && s.phase != Dismissed
    case Reset => true
    case AppendEvent(_) => true
  }

  /** What the action records, if anything. */
  function Recorded(s: State, a: Action): Option<Event> {
    match a
    case StartReview(config) => Some(ReviewStarted(config))
    case AcknowledgeRisk => Some(RiskAcknowledged(s.reviewedConfig))
    case UnacknowledgeRisk => Some(RiskUnacknowledged(s.reviewedConfig))
    case BindConfirmation(key) => Some(ConfirmationBound(s.reviewedConfig, Some(key)))
    case Submit => Some(SubmitAttempted(s.reviewedConfig, s.bindingKey))
    case SubmitSuccess(hash) => Some(SubmitSucceeded(s.reviewedConfig, s.bindingKey, hash))
    case SubmitFailure(code, message) => Some(SubmitFailed(s.reviewedConfig, s.bindingKey, code, message))
    case BlockDuplicate => Some(DuplicateBlocked(s.reviewedConfig, s.bindingKey))
    case Expire => Some(ExpiredEvent(s.reviewedConfig))
    case ChangeConfig(newConfig) => Some(ConfigChangedEvent(s.reviewedConfig, newConfig))
    case Unauthorize(reason) => Some(UnauthorizedEvent(s.reviewedConfig, reason))
    case RevokeCapability => Some(UnauthorizedEvent(s.reviewedConfig, NOT_GRANTED))
    case Dismiss => if s.reviewedConfig.Some? then Some(DismissedEvent(s.reviewedConfig)) else None
    case AppendEvent(event) => Some(event)
    case _ => None
  }

  /** An action that does not take effect changes nothing; one that does adds its event to the
      trail, and only a reset, or dismissing what was never reviewed, drops the trail. */
  lemma ActionRecords(s: State, a: Action)
    ensures !Takes(s, a) ==> Reduce(s, a) == s
    ensures Takes(s, a) ==>
      Reduce(s, a).events ==
        if a.Reset? || (a.Dismiss? && s.reviewedConfig.None?) then []
        else s.events + (if Recorded(s, a).Some? then [Recorded(s, a).value] else [])
  {}

  /** Where an action that takes effect leads. */
  function PhaseAfter(s: State, a: Action): Phase {
    match a
    case StartReview(_) => Reviewing
    case BindConfirmation(_) => Confirmed
    case Submit => Submitting
    case SubmitSuccess(_) => Succeeded
    case SubmitFailure(_, _) => Failed
    case Expire => Expired
    case ChangeConfig(_) => ConfigChangedPhase
    case Unauthorize(_) => UnauthorizedPhase
    case RevokeCapability => CapabilityRevoked
    case Dismiss => Idle
    case Reset => Idle
    case _ => s.phase
  }

  /** The state starts afresh. */
  predicate Restarts(a: Action) {
    a.StartReview? || a.Dismiss? || a.Reset?
  }

  /** What an action that takes effect shows and keeps. */
  lemma ActionLeads(s: State, a: Action)
    requires Takes(s, a)
    ensures var t := Reduce(s, a);
      && t.phase == PhaseAfter(s, a)
      && t.reviewedConfig == (if a.StartReview? then Some(a.config) else if Restarts(a) then None else s.reviewedConfig)
      && t.riskAcknowledged == (a.AcknowledgeRisk? || (s.riskAcknowledged && !a.UnacknowledgeRisk? && !Restarts(a)))
      && t.bindingKey == (if a.BindConfirmation? then Some(a.key)
                          else if Restarts(a) || a.UnacknowledgeRisk? || a.SubmitFailure? || a.Expire? || a.ChangeConfig? then None
                          else s.bindingKey)
      && t.txHash == (if a.SubmitSuccess? then Some(a.hash)
                      else if Restarts(a) || a.SubmitFailure? || a.Expire? || a.ChangeConfig? then None
                      else s.txHash)
      && t.capability == (if a.CapabilityGranted? then Granted else if a.CapabilityChecking? then Checking
                          else if a.RevokeCapability? then Denied else if Restarts(a) then Unconfigured else s.capability)
      && t.errorMessage == (if a.SubmitFailure? then Some(a.message) else if Restarts(a) || a.Submit? then None else s.errorMessage)
      && (t.unavailableReason.Some? <==>
            a.Expire? || a.ChangeConfig? || a.Unauthorize? || a.RevokeCapability? || (!Restarts(a) && s.unavailableReason.Some?))
  {}

  // ---------------------------------------------------------------------------
  // The phase and the trail
  // ---------------------------------------------------------------------------

  /** The phases that go with the latest event; only after a reset or at the start is there none. */
  predicate PhaseFits(p: Phase, events: seq<Event>) {
    if events == [] then p == Idle
    else
      match events[|events| - 1]
      case ReviewStarted(_) => p == Reviewing
      case RiskAcknowledged(_) => p == Reviewing
      case RiskUnacknowledged(_) => p == Reviewing
      case ConfirmationBound(_, _) => p == Confirmed
      case SubmitAttempted(_, _) => p == Submitting
      case DuplicateBlocked(_, _) => p == Submitting
      case SubmitSucceeded(_, _, _) => p == Succeeded
      case SubmitFailed(_, _, _, _) => p == Failed
      case ExpiredEvent(_) => p == Expired
      case ConfigChangedEvent(_, _) => p == ConfigChangedPhase
      case UnauthorizedEvent(_, reason) => p == UnauthorizedPhase || (p == CapabilityRevoked && reason == NOT_GRANTED)
      case DismissedEvent(_) => p == Idle
  }

  /** While a review goes on, its state is what the trail since its start says. */
  predicate ReviewFits(s: State) {
    UnderReview(s.phase) ==>
      && s.reviewedConfig.Some? && s.reviewedConfig == ReviewedIn(s.events)
      && s.riskAcknowledged == AcknowledgedSince(s.events)
      && (s.phase != Reviewing ==> BoundSince(s.events) == [ConfirmationBound(s.reviewedConfig, s.bindingKey)])
      && (s.phase == Reviewing ==> BoundSince(s.events) == [])
  }

  lemma ReduceFits(s: State, a: Action)
    requires PhaseFits(s.phase, s.events) && !a.AppendEvent?
    ensures PhaseFits(Reduce(s, a).phase, Reduce(s, a).events)
  {
    ActionRecords(s, a);
    if Takes(s, a) {
      ActionLeads(s, a);
    }
  }

  lemma ReduceReviewFits(s: State, a: Action)
    requires ReviewFits(s) && !a.AppendEvent?
    ensures ReviewFits(Reduce(s, a))
  {
    ActionRecords(s, a);
    if Takes(s, a) {
      ActionLeads(s, a);
      if Recorded(s, a).Some? && UnderReview(PhaseAfter(s, a)) {
        TrailAppend(s.events, Recorded(s, a).value);
        RecordedFits(s, a);
      }
    }
  }

  lemma RecordedFits(s: State, a: Action)
    requires ReviewFits(s) && !a.AppendEvent? && Takes(s, a) && Recorded(s, a).Some? && UnderReview(PhaseAfter(s, a))
    ensures var e, t := Recorded(s, a).value, Reduce(s, a);
      && t.reviewedConfig == (if e.ReviewStarted? then Some(e.config) else s.reviewedConfig)
      && t.riskAcknowledged == (e.RiskAcknowledged? || (!e.RiskUnacknowledged? && !e.ReviewStarted? && s.riskAcknowledged))
      && (e.ReviewStarted? <==> a.StartReview?) && (e.ConfirmationBound? <==> a.BindConfirmation?)
      && !e.SubmitSucceeded?
  {}

  /** In every run of the reducer the latest event tells the phase, and the events since the
      latest start of a review tell its configuration, acknowledgement and confirmation. */
  lemma {:induction false} TrailTellsState(actions: seq<Action>)
    requires forall i :: 0 <= i < |actions| ==> !actions[i].AppendEvent?
    ensures PhaseFits(Run(actions).phase, Run(actions).events) && ReviewFits(Run(actions))
  {
    if actions != [] {
      var n := |actions| - 1;
      TrailTellsState(actions[..n]);
      ReduceFits(Run(actions[..n]), actions[n]);
      ReduceReviewFits(Run(actions[..n]), actions[n]);
    }
  }

  // ---------------------------------------------------------------------------
  // The way to a success
  // ---------------------------------------------------------------------------

  /** Review, acknowledgement, confirmation, submission and its success, one after the other. */
  function Steps(config: Config, key: string, hash: string): seq<Action> {
    [StartReview(config), AcknowledgeRisk, BindConfirmation(key), Submit, SubmitSuccess(hash)]
  }

  function Followed(s: State, actions: seq<Action>): State
    decreases |actions|
  {
    if actions == [] then s else Followed(Reduce(s, actions[0]), actions[1..])
  }

  /** From any state these succeed, show the hash, and record the five steps. */
  lemma StepsSucceed(s: State, config: Config, key: string, hash: string)
    ensures var t := Followed(s, Steps(config, key, hash));
      && t.phase == Succeeded && t.txHash == Some(hash)
      && t.events == s.events
           + [ReviewStarted(config), RiskAcknowledged(Some(config)), ConfirmationBound(Some(config), Some(key)),
              SubmitAttempted(Some(config), Some(key)), SubmitSucceeded(Some(config), Some(key), hash)]
  {
    var a := Steps(config, key, hash);
    var s2 := Reduce(Reduce(s, a[0]), a[1]);
    assert a[1..][1..] == a[2..] && a[2..][1..] == a[3..] && a[3..][1..] == a[4..] && a[4..][1..] == [];
    assert Followed(s, a) == Followed(s2, a[2..]);
    assert s2.events == s.events + [ReviewStarted(config)] + [RiskAcknowledged(Some(config))];
    LastSteps(s2, config, key, hash);
    assert a[2..] == [BindConfirmation(key), Submit, SubmitSuccess(hash)];
  }

  lemma LastSteps(s: State, config: Config, key: string, hash: string)
    requires s.phase == Reviewing && s.riskAcknowledged && s.reviewedConfig == Some(config)
    ensures var t := Followed(s, [BindConfirmation(key), Submit, SubmitSuccess(hash)]);
      && t.phase == Succeeded && t.txHash == Some(hash)
      && t.events == s.events
           + [ConfirmationBound(Some(config), Some(key)), SubmitAttempted(Some(config), Some(key)),
              SubmitSucceeded(Some(config), Some(key), hash)]
  {
    var a := [BindConfirmation(key), Submit, SubmitSuccess(hash)];
    var s1 := Reduce(s, a[0]);
    var s2 := Reduce(s1, a[1]);
    assert a[1..][1..] == a[2..] && a[2..][1..] == [];
    assert Followed(s2, a[2..]) == Reduce(s2, a[2]);
    assert Followed(s1, a[1..]) == Followed(s2, a[2..]);
  }
}

/** How long a recovery token serves, and when a request is answered with a new one. */
module RecoveryLifetimes {
  import opened Wrappers
  import opened Tokens
  import opened Recovery

  /** Every token on record belongs to a request. */
  ghost predicate TokensOnRecord(s: RecoveryState) {
    forall t :: t in s.tokens ==> t >= 1 && t - 1 in s.requests
  }

  lemma EventKeepsRecord(s: RecoveryState, e: Event)
    requires TokensOnRecord(s) && Possible(s, e)
    ensures TokensOnRecord(After(s, e))
  {}

  lemma {:induction false} RunKeepsRecord(states: seq<RecoveryState>, events: seq<Event>, n: nat)
    requires IsRun(states, events) && n < |states|
    ensures TokensOnRecord(states[n])
  {
    if n > 0 {
      RunKeepsRecord(states, events, n - 1);
      assert Possible(states[n - 1], events[n - 1]) && states[n] == After(states[n - 1], events[n - 1]);
      EventKeepsRecord(states[n - 1], events[n - 1]);
    }
  }

  /** The answer is a token that was not there before. */
  predicate IsNew(s: RecoveryState, r: Result<RecoveryToken, AuthError>) {
    r.Ok? && r.value.id !in s.tokens
  }

  /** The subject is named and short enough, and so is the session. */
  predicate Accepts(subject: Subject, sessionId: nat) {
    subject != [] && |subject| <= 256 && sessionId > 0
  }

  /** No record, or one of the subject's whose token was cancelled or has expired. */
  predicate CallsForNew(s: RecoveryState, subject: Subject, now: nat, found: Option<nat>)
    requires found.Some? ==> found.value in s.requests && found.value + 1 in s.tokens
  {
    found.None?
    || (&& s.requests[found.value].subject == subject
        && (s.requests[found.value].status == Cancelled
            || (s.requests[found.value].status == Pending && s.tokens[found.value + 1].expiresAt <= now)))
  }

  lemma RecordHasToken(s: RecoveryState, found: Option<nat>)
    requires RecoveryWf(s) && (found.Some? ==> found.value in s.requests)
    ensures found.Some? ==> found.value + 1 in s.tokens && s.requests[found.value].token == Some(s.tokens[found.value + 1])
  {
    if found.Some? {
      assert RequestWf(s, found.value);
    }
  }

  lemma NewAnswers(s: RecoveryState, subject: Subject, sessionId: nat, now: nat, lifetime: nat, found: Option<nat>)
    requires s.nextId <= U64_MAX && s.nextId + 1 !in s.tokens && MayFindRecord(s, sessionId, found)
    requires found.Some? ==>
      && found.value + 1 in s.tokens && s.tokens[found.value + 1].id in s.tokens
      && s.requests[found.value].token == Some(s.tokens[found.value + 1])
    ensures var (t, r) := Requested(s, subject, sessionId, now, lifetime, found);
      && (IsNew(s, r) <==> Accepts(subject, sessionId) && CallsForNew(s, subject, now, found) && s.nextId + 2 <= U64_MAX)
      && (r == Err(Panicked) <==> Accepts(subject, sessionId) && CallsForNew(s, subject, now, found) && s.nextId + 2 > U64_MAX)
      && (r == Err(Panicked) ==> t == s.(nextId := U64_MAX))
      && (IsNew(s, r) || r == Err(Panicked) || t == s)
  {
    FreshAnswers(s, subject, sessionId, now, lifetime);
  }

  lemma OtherAnswers(s: RecoveryState, subject: Subject, sessionId: nat, now: nat, lifetime: nat, found: Option<nat>)
    requires s.nextId <= U64_MAX && s.nextId + 1 !in s.tokens && MayFindRecord(s, sessionId, found)
    requires found.Some? ==>
      && found.value + 1 in s.tokens && s.tokens[found.value + 1].id in s.tokens
      && s.requests[found.value].token == Some(s.tokens[found.value + 1])
    ensures var (t, r) := Requested(s, subject, sessionId, now, lifetime, found);
      && (r.Ok? && !IsNew(s, r) <==>
            && Accepts(subject, sessionId) && found.Some? && s.requests[found.value].subject == subject
            && s.requests[found.value].status == Pending && now < s.tokens[found.value + 1].expiresAt)
      && (r.Ok? && !IsNew(s, r) ==> r.value == s.tokens[found.value + 1])
      && (r == Err(RecoveryAlreadyCompleted) <==>
            && Accepts(subject, sessionId) && found.Some? && s.requests[found.value].subject == subject
            && s.requests[found.value].status == Completed)
      && (r == Err(ValidationError) <==>
            !Accepts(subject, sessionId) || (found.Some? && s.requests[found.value].subject != subject))
  {
    FreshAnswers(s, subject, sessionId, now, lifetime);
  }

  /** A standing token is on record. */
  lemma StandingIsOld(s: RecoveryState, k: nat)
    requires RecoveryWf(s) && k in s.requests
    ensures k + 1 in s.tokens && s.tokens[k + 1].id in s.tokens
  {
    assert RequestWf(s, k);
  }

  lemma FreshAnswers(s: RecoveryState, subject: Subject, sessionId: nat, now: nat, lifetime: nat)
    requires s.nextId + 1 !in s.tokens && s.nextId <= U64_MAX
    ensures var (t, r) := FreshRequest(s, subject, sessionId, now, lifetime);
      && (IsNew(s, r) <==> s.nextId + 2 <= U64_MAX)
      && (!IsNew(s, r) ==> r == Err(Panicked) && t == s.(nextId := U64_MAX))
  {}

  /** Which answer a request gets, by the record that the search settles on. */
  lemma RequestAnswers(s: RecoveryState, subject: Subject, sessionId: nat, now: nat, lifetime: nat, found: Option<nat>)
    requires RecoveryWf(s) && TokensOnRecord(s) && MayFindRecord(s, sessionId, found)
    ensures found.Some? ==> found.value + 1 in s.tokens
    ensures var (t, r) := Requested(s, subject, sessionId, now, lifetime, found);
      && (IsNew(s, r) <==> Accepts(subject, sessionId) && CallsForNew(s, subject, now, found) && s.nextId + 2 <= U64_MAX)
      && (r == Err(Panicked) <==> Accepts(subject, sessionId) && CallsForNew(s, subject, now, found) && s.nextId + 2 > U64_MAX)
      && (r == Err(Panicked) ==> t == s.(nextId := U64_MAX))
      && (IsNew(s, r) || r == Err(Panicked) || t == s)
      && (r.Ok? && !IsNew(s, r) <==>
            && Accepts(subject, sessionId) && found.Some? && s.requests[found.value].subject == subject
            && s.requests[found.value].status == Pending && now < s.tokens[found.value + 1].expiresAt)
      && (r.Ok? && !IsNew(s, r) ==> r.value == s.tokens[found.value + 1])
      && (r == Err(RecoveryAlreadyCompleted) <==>
            && Accepts(subject, sessionId) && found.Some? && s.requests[found.value].subject == subject
            && s.requests[found.value].status == Completed)
      && (r == Err(ValidationError) <==>
            !Accepts(subject, sessionId) || (found.Some? && s.requests[found.value].subject != subject))
  {
    RecordHasToken(s, found);
    IdsAreIssued(s);
    if found.Some? {
      StandingIsOld(s, found.value);
    }
    NewAnswers(s, subject, sessionId, now, lifetime, found);
    OtherAnswers(s, subject, sessionId, now, lifetime, found);
  }

  /** A new token names what was asked for, expires the lifetime after the request, and is usable. */
  lemma NewTokenIsUsable(s: RecoveryState, subject: Subject, sessionId: nat, now: nat, lifetime: nat, found: Option<nat>)
    requires RecoveryWf(s) && MayFindRecord(s, sessionId, found)
    requires IsNew(s, Requested(s, subject, sessionId, now, lifetime, found).1)
    ensures var (t, r) := Requested(s, subject, sessionId, now, lifetime, found);
      var tok := r.value;
      && tok.subject == subject && tok.sessionId == sessionId && tok.expiresAt == Min(now + lifetime, U64_MAX)
      && Holds(t, tok)
      && t.requests == s.requests[tok.id - 1 :=
           Request(tok.id - 1, subject, sessionId, Status.Pending, now, tok.expiresAt, Some(tok))]
      && (forall id :: id in s.active ==> id in t.active)
  {
    RecordHasToken(s, found);
  }

  /** The token is on record and can still be used. */
  predicate Holds(s: RecoveryState, tok: RecoveryToken) {
    tok.id in s.active && tok.id in s.tokens && s.tokens[tok.id] == tok
  }

  /** The event takes the token out of use: a completion that redeems it or finds it
      expired, or a cancellation that settles on its request. */
  predicate EndsToken(s: RecoveryState, e: Event, tok: RecoveryToken) {
    match e.call
    case CallRequest(_, _) => false
    case CallComplete(t, store) =>
      && t.id == tok.id && t.subject == tok.subject && t.sessionId == tok.sessionId
      && (t.expiresAt <= e.now || store.nextId + 2 <= U64_MAX)
    case CallCancel(_, _) => e.found.Some? && e.found.value + 1 == tok.id
  }

  lemma CompletionEndsExactly(s: RecoveryState, store: TokenStoreSnapshot, t: RecoveryToken, now: nat, life: Lifetimes,
    found: Option<nat>, tok: RecoveryToken)
    requires RecoveryWf(s) && MayFindPending(s, t, found) && Holds(s, tok)
    ensures var s' := Completion(s, store, t, now, life, found).0;
      Holds(s', tok) <==>
        !(&& t.id == tok.id && t.subject == tok.subject && t.sessionId == tok.sessionId
          && (t.expiresAt <= now || store.nextId + 2 <= U64_MAX))
  {
    CompletionSucceedsIff(s, store, t, now, life, found);
    CompletionAllOrNothing(s, store, t, now, life, found);
  }

  lemma RequestKeepsToken(s: RecoveryState, subject: Subject, sessionId: nat, now: nat, lifetime: nat, found: Option<nat>,
    tok: RecoveryToken)
    requires RecoveryWf(s) && MayFindRecord(s, sessionId, found) && Holds(s, tok)
    ensures Holds(Requested(s, subject, sessionId, now, lifetime, found).0, tok)
  {
    IdsAreIssued(s);
  }

  lemma CancelEndsExactly(s: RecoveryState, owner: Option<Subject>, target: nat, found: Option<nat>, tok: RecoveryToken)
    requires RecoveryWf(s) && MayFindTarget(s, owner, target, found) && Holds(s, tok)
    ensures Holds(Cancelling(s, found).0, tok) <==> !(found.Some? && found.value + 1 == tok.id)
  {
    RecordHasToken(s, found);
    if found.Some? {
      assert RequestWf(s, found.value);
    }
  }

  /** A usable token stays usable exactly until an event ends it. */
  lemma EventEndsExactly(s: RecoveryState, e: Event, tok: RecoveryToken)
    requires RecoveryWf(s) && Possible(s, e) && Holds(s, tok)
    ensures Holds(After(s, e), tok) <==> !EndsToken(s, e, tok)
  {
    match e.call
    case CallRequest(subject, sessionId) => RequestKeepsToken(s, subject, sessionId, e.now, e.lifetime, e.found, tok);
    case CallComplete(t, store) => CompletionEndsExactly(s, store, t, e.now, e.life, e.found, tok);
    case CallCancel(owner, target) => CancelEndsExactly(s, owner, target, e.found, tok);
  }

  lemma {:induction false} HeldUntilEnded(states: seq<RecoveryState>, events: seq<Event>, i: nat, j: nat, tok: RecoveryToken)
    requires IsRun(states, events) && i <= j <= |events| && Holds(states[i], tok)
    requires forall n :: i <= n < j ==> !EndsToken(states[n], events[n], tok)
    ensures Holds(states[j], tok)
    decreases j
  {
    if i < j {
      HeldUntilEnded(states, events, i, j - 1, tok);
      RunStepKeepsToken(states, events, j - 1, tok);
    }
  }

  lemma RunStepKeepsToken(states: seq<RecoveryState>, events: seq<Event>, n: nat, tok: RecoveryToken)
    requires IsRun(states, events) && n < |events| && Holds(states[n], tok) && !EndsToken(states[n], events[n], tok)
    ensures Holds(states[n + 1], tok)
  {
    RunKeepsWf(states, events, n, n);
    assert Possible(states[n], events[n]) && states[n + 1] == After(states[n], events[n]);
    EventEndsExactly(states[n], events[n], tok);
  }

  /** Which refusal a completion gets. */
  lemma CompletionRefused(s: RecoveryState, store: TokenStoreSnapshot, tok: RecoveryToken, now: nat, life: Lifetimes,
    found: Option<nat>)
    requires RecoveryWf(s) && MayFindPending(s, tok, found)
    ensures tok.id in s.active ==> tok.id in s.tokens
    ensures var r := Completion(s, store, tok, now, life, found).2;
      var fits := tok.id in s.active && s.tokens[tok.id].subject == tok.subject && s.tokens[tok.id].sessionId == tok.sessionId;
      && (r == Err(TokenAlreadyUsed) <==> tok.id in s.used)
      && (r == Err(RecoveryTokenInvalid) <==> !fits && tok.id !in s.used)
      && (r == Err(TokenExpired) <==> fits && tok.expiresAt <= now)
      && (r == Err(InternalError) <==> fits && now < tok.expiresAt && store.nextId + 2 > U64_MAX)
  {
    CompletionSucceedsIff(s, store, tok, now, life, found);
    if tok.id in s.active {
      assert RequestWf(s, tok.id - 1);
      if s.tokens[tok.id].subject == tok.subject && s.tokens[tok.id].sessionId == tok.sessionId {
        assert MatchesRequest(s, tok, tok.id - 1);
      }
    }
  }

  /** The pair that a completion returns: issued at its time with the store's lifetimes, and its access token verifies until then. */
  lemma CompletionIssues(s: RecoveryState, store: TokenStoreSnapshot, tok: RecoveryToken, now: nat, life: Lifetimes,
    found: Option<nat>, t: nat)
    requires RecoveryWf(s) && MayFindPending(s, tok, found) && StoreWf(store)
    requires Completion(s, store, tok, now, life, found).2.Ok?
    ensures var (_, after, r) := Completion(s, store, tok, now, life, found);
      var pair := r.value;
      && pair.access == AccessToken(store.nextId, tok.subject, now, Min(now + life.access, U64_MAX))
      && pair.refresh == RefreshToken(store.nextId + 1, tok.subject, now, Min(now + life.refresh, U64_MAX))
      && (Verify(after, pair.access, t).Ok? <==> t < Min(now + life.access, U64_MAX))
      && (after.nextId + 2 <= U64_MAX ==>
            (Refreshed(after, pair.refresh, t, life).1.Ok? <==> t < Min(now + life.refresh, U64_MAX)))
  {
    var (_, after, r) := Completion(s, store, tok, now, life, found);
    CompletionLeavesOnePair(s, store, tok, now, life, found);
    assert r.value.access.id in AccessIdsOf(after, tok.subject) && r.value.refresh.id in RefreshIdsOf(after, tok.subject);
    VerifyExactly(after, r.value.access, t);
    RefreshAllOrNothing(after, r.value.refresh, t, life);
  }

  predicate AnswersNew(s: RecoveryState, e: Event)
    requires e.found.Some? ==> e.found.value in s.requests
  {
    e.call.CallRequest? && IsNew(s, Requested(s, e.call.subject, e.call.sessionId, e.now, e.lifetime, e.found).1)
  }

  /** In every run, the token that a request was newly answered with completes, until an event
      ends it, exactly before the request's time plus the lifetime, while two token ids are
      left; later it is reported expired. */
  lemma RecoveryTokenServes(states: seq<RecoveryState>, events: seq<Event>, i: nat, j: nat, t: nat, store: TokenStoreSnapshot,
    life: Lifetimes, found: Option<nat>)
    requires IsRun(states, events) && i < j <= |events|
    requires Possible(states[i], events[i]) && AnswersNew(states[i], events[i])
    requires var tok := NewToken(states[i], events[i]);
      && (forall n :: i < n < j ==> !EndsToken(states[n], events[n], tok))
      && MayFindPending(states[j], tok, found)
    ensures var r := Completion(states[j], store, NewToken(states[i], events[i]), t, life, found).2;
      var end := Min(events[i].now + events[i].lifetime, U64_MAX);
      && (r.Ok? <==> t < end && store.nextId + 2 <= U64_MAX)
      && (t >= end ==> r == Err(TokenExpired))
  {
    var s, e := states[i], events[i];
    var tok := NewToken(s, e);
    RunKeepsWf(states, events, i, i);
    assert states[i + 1] == After(s, e);
    NewTokenIsUsable(s, e.call.subject, e.call.sessionId, e.now, e.lifetime, e.found);
    HeldUntilEnded(states, events, i + 1, j, tok);
    RunKeepsWf(states, events, j, j);
    CompletionSucceedsIff(states[j], store, tok, t, life, found);
  }

  function NewToken(s: RecoveryState, e: Event): RecoveryToken
    requires (e.found.Some? ==> e.found.value in s.requests) && AnswersNew(s, e)
  {
    Requested(s, e.call.subject, e.call.sessionId, e.now, e.lifetime, e.found).1.value
  }

  /** A cancellation succeeds exactly when the session has a pending request, of the owner if
      one is named; it cancels one such request, and every other record stays. */
  lemma CancellationExactly(s: RecoveryState, owner: Option<Subject>, sessionId: nat, found: Option<nat>)
    requires RecoveryWf(s) && MayFindTarget(s, owner, sessionId, found)
    ensures var (t, r) := Cancelling(s, found);
      && (r.Ok? <==> exists k :: k in s.requests && s.requests[k].sessionId == sessionId && s.requests[k].status == Pending
                                 && (owner == None || owner == Some(s.requests[k].subject)))
      && (r.Err? ==> r == Err(RecoveryTokenInvalid) && t == s)
      && (r.Ok? ==>
            && found.Some? && s.requests[found.value].sessionId == sessionId && s.requests[found.value].status == Pending
            && (owner == None || owner == Some(s.requests[found.value].subject))
            && t.requests.Keys == s.requests.Keys && t.requests[found.value].status == Cancelled
            && (forall k :: k in s.requests && k != found.value ==> t.requests[k] == s.requests[k])
            && found.value + 1 !in t.active && t.tokens == s.tokens
            && (forall id :: id in s.active && id != found.value + 1 ==> id in t.active))
  {
    RecordHasToken(s, found);
    if found.Some? {
      assert RequestWf(s, found.value);
    } else {
      forall k | k in s.requests && s.requests[k].sessionId == sessionId && s.requests[k].status == Pending
        ensures !(owner == None || owner == Some(s.requests[k].subject))
      {
        assert !CancelTarget(s, owner, sessionId, k);
      }
    }
  }
}

/**
 Two-phase account recovery: a one-time token is requested, then traded for a fresh token
 pair while every other token of the subject is revoked. A failure while issuing the pair
 rolls both the recovery records and the token store back.
*/
module Recovery {
  import opened Wrappers
  import opened Tokens

  datatype Status = Pending | Completed | Cancelled

  datatype RecoveryToken = RecoveryToken(id: nat, subject: Subject, expiresAt: nat, sessionId: nat)

  datatype Request = Request(
    id: nat,
    subject: Subject,
    sessionId: nat,
    status: Status,
    createdAt: nat,
    expiresAt: nat,
    token: Option<RecoveryToken>)

  datatype RecoveryState = RecoveryState(
    requests: map<nat, Request>,
    tokens: map<nat, RecoveryToken>,
    active: set<nat>,
    used: set<nat>,
    nextId: nat)

  const INITIAL := RecoveryState(map[], map[], {}, {}, 1)

  // ---------------------------------------------------------------------------
  // What each operation does
  // ---------------------------------------------------------------------------

  predicate ValidRequestInput(subject: Subject, sessionId: nat) {
    1 <= |subject| <= MAX_SUBJECT_LENGTH && sessionId != 0
  }

  /** Any request record of the session, if there is one. */
  ghost predicate MayFindRecord(s: RecoveryState, sessionId: nat, found: Option<nat>) {
    match found
    case Some(k) => k in s.requests && s.requests[k].sessionId == sessionId
    case None => forall k :: k in s.requests ==> s.requests[k].sessionId != sessionId
  }

  function FreshRequest(s: RecoveryState, subject: Subject, sessionId: nat, now: nat, lifetime: nat):
    (RecoveryState, Result<RecoveryToken, AuthError>)
  {
    if s.nextId >= U64_MAX then (s, Err(Panicked))
    else if s.nextId + 1 >= U64_MAX then (s.(nextId := s.nextId + 1), Err(Panicked))
    else
      var reqId, tokenId := s.nextId, s.nextId + 1;
      var token := RecoveryToken(tokenId, subject, SaturatingAdd(now, lifetime), sessionId);
      var request := Request(reqId, subject, sessionId, Pending, now, token.expiresAt, Some(token));
      (RecoveryState(s.requests[reqId := request], s.tokens[tokenId := token],
                     s.active + {tokenId}, s.used, s.nextId + 2),
       Ok(token))
  }

  function Requested(s: RecoveryState, subject: Subject, sessionId: nat, now: nat, lifetime: nat, found: Option<nat>):
    (RecoveryState, Result<RecoveryToken, AuthError>)
    requires found.Some? ==> found.value in s.requests
  {
    if !ValidRequestInput(subject, sessionId) then (s, Err(ValidationError))
    else if found.None? then FreshRequest(s, subject, sessionId, now, lifetime)
    else
      var req := s.requests[found.value];
      if req.subject != subject then (s, Err(ValidationError))
      else if req.status == Completed then (s, Err(RecoveryAlreadyCompleted))
      else if req.status == Pending && req.token.Some? && req.token.value.expiresAt > now then
        (s, Ok(req.token.value))
      else FreshRequest(s, subject, sessionId, now, lifetime)
  }

  predicate MatchesRequest(s: RecoveryState, tok: RecoveryToken, k: nat) {
    && k in s.requests
    && s.requests[k].sessionId == tok.sessionId
    && s.requests[k].subject == tok.subject
    && s.requests[k].status == Pending
    && s.requests[k].token.Some? && s.requests[k].token.value.id == tok.id
  }

  ghost predicate MayFindPending(s: RecoveryState, tok: RecoveryToken, found: Option<nat>) {
    match found
    case Some(k) => MatchesRequest(s, tok, k)
    case None => forall k :: !MatchesRequest(s, tok, k)
  }

  function Consumed(s: RecoveryState, tokenId: nat, k: nat): RecoveryState
    requires k in s.requests
  {
    s.(active := s.active - {tokenId},
       used := s.used + {tokenId},
       requests := s.requests[k := s.requests[k].(status := Completed)])
  }

  function Completion(s: RecoveryState, store: TokenStoreSnapshot, tok: RecoveryToken, now: nat, life: Lifetimes, found: Option<nat>):
    (RecoveryState, TokenStoreSnapshot, Result<TokenPair, AuthError>)
    requires found.Some? ==> found.value in s.requests
  {
    if tok.id !in s.active then
      (s, store, Err(if tok.id in s.used then TokenAlreadyUsed else RecoveryTokenInvalid))
    else if tok.id !in s.tokens then (s, store, Err(RecoveryTokenInvalid))
    else if s.tokens[tok.id].subject != tok.subject || s.tokens[tok.id].sessionId != tok.sessionId then
      (s, store, Err(RecoveryTokenInvalid))
    else if tok.expiresAt <= now then (s.(active := s.active - {tok.id}), store, Err(TokenExpired))
    else if found.None? then (s, store, Err(RecoveryTokenInvalid))
    else
      var (store', pair) := Issue(RevokedAll(store, tok.subject), tok.subject, now, life);
      match pair
      case Some(p) => (Consumed(s, tok.id, found.value), store', Ok(p))
      case None => (s, store, Err(InternalError))
  }

  /** Cancels one pending request; `None` when the search found none. */
  function Cancelling(s: RecoveryState, found: Option<nat>): (RecoveryState, Result<(), AuthError>)
    requires found.Some? ==> found.value in s.requests
  {
    if found.None? then (s, Err(RecoveryTokenInvalid))
    else
      var req := s.requests[found.value];
      (s.(requests := s.requests[found.value := req.(status := Cancelled)],
          active := if req.token.Some? then s.active - {req.token.value.id} else s.active),
       Ok(()))
  }

  predicate CancelTarget(s: RecoveryState, subject: Option<Subject>, sessionId: nat, k: nat) {
    && k in s.requests
    && s.requests[k].sessionId == sessionId
    && (subject.Some? ==> s.requests[k].subject == subject.value)
    && s.requests[k].status == Pending
  }

  ghost predicate MayFindTarget(s: RecoveryState, subject: Option<Subject>, sessionId: nat, found: Option<nat>) {
    match found
    case Some(k) => CancelTarget(s, subject, sessionId, k)
    case None => forall k :: !CancelTarget(s, subject, sessionId, k)
  }

  // ---------------------------------------------------------------------------
  // What every state of the service satisfies
  // ---------------------------------------------------------------------------

  ghost predicate RequestWf(s: RecoveryState, k: nat)
    requires k in s.requests
  {
    var r := s.requests[k];
    && r.id == k && 1 <= k && k + 1 < s.nextId
    && k + 1 in s.tokens
    && r.token == Some(s.tokens[k + 1])
    && s.tokens[k + 1].id == k + 1
    && s.tokens[k + 1].subject == r.subject && s.tokens[k + 1].sessionId == r.sessionId
    && (r.status == Completed <==> k + 1 in s.used)
  }

  /** Every token that can still be used belongs to a pending request, and no token is
      both usable and used. */
  ghost predicate RecoveryWf(s: RecoveryState) {
    && 1 <= s.nextId <= U64_MAX
    && s.active !! s.used
    && (forall k :: k in s.requests ==> RequestWf(s, k))
    && (forall t :: t in s.active ==> t >= 1 && t - 1 in s.requests && s.requests[t - 1].status == Pending)
    && (forall t :: t in s.used ==> t >= 1 && t - 1 in s.requests)
  }

  lemma IdsAreIssued(s: RecoveryState)
    requires RecoveryWf(s)
    ensures s.nextId !in s.requests && s.nextId + 1 !in s.requests
    ensures s.nextId + 1 !in s.used && s.nextId + 1 !in s.active
  {
    forall k | k in s.requests ensures k + 1 < s.nextId {
      assert RequestWf(s, k);
    }
  }

  lemma FreshKeepsWf(s: RecoveryState, subject: Subject, sessionId: nat, now: nat, lifetime: nat)
    requires RecoveryWf(s)
    ensures var t := FreshRequest(s, subject, sessionId, now, lifetime).0; RecoveryWf(t) && t.used == s.used
  {
    var t := FreshRequest(s, subject, sessionId, now, lifetime).0;
    IdsAreIssued(s);
    forall k | k in s.requests ensures RequestWf(t, k) {
      assert RequestWf(s, k);
    }
    if s.nextId in t.requests {
      assert RequestWf(t, s.nextId);
    }
  }

  lemma RequestKeepsWf(s: RecoveryState, subject: Subject, sessionId: nat, now: nat, lifetime: nat, found: Option<nat>)
    requires RecoveryWf(s) && MayFindRecord(s, sessionId, found)
    ensures var (t, r) := Requested(s, subject, sessionId, now, lifetime, found);
      && RecoveryWf(t) && t.used == s.used
  {
    FreshKeepsWf(s, subject, sessionId, now, lifetime);
  }

  lemma ConsumedKeepsWf(s: RecoveryState, k: nat)
    requires RecoveryWf(s) && k in s.requests && s.requests[k].status == Pending && k + 1 in s.active
    ensures RecoveryWf(Consumed(s, k + 1, k))
  {
    var t := Consumed(s, k + 1, k);
    forall q | q in t.requests ensures RequestWf(t, q) {
      assert RequestWf(s, q);
    }
  }

  lemma CompletionKeepsWf(s: RecoveryState, store: TokenStoreSnapshot, tok: RecoveryToken, now: nat, life: Lifetimes, found: Option<nat>)
    requires RecoveryWf(s) && MayFindPending(s, tok, found)
    ensures var (t, _, r) := Completion(s, store, tok, now, life, found);
      && RecoveryWf(t) && s.used <= t.used
      && (r.Ok? ==> tok.id in s.active && tok.id in t.used)
  {
    var (t, _, r) := Completion(s, store, tok, now, life, found);
    if r.Ok? {
      assert RequestWf(s, found.value);
      ConsumedKeepsWf(s, found.value);
    } else if t != s {
      forall k | k in s.requests ensures RequestWf(t, k) {
        assert RequestWf(s, k);
      }
    }
  }

  lemma CancelKeepsWf(s: RecoveryState, found: Option<nat>)
    requires RecoveryWf(s)
    requires found.Some? ==> found.value in s.requests && s.requests[found.value].status == Pending
    ensures RecoveryWf(Cancelling(s, found).0) && Cancelling(s, found).0.used == s.used
  {
    var t := Cancelling(s, found).0;
    forall k | k in s.requests ensures RequestWf(t, k) {
      assert RequestWf(s, k);
    }
  }

  // ---------------------------------------------------------------------------
  // Main properties
  // ---------------------------------------------------------------------------

  /** Completion succeeds exactly when the presented token is still usable, names the
      subject and session it was issued for, carries an expiry in the future, and two token
      ids are left; the search for its pending request cannot come up empty. */
  lemma CompletionSucceedsIff(s: RecoveryState, store: TokenStoreSnapshot, tok: RecoveryToken, now: nat, life: Lifetimes, found: Option<nat>)
    requires RecoveryWf(s) && MayFindPending(s, tok, found)
    ensures Completion(s, store, tok, now, life, found).2.Ok? <==>
      && tok.id in s.active
      && s.tokens[tok.id].subject == tok.subject && s.tokens[tok.id].sessionId == tok.sessionId
      && now < tok.expiresAt
      && store.nextId + 2 <= U64_MAX
  {
    if tok.id in s.active {
      assert RequestWf(s, tok.id - 1);
      if s.tokens[tok.id].subject == tok.subject && s.tokens[tok.id].sessionId == tok.sessionId {
        assert MatchesRequest(s, tok, tok.id - 1);
      }
    }
  }

  /** The life of a token ends with the expiry that is presented, not the one that was issued. */
  lemma PresentedExpiryDecides(s: RecoveryState, store: TokenStoreSnapshot, id: nat, expiresAt: nat, now: nat, life: Lifetimes,
    found: Option<nat>)
    requires RecoveryWf(s) && id in s.active && id in s.tokens
    requires MayFindPending(s, s.tokens[id].(expiresAt := expiresAt), found)
    ensures Completion(s, store, s.tokens[id].(expiresAt := expiresAt), now, life, found).2.Ok?
      <==> now < expiresAt && store.nextId + 2 <= U64_MAX
  {
    assert RequestWf(s, id - 1);
    CompletionSucceedsIff(s, store, s.tokens[id].(expiresAt := expiresAt), now, life, found);
  }

  /** Completion is all-or-nothing across both stores: whatever goes wrong, the token store
      is untouched, and the recovery records change only by dropping an expired token. */
  lemma CompletionAllOrNothing(s: RecoveryState, store: TokenStoreSnapshot, tok: RecoveryToken, now: nat, life: Lifetimes, found: Option<nat>)
    requires RecoveryWf(s) && MayFindPending(s, tok, found)
    ensures var (t, store', r) := Completion(s, store, tok, now, life, found);
      && (r.Err? ==> store' == store)
      && (r.Err? && r.error != TokenExpired ==> t == s)
      && (r == Err(TokenExpired) ==> t == s.(active := s.active - {tok.id}))
      && (r == Err(InternalError) ==> tok.id in t.active && store.nextId + 2 > U64_MAX)
      && (r.Ok? ==> tok.id - 1 in s.requests && t == Consumed(s, tok.id, tok.id - 1))
  {
    if found.Some? {
      assert RequestWf(s, found.value);
    }
  }

  /** After a successful completion the subject has exactly one active access token and
      one active refresh token, the fresh ones; no other subject's tokens have changed. */
  lemma CompletionLeavesOnePair(s: RecoveryState, store: TokenStoreSnapshot, tok: RecoveryToken, now: nat, life: Lifetimes, found: Option<nat>)
    requires RecoveryWf(s) && MayFindPending(s, tok, found) && StoreWf(store)
    requires Completion(s, store, tok, now, life, found).2.Ok?
    ensures var (_, store', r) := Completion(s, store, tok, now, life, found);
      && StoreWf(store')
      && AccessIdsOf(store', tok.subject) == {r.value.access.id}
      && RefreshIdsOf(store', tok.subject) == {r.value.refresh.id}
      && !Issued(store, r.value.access.id) && !Issued(store, r.value.refresh.id)
      && (forall other :: other != tok.subject ==>
            AccessIdsOf(store', other) == AccessIdsOf(store, other)
            && RefreshIdsOf(store', other) == RefreshIdsOf(store, other))
  {
    var swept := RevokedAll(store, tok.subject);
    var store' := Completion(s, store, tok, now, life, found).1;
    RevokedAllKeepsWf(store, tok.subject);
    IssueKeepsWf(swept, tok.subject, now, life);
    IssueAddsOnePair(swept, tok.subject, now, life);
    forall other | other != tok.subject
      ensures AccessIdsOf(store', other) == AccessIdsOf(store, other)
      ensures RefreshIdsOf(store', other) == RefreshIdsOf(store, other)
    {
      assert AccessIdsOf(swept, other) == AccessIdsOf(store, other);
    }
  }

  lemma IssueAddsOnePair(s: TokenStoreSnapshot, subject: Subject, now: nat, life: Lifetimes)
    requires StoreWf(s) && Issue(s, subject, now, life).1.Some?
    ensures var (t, pair) := Issue(s, subject, now, life);
      && AccessIdsOf(t, subject) == AccessIdsOf(s, subject) + {pair.value.access.id}
      && RefreshIdsOf(t, subject) == RefreshIdsOf(s, subject) + {pair.value.refresh.id}
      && forall other :: other != subject ==>
           AccessIdsOf(t, other) == AccessIdsOf(s, other) && RefreshIdsOf(t, other) == RefreshIdsOf(s, other)
  {
    var a, b := s.nextId, s.nextId + 1;
    assert a !in s.activeAccess + s.activeRefresh + s.revoked;
    assert b !in s.activeAccess + s.activeRefresh + s.revoked;
    var t := Issue(s, subject, now, life).0;
    assert forall id {:trigger id in s.subjects} :: id != a && id != b ==>
      (id in t.subjects <==> id in s.subjects) && (id in s.subjects ==> t.subjects[id] == s.subjects[id]);
    forall other | other != subject
      ensures AccessIdsOf(t, other) == AccessIdsOf(s, other)
      ensures RefreshIdsOf(t, other) == RefreshIdsOf(s, other)
    {
      assert forall id :: id in AccessIdsOf(t, other) <==> id in AccessIdsOf(s, other);
      assert forall id :: id in RefreshIdsOf(t, other) <==> id in RefreshIdsOf(s, other);
    }
    assert forall id :: id in AccessIdsOf(t, subject) <==> id in AccessIdsOf(s, subject) + {a};
    assert forall id :: id in RefreshIdsOf(t, subject) <==> id in RefreshIdsOf(s, subject) + {b};
  }

  /** A request is answered with an existing token and nothing is written, whichever
      record the search settles on, exactly when the session has records and every one of
      them is a pending, unexpired request of that subject. A cancelled or expired record
      beside a live one is therefore enough to get a second token issued. */
  lemma RequestIdempotentIff(s: RecoveryState, subject: Subject, sessionId: nat, now: nat, lifetime: nat)
    requires RecoveryWf(s) && ValidRequestInput(subject, sessionId)
    ensures
      (forall found :: MayFindRecord(s, sessionId, found) ==>
         Requested(s, subject, sessionId, now, lifetime, found).0 == s
         && Requested(s, subject, sessionId, now, lifetime, found).1.Ok?)
      <==>
      && (exists k :: k in s.requests && s.requests[k].sessionId == sessionId)
      && (forall k :: k in s.requests && s.requests[k].sessionId == sessionId ==>
           && s.requests[k].subject == subject && s.requests[k].status == Pending
           && now < s.tokens[k + 1].expiresAt)
  {
    if forall found :: MayFindRecord(s, sessionId, found) ==>
         Requested(s, subject, sessionId, now, lifetime, found).0 == s
         && Requested(s, subject, sessionId, now, lifetime, found).1.Ok?
    {
      assert !MayFindRecord(s, sessionId, None);
      forall k | k in s.requests && s.requests[k].sessionId == sessionId
        ensures && s.requests[k].subject == subject && s.requests[k].status == Pending
                && now < s.tokens[k + 1].expiresAt
      {
        assert RequestWf(s, k) && MayFindRecord(s, sessionId, Some(k));
        assert Requested(s, subject, sessionId, now, lifetime, Some(k)).0.nextId == s.nextId;
      }
    } else {
      var found :| MayFindRecord(s, sessionId, found) &&
        !(Requested(s, subject, sessionId, now, lifetime, found).0 == s
          && Requested(s, subject, sessionId, now, lifetime, found).1.Ok?);
      if found.Some? {
        assert RequestWf(s, found.value);
      }
    }
  }

  // ---------------------------------------------------------------------------
  // Runs
  // ---------------------------------------------------------------------------

  /** One call; a completion names the token store it works on, which may be any. */
  datatype Call =
    | CallRequest(subject: Subject, sessionId: nat)
    | CallComplete(tok: RecoveryToken, store: TokenStoreSnapshot)
    | CallCancel(owner: Option<Subject>, target: nat)

  datatype Event = Event(call: Call, now: nat, lifetime: nat, life: Lifetimes, found: Option<nat>)

  ghost predicate Possible(s: RecoveryState, e: Event) {
    match e.call
    case CallRequest(subject, sessionId) => MayFindRecord(s, sessionId, e.found)
    case CallComplete(tok, store) => MayFindPending(s, tok, e.found)
    case CallCancel(owner, target) => MayFindTarget(s, owner, target, e.found)
  }

  ghost function After(s: RecoveryState, e: Event): RecoveryState
    requires Possible(s, e)
  {
    match e.call
    case CallRequest(subject, sessionId) => Requested(s, subject, sessionId, e.now, e.lifetime, e.found).0
    case CallComplete(tok, store) => Completion(s, store, tok, e.now, e.life, e.found).0
    case CallCancel(owner, target) => Cancelling(s, e.found).0
  }

  /** The event is a successful completion with token `id`. */
  ghost predicate Redeems(s: RecoveryState, e: Event, id: nat) {
    && Possible(s, e) && e.call.CallComplete? && e.call.tok.id == id
    && Completion(s, e.call.store, e.call.tok, e.now, e.life, e.found).2.Ok?
  }

  ghost predicate IsRun(states: seq<RecoveryState>, events: seq<Event>) {
    && |states| == |events| + 1
    && states[0] == INITIAL
    && forall i :: 0 <= i < |events| ==> Possible(states[i], events[i]) && states[i + 1] == After(states[i], events[i])
  }

  lemma StepKeepsWf(s: RecoveryState, e: Event)
    requires RecoveryWf(s) && Possible(s, e)
    ensures RecoveryWf(After(s, e)) && s.used <= After(s, e).used
    ensures forall id :: Redeems(s, e, id) ==> id in s.active && id in After(s, e).used
  {
    match e.call
    case CallRequest(subject, sessionId) => RequestKeepsWf(s, subject, sessionId, e.now, e.lifetime, e.found);
    case CallComplete(tok, store) => CompletionKeepsWf(s, store, tok, e.now, e.life, e.found);
    case CallCancel(owner, target) => CancelKeepsWf(s, e.found);
  }

  lemma {:induction false} RunKeepsWf(states: seq<RecoveryState>, events: seq<Event>, i: nat, j: nat)
    requires IsRun(states, events) && i <= j < |states|
    ensures RecoveryWf(states[j]) && states[i].used <= states[j].used
    decreases j
  {
    if j > 0 {
      RunKeepsWf(states, events, if i < j then i else j - 1, j - 1);
      assert Possible(states[j - 1], events[j - 1]) && states[j] == After(states[j - 1], events[j - 1]);
      StepKeepsWf(states[j - 1], events[j - 1]);
    }
  }

  /** In every run, whatever is requested, cancelled or presented and on whatever token
      stores, a recovery token that has been redeemed is never redeemed again. */
  lemma RedeemedAtMostOnce(states: seq<RecoveryState>, events: seq<Event>, i: nat, j: nat, id: nat)
    requires IsRun(states, events) && i < j < |events|
    requires Redeems(states[i], events[i], id)
    ensures !Redeems(states[j], events[j], id)
  {
    RunKeepsWf(states, events, i, i);
    RunKeepsWf(states, events, i + 1, j);
    assert states[i + 1] == After(states[i], events[i]);
    StepKeepsWf(states[i], events[i]);
    if Possible(states[j], events[j]) {
      StepKeepsWf(states[j], events[j]);
    }
  }

  predicate UsableFor(s: RecoveryState, id: nat, sessionId: nat) {
    id in s.active && id in s.tokens && s.tokens[id].sessionId == sessionId
  }

  /** The service after a request for session 7, its cancellation, and `more` further requests. */
  function Requests(more: nat): RecoveryState
    requires more <= 2
  {
    var t2, t4, t6 := RecoveryToken(2, [1], 10, 7), RecoveryToken(4, [1], 10, 7), RecoveryToken(6, [1], 10, 7);
    var r1 := Request(1, [1], 7, Cancelled, 0, 10, Some(t2));
    var r3 := Request(3, [1], 7, Pending, 0, 10, Some(t4));
    var r5 := Request(5, [1], 7, Pending, 0, 10, Some(t6));
    if more == 0 then RecoveryState(map[1 := r1], map[2 := t2], {}, {}, 3)
    else if more == 1 then RecoveryState(map[1 := r1, 3 := r3], map[2 := t2, 4 := t4], {4}, {}, 5)
    else RecoveryState(map[1 := r1, 3 := r3, 5 := r5], map[2 := t2, 4 := t4, 6 := t6], {4, 6}, {}, 7)
  }

  function RequestEvent(found: Option<nat>): Event {
    Event(CallRequest([1], 7), 0, 10, Lifetimes(0, 0), found)
  }

  lemma FirstRequest()
    ensures var first := Requested(INITIAL, [1], 7, 0, 10, None).0;
      && 1 in first.requests && first.requests[1].sessionId == 7 && first.requests[1].status == Pending
      && Cancelling(first, Some(1)).0 == Requests(0)
  {
    var first := Requested(INITIAL, [1], 7, 0, 10, None).0;
    var t2 := RecoveryToken(2, [1], 10, 7);
    assert first == RecoveryState(map[1 := Request(1, [1], 7, Pending, 0, 10, Some(t2))], map[2 := t2], {2}, {}, 3);
  }

  lemma FurtherRequests()
    ensures Requested(Requests(0), [1], 7, 0, 10, Some(1)).0 == Requests(1)
    ensures Requested(Requests(1), [1], 7, 0, 10, Some(1)).0 == Requests(2)
  {}

  /**
   * A run in which a request is not idempotent: after a cancellation the
   * session has two records, and when the search settles on the cancelled one
   * again, a second token becomes usable beside the first.
   */
  lemma TwoTokensForOneSession()
    ensures exists states, events ::
      && IsRun(states, events) && |events| == 4
      && UsableFor(states[4], 4, 7) && UsableFor(states[4], 6, 7)
  {
    var first := Requested(INITIAL, [1], 7, 0, 10, None).0;
    FirstRequest();
    FurtherRequests();
    var cancel := Event(CallCancel(None, 7), 0, 10, Lifetimes(0, 0), Some(1));
    var events := [RequestEvent(None), cancel, RequestEvent(Some(1)), RequestEvent(Some(1))];
    var states := [INITIAL, first, Requests(0), Requests(1), Requests(2)];
    assert IsRun(states, events);
  }

  // ---------------------------------------------------------------------------
  // The mutable service
  // ---------------------------------------------------------------------------

  class RecoveryService {
    var requests: map<nat, Request>
    var tokens: map<nat, RecoveryToken>
    var activeTokens: set<nat>
    var usedTokens: set<nat>
    var nextId: nat
    const tokenLifetimeSecs: nat

    ghost function State(): RecoveryState
      reads this
    {
      RecoveryState(requests, tokens, activeTokens, usedTokens, nextId)
    }

    constructor (lifetime: nat)
      ensures State() == INITIAL && tokenLifetimeSecs == lifetime
    {
      requests, tokens := map[], map[];
      activeTokens, usedTokens, nextId := {}, {}, 1;
      tokenLifetimeSecs := lifetime;
    }

    method NextId() returns (id: Option<nat>)
      modifies this`nextId
      ensures id == if old(nextId) >= U64_MAX then None else Some(old(nextId))
      ensures nextId == if old(nextId) >= U64_MAX then old(nextId) else old(nextId) + 1
    {
      if nextId >= U64_MAX {
        return None;
      }
      id := Some(nextId);
      nextId := nextId + 1;
    }

    method RequestRecovery(subject: Subject, sessionId: nat, now: nat)
      returns (r: Result<RecoveryToken, AuthError>, ghost found: Option<nat>)
      modifies this
      ensures ValidRequestInput(subject, sessionId) ==> MayFindRecord(old(State()), sessionId, found)
      ensures found.Some? ==> found.value in old(State()).requests
      ensures (State(), r) == Requested(old(State()), subject, sessionId, now, tokenLifetimeSecs, found)
    {
      found := None;
      if |subject| == 0 || |subject| > MAX_SUBJECT_LENGTH || sessionId == 0 {
        return Err(ValidationError), None;
      }
      var matching := set k | k in requests && requests[k].sessionId == sessionId;
      if matching != {} {
        var k :| k in matching;
        found := Some(k);
        var req := requests[k];
        if req.subject != subject {
          return Err(ValidationError), found;
        }
        match req.status {
          case Completed => return Err(RecoveryAlreadyCompleted), found;
          case Cancelled =>
          case Pending =>
            if req.token.Some? && req.token.value.expiresAt > now {
              return Ok(req.token.value), found;
            }
        }
      } else {
        assert forall k :: k in requests ==> requests[k].sessionId != sessionId by {
          forall k | k in requests ensures requests[k].sessionId != sessionId {
            assert k !in matching;
          }
        }
      }
      var reqId := NextId();
      if reqId.None? {
        return Err(Panicked), found;
      }
      var tokenId := NextId();
      if tokenId.None? {
        return Err(Panicked), found;
      }
      var token := RecoveryToken(tokenId.value, subject, SaturatingAdd(now, tokenLifetimeSecs), sessionId);
      tokens := tokens[token.id := token];
      activeTokens := activeTokens + {token.id};
      requests := requests[reqId.value :=
        Request(reqId.value, subject, sessionId, Pending, now, token.expiresAt, Some(token))];
      return Ok(tokens[token.id]), found;
    }

    method CompleteRecovery(tok: RecoveryToken, store: TokenStore, now: nat)
      returns (r: Result<TokenPair, AuthError>, ghost found: Option<nat>)
      modifies this, store
      ensures MayFindPending(old(State()), tok, found)
      ensures (State(), store.State(), r)
           == Completion(old(State()), old(store.State()), tok, now, store.life, found)
    {
      var matching := set k | k in requests && requests[k].sessionId == tok.sessionId
        && requests[k].subject == tok.subject && requests[k].status == Pending
        && requests[k].token.Some? && requests[k].token.value.id == tok.id;
      assert forall k :: k in matching <==> MatchesRequest(State(), tok, k);
      found := None;
      if matching != {} {
        ghost var any :| any in matching;
        found := Some(any);
      }
      if tok.id !in activeTokens {
        return Err(if tok.id in usedTokens then TokenAlreadyUsed else RecoveryTokenInvalid), found;
      }
      if tok.id !in tokens {
        return Err(RecoveryTokenInvalid), found;
      }
      var stored := tokens[tok.id];
      if stored.subject != tok.subject || stored.sessionId != tok.sessionId {
        return Err(RecoveryTokenInvalid), found;
      }
      if tok.expiresAt <= now {
        activeTokens := activeTokens - {tok.id};
        return Err(TokenExpired), found;
      }
      if matching == {} {
        return Err(RecoveryTokenInvalid), found;
      }
      var k :| k in matching;
      found := Some(k);

      var statuses := map q | q in requests :: requests[q].status;
      var active, used := activeTokens, usedTokens;
      var tokenSnapshot := store.Snapshot();

      activeTokens := activeTokens - {tok.id};
      usedTokens := usedTokens + {tok.id};
      requests := requests[k := requests[k].(status := Completed)];
      store.RevokeAllForSubject(tok.subject);
      var pair := store.IssuePair(tok.subject, now);
      if pair.None? {
        Restore(active, used, statuses);
        store.Restore(tokenSnapshot);
        assert requests == old(requests);
        return Err(InternalError), found;
      }
      return Ok(pair.value), found;
    }

    /** Puts back the token sets and the recorded status of every request. */
    method Restore(active: set<nat>, used: set<nat>, statuses: map<nat, Status>)
      modifies this`activeTokens, this`usedTokens, this`requests
      ensures activeTokens == active && usedTokens == used
      ensures requests == map q | q in old(requests) ::
        if q in statuses then old(requests)[q].(status := statuses[q]) else old(requests)[q]
    {
      activeTokens, usedTokens := active, used;
      var todo := statuses.Keys;
      ghost var before := requests;
      while todo != {}
        invariant todo <= statuses.Keys
        invariant requests.Keys == before.Keys
        invariant forall q :: q in before ==>
          requests[q] == if q in statuses && q !in todo then before[q].(status := statuses[q]) else before[q]
        invariant activeTokens == active && usedTokens == used
      {
        var q :| q in todo;
        if q in requests {
          requests := requests[q := requests[q].(status := statuses[q])];
        }
        todo := todo - {q};
      }
    }

    method CancelRecovery(owner: Option<Subject>, sessionId: nat)
      returns (r: Result<(), AuthError>, ghost found: Option<nat>)
      modifies this`requests, this`activeTokens
      ensures MayFindTarget(old(State()), owner, sessionId, found)
      ensures (State(), r) == Cancelling(old(State()), found)
    {
      var matching := set k | k in requests && requests[k].sessionId == sessionId
        && (owner.Some? ==> requests[k].subject == owner.value) && requests[k].status == Pending;
      assert forall k :: k in matching <==> CancelTarget(State(), owner, sessionId, k);
      if matching == {} {
        return Err(RecoveryTokenInvalid), None;
      }
      var k :| k in matching;
      var req := requests[k];
      requests := requests[k := req.(status := Cancelled)];
      if req.token.Some? {
        activeTokens := activeTokens - {req.token.value.id};
      }
      return Ok(()), Some(k);
    }
  }
}

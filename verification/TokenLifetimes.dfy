/**
 How long the tokens of a login or a refresh serve.

 In every run, what a call returned keeps working until the stated time after the call's
 clock reading, unless it was revoked in between, and not a second longer.
*/
module TokenLifetimes {
  import opened Wrappers
  import opened Tokens
  import opened Flows

  /** What a sweep over a subject leaves: its refresh ids lose their pairing, and nothing else is forgotten. */
  lemma SweepKeepsBooks(s: TokenStoreSnapshot, subject: Subject)
    ensures var t := RevokedAll(s, subject);
      && t.nextId == s.nextId && t.subjects == s.subjects
      && (forall r :: r in t.paired <==> r in s.paired && !(r in s.activeRefresh && BelongsTo(s, r, subject)))
      && (forall r :: r in t.paired ==> t.paired[r] == s.paired[r])
  {}

  /** Which answer the store gives to any token, by what it holds under the token's id. */
  lemma StoreAnswers(s: TokenStoreSnapshot, access: AccessToken, refresh: RefreshToken, now: nat, life: Lifetimes)
    requires StoreWf(s)
    ensures var v := Verify(s, access, now);
      var active := access.id in s.activeAccess && BelongsTo(s, access.id, access.subject);
      && (v == Ok(access) <==> active && now < access.expiresAt)
      && (v == Err(TokenExpired) <==> active && access.expiresAt <= now)
      && (v == Err(TokenRevoked) <==> access.id in s.revoked)
      && (v == Err(TokenInvalid) <==> !active && access.id !in s.revoked)
    ensures var r := Refreshed(s, refresh, now, life).1;
      var active := refresh.id in s.activeRefresh && BelongsTo(s, refresh.id, refresh.subject);
      && (r.Ok? <==> active && now < refresh.expiresAt && s.nextId + 2 <= U64_MAX)
      && (r == Err(TokenExpired) <==> active && refresh.expiresAt <= now)
      && (r == Err(TokenAlreadyUsed) <==> refresh.id in s.revoked)
      && (r == Err(TokenInvalid) <==> !active && refresh.id !in s.revoked)
      && (r == Err(InternalError) <==> active && now < refresh.expiresAt && s.nextId + 2 > U64_MAX)
  {
    VerifyExactly(s, access, now);
    RefreshAllOrNothing(s, refresh, now, life);
    assert refresh.id in s.activeRefresh ==> refresh.id in s.activeAccess + s.activeRefresh + s.revoked;
  }

  /** The pair a call returns, if it is a login or a refresh that succeeds. */
  function Returned(cfg: Config, s: AuthState, c: Call): Option<TokenPair>
    requires (c.op.OpRefresh? || c.op.OpRefreshFor?) && c.found.Some? ==> c.found.value in s.sessions
  {
    match c.op
    case OpLogin(subject, passwordEmpty, balance) =>
      var r := LoggedIn(cfg, s, subject, passwordEmpty, balance, c.now).1;
      if r.Ok? then Some(r.value.tokens) else None
    case OpRefresh(tok) =>
      var r := RefreshedSession(cfg, s, tok, c.now, c.found).1;
      if r.Ok? then Some(r.value) else None
    case OpRefreshFor(expected, tok) =>
      var r := RefreshedSession(cfg, s, tok, c.now, c.found).1;
      if tok.subject == expected && r.Ok? then Some(r.value) else None
    case _ => None
  }

  predicate BothRevoked(s: AuthState, pair: TokenPair) {
    pair.access.id in s.store.revoked && pair.refresh.id in s.store.revoked
  }

  /** Session `k` holds the pair, or the pair has been revoked. */
  predicate KeepsPair(s: AuthState, k: nat, pair: TokenPair) {
    && k in s.sessions
    && s.sessions[k].subject == pair.access.subject == pair.refresh.subject
    && (s.sessions[k].tokens == pair || BothRevoked(s, pair))
  }

  /** No call takes a session away or brings a revoked id back, and a pair is replaced only by being revoked. */
  predicate SessionStays(s: AuthState, t: AuthState, k: nat)
    requires k in s.sessions
  {
    && k in t.sessions && t.sessions[k].subject == s.sessions[k].subject
    && s.store.revoked <= t.store.revoked
    && (t.sessions[k].tokens == s.sessions[k].tokens || BothRevoked(t, s.sessions[k].tokens))
  }

  lemma LoginStays(cfg: Config, s: AuthState, subject: Subject, passwordEmpty: bool, balance: Option<nat>, now: nat, k: nat)
    requires Coherent(s) && k in s.sessions
    ensures SessionStays(s, LoggedIn(cfg, s, subject, passwordEmpty, balance, now).0, k)
  {
    assert SessionWf(s, k);
  }

  lemma RefreshStays(cfg: Config, s: AuthState, tok: RefreshToken, now: nat, found: Option<nat>, k: nat)
    requires Coherent(s) && MayFind(s, tok, found) && k in s.sessions
    ensures SessionStays(s, RefreshedSession(cfg, s, tok, now, found).0, k)
  {
    var r := RefreshedSession(cfg, s, tok, now, found).1;
    if r.Ok? {
      RefreshSuccessMoves(cfg, s, tok, now, found);
      MovedStore(s, found.value, now, cfg.life);
    } else if r == Err(TokenAlreadyUsed) {
      ReplayOutcome(cfg, s, tok, now, found);
    } else {
      RefreshFailureKeeps(cfg, s, tok, now, found);
    }
  }

  lemma CallStays(cfg: Config, s: AuthState, c: Call, k: nat)
    requires Coherent(s) && Possible(s, c) && k in s.sessions
    ensures SessionStays(s, After(cfg, s, c), k)
  {
    match c.op
    case OpLogin(subject, passwordEmpty, balance) => LoginStays(cfg, s, subject, passwordEmpty, balance, c.now, k);
    case OpRefresh(tok) => RefreshStays(cfg, s, tok, c.now, c.found, k);
    case OpRefreshFor(_, tok) => RefreshStays(cfg, s, tok, c.now, c.found, k);
    case _ => LogoutsStay(cfg, s, c, k);
  }

  lemma LogoutsStay(cfg: Config, s: AuthState, c: Call, k: nat)
    requires k in s.sessions && (c.op.OpLogout? || c.op.OpLogoutFor? || c.op.OpLogoutAll?)
    ensures SessionStays(s, After(cfg, s, c), k)
  {
    match c.op
    case OpLogout(sid) => LogoutStays(s, sid, k);
    case OpLogoutFor(_, sid) => LogoutStays(s, sid, k);
    case OpLogoutAll(subject) => LogoutAllStays(s, subject, k);
  }

  lemma LogoutStays(s: AuthState, sid: nat, k: nat)
    requires k in s.sessions
    ensures SessionStays(s, LoggedOut(s, sid).0, k)
  {}

  lemma LogoutAllStays(s: AuthState, subject: Subject, k: nat)
    requires k in s.sessions
    ensures SessionStays(s, LoggedOutAll(s, subject).0, k)
  {}

  /** A returned pair names its subject, expires the configured times after the call, and is held by a session. */
  lemma ReturnedIsKept(cfg: Config, s: AuthState, c: Call)
    requires Coherent(s) && Possible(s, c) && Returned(cfg, s, c).Some?
    ensures var pair := Returned(cfg, s, c).value;
      && (exists k :: KeepsPair(After(cfg, s, c), k, pair))
      && pair.access.expiresAt == Min(c.now + cfg.life.access, U64_MAX)
      && pair.refresh.expiresAt == Min(c.now + cfg.life.refresh, U64_MAX)
  {
    var pair := Returned(cfg, s, c).value;
    if c.op.OpLogin? {
      assert KeepsPair(After(cfg, s, c), s.nextSessionId, pair);
    } else {
      RefreshSuccessMoves(cfg, s, c.op.tok, c.now, c.found);
      RefreshGuards(cfg, s, c.op.tok, c.now, c.found);
      assert KeepsPair(After(cfg, s, c), c.found.value, pair);
    }
  }

  lemma {:induction false} PairKept(cfg: Config, states: seq<AuthState>, calls: seq<Call>, i: nat, j: nat, k: nat, pair: TokenPair)
    requires IsRun(cfg, states, calls) && i <= j <= |calls| && KeepsPair(states[i], k, pair)
    ensures KeepsPair(states[j], k, pair)
    decreases j
  {
    if i < j {
      PairKept(cfg, states, calls, i, j - 1, k, pair);
      RunStepKeepsPair(cfg, states, calls, j - 1, k, pair);
    }
  }

  lemma RunStepKeepsPair(cfg: Config, states: seq<AuthState>, calls: seq<Call>, n: nat, k: nat, pair: TokenPair)
    requires IsRun(cfg, states, calls) && n < |calls| && KeepsPair(states[n], k, pair)
    ensures KeepsPair(states[n + 1], k, pair)
  {
    RunsCoherent(cfg, states, calls, n);
    assert IsStep(cfg, states, calls, n);
    CallKeepsPair(cfg, states[n], calls[n], k, pair);
  }

  lemma CallKeepsPair(cfg: Config, s: AuthState, c: Call, k: nat, pair: TokenPair)
    requires Coherent(s) && Possible(s, c) && KeepsPair(s, k, pair)
    ensures KeepsPair(After(cfg, s, c), k, pair)
  {
    CallStays(cfg, s, c, k);
    StaysKept(s, After(cfg, s, c), k, pair);
  }

  lemma StaysKept(s: AuthState, t: AuthState, k: nat, pair: TokenPair)
    requires KeepsPair(s, k, pair) && SessionStays(s, t, k)
    ensures KeepsPair(t, k, pair)
  {}

  /** A session that keeps a pair is live with it exactly as long as the pair is not revoked. */
  lemma KeptUntilRevoked(s: AuthState, k: nat, pair: TokenPair)
    requires Coherent(s) && KeepsPair(s, k, pair)
    ensures pair.access.id in s.store.revoked <==> pair.refresh.id in s.store.revoked
    ensures pair.refresh.id !in s.store.revoked ==>
      && Live(s, k) && s.sessions[k].tokens == pair
      && pair.access.id in s.store.activeAccess && pair.refresh.id in s.store.activeRefresh
      && BelongsTo(s.store, pair.access.id, pair.access.subject) && BelongsTo(s.store, pair.refresh.id, pair.refresh.subject)
  {
    assert SessionWf(s, k);
  }

  lemma KeptPairVerifies(s: AuthState, k: nat, pair: TokenPair, t: nat)
    requires Coherent(s) && KeepsPair(s, k, pair)
    ensures Verify(s.store, pair.access, t).Ok? <==> pair.refresh.id !in s.store.revoked && t < pair.access.expiresAt
  {
    KeptUntilRevoked(s, k, pair);
    VerifyExactly(s.store, pair.access, t);
  }

  lemma KeptPairRefreshes(cfg: Config, s: AuthState, k: nat, pair: TokenPair, t: nat, found: Option<nat>)
    requires Coherent(s) && KeepsPair(s, k, pair) && MayFind(s, pair.refresh, found)
    ensures RefreshedSession(cfg, s, pair.refresh, t, found).1.Ok? <==>
      pair.refresh.id !in s.store.revoked && t < pair.refresh.expiresAt && s.store.nextId + 2 <= U64_MAX
    ensures pair.refresh.id !in s.store.revoked && pair.refresh.expiresAt <= t ==>
      RefreshedSession(cfg, s, pair.refresh, t, found).1 == Err(TokenExpired)
  {
    KeptUntilRevoked(s, k, pair);
    RefreshAllOrNothing(s.store, pair.refresh, t, cfg.life);
    if pair.refresh.id !in s.store.revoked {
      FindsTheHolder(s, pair.refresh, found);
      assert found.value == k;
      assert SessionWf(s, k);
    }
  }

  /** Whatever happened since the call that returned a pair, the pair is either revoked as a
      whole, or its access token verifies exactly before `now` plus the access lifetime, and
      its refresh token refreshes, whatever session the search looks at first, exactly before
      `now` plus the refresh lifetime while two ids are left. */
  lemma ReturnedPairServes(cfg: Config, states: seq<AuthState>, calls: seq<Call>, i: nat, j: nat, t: nat, found: Option<nat>)
    requires IsRun(cfg, states, calls) && i < j <= |calls|
    requires Possible(states[i], calls[i]) && Returned(cfg, states[i], calls[i]).Some?
    requires MayFind(states[j], Returned(cfg, states[i], calls[i]).value.refresh, found)
    ensures var pair, now, s := Returned(cfg, states[i], calls[i]).value, calls[i].now, states[j];
      var r := RefreshedSession(cfg, s, pair.refresh, t, found).1;
      && (Verify(s.store, pair.access, t).Ok? <==>
            pair.access.id !in s.store.revoked && t < Min(now + cfg.life.access, U64_MAX))
      && (r.Ok? <==>
            pair.refresh.id !in s.store.revoked && t < Min(now + cfg.life.refresh, U64_MAX) && s.store.nextId + 2 <= U64_MAX)
      && (pair.refresh.id !in s.store.revoked && t >= Min(now + cfg.life.refresh, U64_MAX) ==> r == Err(TokenExpired))
      && (pair.access.id in s.store.revoked <==> pair.refresh.id in s.store.revoked)
  {
    var pair := Returned(cfg, states[i], calls[i]).value;
    RunsCoherent(cfg, states, calls, i);
    RunsCoherent(cfg, states, calls, j);
    ReturnedIsKept(cfg, states[i], calls[i]);
    assert IsStep(cfg, states, calls, i);
    var k :| KeepsPair(states[i + 1], k, pair);
    PairKept(cfg, states, calls, i + 1, j, k, pair);
    KeptUntilRevoked(states[j], k, pair);
    KeptPairVerifies(states[j], k, pair, t);
    KeptPairRefreshes(cfg, states[j], k, pair, t, found);
  }

  predicate HeldBy(s: AuthState, k: nat, pair: TokenPair) {
    Live(s, k) && s.sessions[k].tokens == pair
  }

  /** Right after the call the pair is held by a live session. */
  lemma ReturnedPairHeld(cfg: Config, states: seq<AuthState>, calls: seq<Call>, i: nat)
    requires IsRun(cfg, states, calls) && i < |calls|
    requires Possible(states[i], calls[i]) && Returned(cfg, states[i], calls[i]).Some?
    ensures var t, pair := states[i + 1], Returned(cfg, states[i], calls[i]).value; exists k :: HeldBy(t, k, pair)
  {
    var pair := Returned(cfg, states[i], calls[i]).value;
    RunsCoherent(cfg, states, calls, i);
    RunsCoherent(cfg, states, calls, i + 1);
    assert IsStep(cfg, states, calls, i);
    ReturnedIsKept(cfg, states[i], calls[i]);
    FreshPairNotRevoked(cfg, states[i], calls[i]);
    var k :| KeepsPair(states[i + 1], k, pair);
    KeptUntilRevoked(states[i + 1], k, pair);
    assert HeldBy(states[i + 1], k, pair);
  }

  lemma FreshPairNotRevoked(cfg: Config, s: AuthState, c: Call)
    requires Coherent(s) && Possible(s, c) && Returned(cfg, s, c).Some?
    ensures var pair, t := Returned(cfg, s, c).value, After(cfg, s, c);
      pair.access.id !in t.store.revoked && pair.refresh.id !in t.store.revoked
  {
    FreshIdUnknown(s.store, s.store.nextId);
    FreshIdUnknown(s.store, s.store.nextId + 1);
    if !c.op.OpLogin? {
      RefreshSuccessMoves(cfg, s, c.op.tok, c.now, c.found);
      MovedStore(s, c.found.value, c.now, cfg.life);
      HeldIdsAreIssued(s, c.found.value);
    }
  }

  // ---------------------------------------------------------------------------
  // What ends a session
  // ---------------------------------------------------------------------------

  /** Presented at `now`, the token is the current one of session `k`, or was one of the subject's before. */
  ghost predicate RefreshEnds(s: AuthState, tok: RefreshToken, now: nat, k: nat)
    requires k in s.sessions
  {
    && tok.subject == s.sessions[k].subject
    && if tok.id == s.sessions[k].tokens.refresh.id then now < tok.expiresAt && s.store.nextId + 2 <= U64_MAX
       else tok.id in s.store.revoked && !HoldsRefresh(s, tok.id)
  }

  /** The call takes its tokens from live session `k`. */
  ghost predicate Ends(s: AuthState, c: Call, k: nat)
    requires k in s.sessions
  {
    match c.op
    case OpLogin(_, _, _) => false
    case OpLogout(sid) => sid == k
    case OpLogoutFor(subject, sid) => sid == k && subject == s.sessions[k].subject
    case OpLogoutAll(subject) => subject == s.sessions[k].subject
    case OpRefresh(tok) => RefreshEnds(s, tok, c.now, k)
    case OpRefreshFor(expected, tok) => tok.subject == expected && RefreshEnds(s, tok, c.now, k)
  }

  predicate Stands(s: AuthState, t: AuthState, k: nat)
    requires k in s.sessions
  {
    Live(t, k) && t.sessions[k] == s.sessions[k]
  }

  /** The session the search settles on is the holder of the id, or, when nobody holds it, some live session. */
  lemma RefreshFinds(s: AuthState, tok: RefreshToken, found: Option<nat>, k: nat)
    requires Coherent(s) && MayFind(s, tok, found) && Live(s, k) && s.sessions[k].subject == tok.subject
    ensures tok.subject != [] && found.Some?
    ensures tok.id == s.sessions[k].tokens.refresh.id ==> found.value == k
    ensures !HoldsRefresh(s, tok.id) ==> Live(s, found.value) && s.sessions[found.value].subject == tok.subject
  {
    assert SessionWf(s, k) && k in LiveSessionsOf(s, tok.subject);
  }

  /** A replay is reported exactly for a revoked id that no session holds while the subject has a live session. */
  lemma ReplayReportedIff(cfg: Config, s: AuthState, tok: RefreshToken, now: nat, found: Option<nat>)
    requires Coherent(s) && MayFind(s, tok, found)
    ensures RefreshedSession(cfg, s, tok, now, found).1 == Err(TokenAlreadyUsed) <==>
      tok.id in s.store.revoked && !HoldsRefresh(s, tok.id) && LiveSessionsOf(s, tok.subject) != {}
  {
    RefreshAllOrNothing(s.store, tok, now, cfg.life);
    if found.Some? {
      assert SessionWf(s, found.value);
      if !HoldsRefresh(s, tok.id) {
        RefreshFinds(s, tok, found, found.value);
      }
    }
  }

  /** A refresh succeeds exactly for the unexpired id of a live session of the subject named, with two ids left. */
  lemma RefreshSucceedsIff(cfg: Config, s: AuthState, tok: RefreshToken, now: nat, found: Option<nat>, k: nat)
    requires Coherent(s) && MayFind(s, tok, found) && Live(s, k)
    ensures RefreshedSession(cfg, s, tok, now, found).1.Ok? && found == Some(k) <==>
      && s.sessions[k].tokens.refresh.id == tok.id && s.sessions[k].subject == tok.subject
      && now < tok.expiresAt && s.store.nextId + 2 <= U64_MAX
  {
    RefreshAllOrNothing(s.store, tok, now, cfg.life);
    assert SessionWf(s, k);
    if s.sessions[k].tokens.refresh.id == tok.id && s.sessions[k].subject == tok.subject {
      RefreshFinds(s, tok, found, k);
    }
    if RefreshedSession(cfg, s, tok, now, found).1.Ok? {
      RefreshSuccessMoves(cfg, s, tok, now, found);
    }
  }

  /** A session of the subject, live or superseded. */
  predicate HasSession(s: AuthState, subject: Subject, superseded: bool) {
    exists k :: k in s.sessions && s.sessions[k].subject == subject && s.sessions[k].superseded == superseded
  }

  /** The session holding the id, if there is one; no two do. */
  ghost predicate HeldAs(s: AuthState, id: TokenId, k: nat) {
    k in s.sessions && s.sessions[k].tokens.refresh.id == id
  }

  /** Which refusal a refresh gets when a session holds the presented id. */
  lemma HolderAnswers(cfg: Config, s: AuthState, tok: RefreshToken, now: nat, found: Option<nat>, k: nat)
    requires Coherent(s) && MayFind(s, tok, found) && HeldAs(s, tok.id, k) && tok.subject != []
    ensures found == Some(k)
    ensures RefreshedSession(cfg, s, tok, now, found).1.Err? ==>
      RefreshedSession(cfg, s, tok, now, found).1 == Err(
        if s.sessions[k].superseded then SessionSuperseded
        else if s.sessions[k].subject != tok.subject then ValidationError
        else if tok.expiresAt <= now then TokenExpired
        else InternalError)
  {
    assert HoldsRefresh(s, tok.id) && SessionWf(s, k);
    RefreshAllOrNothing(s.store, tok, now, cfg.life);
  }

  /** And when none does. */
  lemma NoHolderAnswers(cfg: Config, s: AuthState, tok: RefreshToken, now: nat, found: Option<nat>)
    requires Coherent(s) && MayFind(s, tok, found) && !HoldsRefresh(s, tok.id) && tok.subject != []
    ensures RefreshedSession(cfg, s, tok, now, found).1 == Err(
      if HasSession(s, tok.subject, false) then (if tok.id in s.store.revoked then TokenAlreadyUsed else TokenInvalid)
      else if HasSession(s, tok.subject, true) then SessionSuperseded
      else SessionNotFound)
  {
    if HasSession(s, tok.subject, false) {
      var k :| k in s.sessions && s.sessions[k].subject == tok.subject && !s.sessions[k].superseded;
      assert k in LiveSessionsOf(s, tok.subject);
      if tok.id in s.store.activeRefresh {
        FindsTheHolder(s, tok, found);
      }
    }
  }

  /** A token without a subject is refused, and one of another subject than expected. */
  lemma SubjectRefused(cfg: Config, s: AuthState, tok: RefreshToken, now: nat, found: Option<nat>)
    requires tok.subject == [] && (found.Some? ==> found.value in s.sessions)
    ensures RefreshedSession(cfg, s, tok, now, found) == (s, Err(ValidationError))
  {}

  /** Logging out everywhere tells how many sessions that ended, in 32 bits. */
  lemma LogoutAllCounts(s: AuthState, subject: Subject)
    ensures LoggedOutAll(s, subject).1 == Ok(|LiveSessionsOf(s, subject)| % 0x1_0000_0000)
    ensures forall k :: k in LiveSessionsOf(s, subject) <==> Live(s, k) && s.sessions[k].subject == subject
  {}

  lemma MovedStands(s: AuthState, m: nat, now: nat, life: Lifetimes, k: nat)
    requires Coherent(s) && Live(s, m) && Live(s, k)
    ensures Stands(s, Moved(s, m, now, life), k) <==> m != k
  {
    HeldIdsAreIssued(s, k);
  }

  lemma SupersededStands(s: AuthState, t: AuthState, k: nat, ids: set<nat>)
    requires Live(s, k) && t.sessions == Superseded(s.sessions, ids)
    ensures Stands(s, t, k) <==> k !in ids
  {}

  lemma RefreshEndsExactly(cfg: Config, s: AuthState, tok: RefreshToken, now: nat, found: Option<nat>, k: nat)
    requires Coherent(s) && MayFind(s, tok, found) && Live(s, k)
    ensures Stands(s, RefreshedSession(cfg, s, tok, now, found).0, k) <==> !RefreshEnds(s, tok, now, k)
  {
    var (t, r) := RefreshedSession(cfg, s, tok, now, found);
    NotEndedUnless(s, tok, now, k);
    RefreshSucceedsIff(cfg, s, tok, now, found, k);
    ReplayReportedIff(cfg, s, tok, now, found);
    if r.Ok? {
      RefreshSuccessMoves(cfg, s, tok, now, found);
      MovedStands(s, found.value, now, cfg.life, k);
    } else if r == Err(TokenAlreadyUsed) {
      ReplayOutcome(cfg, s, tok, now, found);
      SupersededStands(s, t, k, set q | q in s.sessions && s.sessions[q].subject == tok.subject);
    } else {
      RefreshFailureKeeps(cfg, s, tok, now, found);
    }
  }

  /** The two ways in which a refresh ends a session, by what the store and the sessions hold. */
  lemma NotEndedUnless(s: AuthState, tok: RefreshToken, now: nat, k: nat)
    requires Coherent(s) && Live(s, k)
    ensures s.sessions[k].subject == tok.subject ==> LiveSessionsOf(s, tok.subject) != {}
    ensures s.sessions[k].tokens.refresh.id == tok.id ==> HoldsRefresh(s, tok.id) && tok.id !in s.store.revoked
    ensures HoldsRefresh(s, tok.id) && tok.id in s.store.activeRefresh && s.sessions[k].tokens.refresh.id != tok.id ==>
      !RefreshEnds(s, tok, now, k)
  {
    assert SessionWf(s, k);
    if s.sessions[k].subject == tok.subject {
      assert k in LiveSessionsOf(s, tok.subject);
    }
  }

  /** Every call leaves a live session exactly as it was, unless it is one of those that end or renew it. */
  lemma CallEndsExactly(cfg: Config, s: AuthState, c: Call, k: nat)
    requires Coherent(s) && Possible(s, c) && Live(s, k)
    ensures Stands(s, After(cfg, s, c), k) <==> !Ends(s, c, k)
  {
    match c.op
    case OpLogin(subject, passwordEmpty, balance) => LoginStands(cfg, s, subject, passwordEmpty, balance, c.now, k);
    case OpRefresh(tok) => RefreshEndsExactly(cfg, s, tok, c.now, c.found, k);
    case OpRefreshFor(_, tok) => RefreshEndsExactly(cfg, s, tok, c.now, c.found, k);
    case _ => LogoutsEndExactly(cfg, s, c, k);
  }

  lemma LogoutsEndExactly(cfg: Config, s: AuthState, c: Call, k: nat)
    requires (c.op.OpLogout? || c.op.OpLogoutFor? || c.op.OpLogoutAll?) && Live(s, k)
    ensures Stands(s, After(cfg, s, c), k) <==> !Ends(s, c, k)
  {
    match c.op
    case OpLogout(sid) => LogoutStands(s, sid, k);
    case OpLogoutFor(_, sid) => LogoutStands(s, sid, k);
    case OpLogoutAll(subject) => SupersededStands(s, LoggedOutAll(s, subject).0, k, LiveSessionsOf(s, subject));
  }

  lemma LogoutStands(s: AuthState, sid: nat, k: nat)
    requires Live(s, k)
    ensures Stands(s, LoggedOut(s, sid).0, k) <==> sid != k
  {}

  lemma LoginStands(cfg: Config, s: AuthState, subject: Subject, passwordEmpty: bool, balance: Option<nat>, now: nat, k: nat)
    requires Coherent(s) && Live(s, k)
    ensures Stands(s, LoggedIn(cfg, s, subject, passwordEmpty, balance, now).0, k)
  {
    assert SessionWf(s, k);
  }

  /** Until a call ends it, a live session stays as it is. */
  lemma {:induction false} StandsUntilEnded(cfg: Config, states: seq<AuthState>, calls: seq<Call>, i: nat, j: nat, k: nat)
    requires IsRun(cfg, states, calls) && i <= j <= |calls| && Live(states[i], k)
    requires forall n :: i <= n < j ==> k in states[n].sessions && !Ends(states[n], calls[n], k)
    ensures Stands(states[i], states[j], k)
    decreases j
  {
    if i < j {
      StandsUntilEnded(cfg, states, calls, i, j - 1, k);
      RunStepStands(cfg, states, calls, j - 1, k);
    }
  }

  lemma RunStepStands(cfg: Config, states: seq<AuthState>, calls: seq<Call>, n: nat, k: nat)
    requires IsRun(cfg, states, calls) && n < |calls| && Live(states[n], k) && !Ends(states[n], calls[n], k)
    ensures Stands(states[n], states[n + 1], k)
  {
    RunsCoherent(cfg, states, calls, n);
    assert IsStep(cfg, states, calls, n);
    CallEndsExactly(cfg, states[n], calls[n], k);
  }

  /** In every run, as long as no call has ended the session of a returned pair, its access
      token verifies and its refresh token refreshes until the configured times are over. */
  lemma ServesUntilEnded(cfg: Config, states: seq<AuthState>, calls: seq<Call>, i: nat, j: nat, k: nat, t: nat, found: Option<nat>)
    requires IsRun(cfg, states, calls) && i < j <= |calls|
    requires Possible(states[i], calls[i]) && Returned(cfg, states[i], calls[i]).Some?
    requires HeldBy(states[i + 1], k, Returned(cfg, states[i], calls[i]).value)
    requires forall n :: i < n < j ==> k in states[n].sessions && !Ends(states[n], calls[n], k)
    requires MayFind(states[j], Returned(cfg, states[i], calls[i]).value.refresh, found)
    ensures var pair, now, s := Returned(cfg, states[i], calls[i]).value, calls[i].now, states[j];
      && (Verify(s.store, pair.access, t).Ok? <==> t < Min(now + cfg.life.access, U64_MAX))
      && (RefreshedSession(cfg, s, pair.refresh, t, found).1.Ok?
          <==> t < Min(now + cfg.life.refresh, U64_MAX) && s.store.nextId + 2 <= U64_MAX)
  {
    StandsUntilEnded(cfg, states, calls, i + 1, j, k);
    ReturnedPairServes(cfg, states, calls, i, j, t, found);
    RunsCoherent(cfg, states, calls, j);
    LiveNotRevoked(states[j], k);
  }

  lemma LiveNotRevoked(s: AuthState, k: nat)
    requires Coherent(s) && Live(s, k)
    ensures s.sessions[k].tokens.refresh.id !in s.store.revoked && s.sessions[k].tokens.access.id !in s.store.revoked
  {
    assert SessionWf(s, k);
  }
}

/**
 Sign-in, logout and refresh over sessions and a token store.

 Two structures are maintained separately: the sessions, each holding a token pair, and
 the store's sets of active ids. `Coherent` says that they agree; the main theorem is that
 every run keeps them in agreement, whatever tokens are presented.
*/
module Flows {
  import opened Wrappers
  import opened Tokens
  import Amounts

  datatype Session = Session(
    id: nat,
    subject: Subject,
    createdAt: nat,
    lastActivityAt: nat,
    tokens: TokenPair,
    superseded: bool)

  datatype Attempts = Attempts(count: nat, lockedUntil: Option<nat>)

  datatype Config = Config(maxLoginAttempts: nat, lockoutSecs: nat, life: Lifetimes)

  datatype AuthState = AuthState(
    store: TokenStoreSnapshot,
    sessions: map<nat, Session>,
    nextSessionId: nat,
    attempts: map<Subject, Attempts>)

  const INITIAL := AuthState(EMPTY_STORE, map[], 1, map[])

  const U32_MAX: nat := 0xFFFF_FFFF

  // ---------------------------------------------------------------------------
  // What each operation does
  // ---------------------------------------------------------------------------

  function AttemptsOf(s: AuthState, subject: Subject): Option<Attempts> {
    if subject in s.attempts then Some(s.attempts[subject]) else None
  }

  /** The lockout decision taken before credentials are looked at: the subject's new
      record, and the error if the attempt is turned away. */
  function Gate(cfg: Config, record: Option<Attempts>, now: nat): (Attempts, Option<AuthError>) {
    if record.None? then (Attempts(0, None), None)
    else
      var a := record.value;
      match a.lockedUntil
      case Some(until) =>
        if now < until then (a, Some(AccountLocked(until - now)))
        else (Attempts(0, None), None)
      case None =>
        if a.count >= cfg.maxLoginAttempts then
          (Attempts(a.count, Some(SaturatingAdd(now, cfg.lockoutSecs))), Some(AccountLocked(cfg.lockoutSecs)))
        else (a, None)
  }

  function RecordFailure(a: Attempts): Attempts {
    a.(count := Min(a.count + 1, U32_MAX))
  }

  predicate ValidLoginInput(subject: Subject, balance: Option<nat>) {
    && 1 <= |subject| <= MAX_SUBJECT_LENGTH
    && (balance.Some? ==> Amounts.New(balance.value).Ok?)
  }

  function InputError(subject: Subject): AuthError {
    if 1 <= |subject| <= MAX_SUBJECT_LENGTH then AmountValidationFailed else ValidationError
  }

  function WithSession(s: AuthState, subject: Subject, pair: TokenPair, now: nat): AuthState {
    s.(sessions := s.sessions[s.nextSessionId := Session(s.nextSessionId, subject, now, now, pair, false)],
       nextSessionId := s.nextSessionId + 1)
  }

  function LoggedIn(cfg: Config, s: AuthState, subject: Subject, passwordEmpty: bool, balance: Option<nat>, now: nat):
    (AuthState, Result<Session, AuthError>)
  {
    if !ValidLoginInput(subject, balance) then (s, Err(InputError(subject)))
    else
      var (a, locked) := Gate(cfg, AttemptsOf(s, subject), now);
      if locked.Some? then (s.(attempts := s.attempts[subject := a]), Err(locked.value))
      else if passwordEmpty then
        (s.(attempts := s.attempts[subject := RecordFailure(a)]), Err(InvalidCredentials))
      else
        var (store, pair) := Issue(s.store, subject, now, cfg.life);
        var s1 := s.(attempts := s.attempts[subject := Attempts(0, None)], store := store);
        if pair.None? || s.nextSessionId >= U64_MAX then (s1, Err(Panicked))
        else
          var s2 := WithSession(s1, subject, pair.value, now);
          (s2, Ok(s2.sessions[s.nextSessionId]))
  }

  function Superseded(sessions: map<nat, Session>, ids: set<nat>): map<nat, Session> {
    map k | k in sessions :: if k in ids then sessions[k].(superseded := true) else sessions[k]
  }

  function LoggedOut(s: AuthState, sid: nat): (AuthState, Result<(), AuthError>) {
    if sid !in s.sessions then (s, Err(SessionNotFound))
    else
      var pair := s.sessions[sid].tokens;
      (s.(store := Revoked(Revoked(s.store, pair.access.id), pair.refresh.id),
          sessions := Superseded(s.sessions, {sid})), Ok(()))
  }

  function LoggedOutFor(s: AuthState, subject: Subject, sid: nat): (AuthState, Result<(), AuthError>) {
    if sid !in s.sessions then (s, Err(SessionNotFound))
    else if s.sessions[sid].subject != subject then (s, Err(ValidationError))
    else LoggedOut(s, sid)
  }

  function LiveSessionsOf(s: AuthState, subject: Subject): set<nat> {
    set k | k in s.sessions && s.sessions[k].subject == subject && !s.sessions[k].superseded
  }

  function TokenIdsOf(sessions: map<nat, Session>, ids: set<nat>): set<TokenId>
    requires ids <= sessions.Keys
  {
    (set k | k in ids :: sessions[k].tokens.access.id) + (set k | k in ids :: sessions[k].tokens.refresh.id)
  }

  function RevokedMany(store: TokenStoreSnapshot, ids: set<TokenId>): TokenStoreSnapshot {
    store.(activeAccess := store.activeAccess - ids,
           activeRefresh := store.activeRefresh - ids,
           revoked := store.revoked + ids)
  }

  function LoggedOutAll(s: AuthState, subject: Subject): (AuthState, Result<nat, AuthError>) {
    var ids := LiveSessionsOf(s, subject);
    (s.(store := RevokedAll(RevokedMany(s.store, TokenIdsOf(s.sessions, ids)), subject),
        sessions := Superseded(s.sessions, ids)),
     Ok(|ids| % (U32_MAX + 1)))
  }

  /** The session a refresh may settle on: one holding the presented id if there is one,
      else any live session of the presented subject. Iteration over a hash map picks
      among several in no particular order. */
  ghost predicate MayFind(s: AuthState, tok: RefreshToken, found: Option<nat>) {
    match found
    case Some(sid) =>
      && sid in s.sessions
      && (s.sessions[sid].tokens.refresh.id == tok.id
          || (!HoldsRefresh(s, tok.id) && sid in LiveSessionsOf(s, tok.subject)))
    case None => !HoldsRefresh(s, tok.id) && LiveSessionsOf(s, tok.subject) == {}
  }

  ghost predicate HoldsRefresh(s: AuthState, id: TokenId) {
    exists k :: k in s.sessions && s.sessions[k].tokens.refresh.id == id
  }

  function RefreshedSession(cfg: Config, s: AuthState, tok: RefreshToken, now: nat, found: Option<nat>):
    (AuthState, Result<TokenPair, AuthError>)
    requires found.Some? ==> found.value in s.sessions
  {
    if tok.subject == [] then (s, Err(ValidationError))
    else if found.None? then
      (s, Err(if exists k :: k in s.sessions && s.sessions[k].subject == tok.subject && s.sessions[k].superseded
              then SessionSuperseded else SessionNotFound))
    else
      var session := s.sessions[found.value];
      if session.superseded then (s, Err(SessionSuperseded))
      else if session.subject != tok.subject then (s, Err(ValidationError))
      else
        var (store, r) := Refreshed(s.store, tok, now, cfg.life);
        match r
        case Ok(pair) =>
          (s.(store := store,
              sessions := s.sessions[found.value := session.(tokens := pair, lastActivityAt := now)]), r)
        case Err(e) =>
          if e == TokenAlreadyUsed then
            (s.(store := store,
                sessions := Superseded(s.sessions, set k | k in s.sessions && s.sessions[k].subject == tok.subject)), r)
          else (s.(store := store), r)
  }

  // ---------------------------------------------------------------------------
  // Agreement of sessions and store
  // ---------------------------------------------------------------------------

  predicate Live(s: AuthState, k: nat) {
    k in s.sessions && !s.sessions[k].superseded
  }

  ghost predicate HeldAccess(s: AuthState, id: TokenId) {
    exists k :: Live(s, k) && s.sessions[k].tokens.access.id == id
  }

  ghost predicate HeldRefresh(s: AuthState, id: TokenId) {
    exists k :: Live(s, k) && s.sessions[k].tokens.refresh.id == id
  }

  ghost predicate SessionWf(s: AuthState, k: nat)
    requires k in s.sessions
  {
    var x := s.sessions[k];
    var a, r := x.tokens.access.id, x.tokens.refresh.id;
    && x.id == k && 1 <= k < s.nextSessionId && x.subject != []
    && BelongsTo(s.store, a, x.subject) && BelongsTo(s.store, r, x.subject)
    && (if x.superseded then a in s.store.revoked && r in s.store.revoked
        else a in s.store.activeAccess && r in s.store.activeRefresh
             && r in s.store.paired && s.store.paired[r] == a)
  }

  /** No two sessions hold the same access id or the same refresh id. */
  ghost predicate OneSessionPerId(s: AuthState) {
    forall j, k :: j in s.sessions && k in s.sessions && j != k ==>
      && s.sessions[j].tokens.access.id != s.sessions[k].tokens.access.id
      && s.sessions[j].tokens.refresh.id != s.sessions[k].tokens.refresh.id
  }

  /** Every active id is held by some live session. */
  ghost predicate Covered(s: AuthState) {
    && (forall id :: id in s.store.activeAccess ==> HeldAccess(s, id))
    && (forall id :: id in s.store.activeRefresh ==> HeldRefresh(s, id))
  }

  /** Sessions and store agree. */
  ghost predicate Coherent(s: AuthState) {
    && StoreWf(s.store)
    && 1 <= s.nextSessionId <= U64_MAX
    && (forall k :: k in s.sessions ==> SessionWf(s, k))
    && OneSessionPerId(s)
    && Covered(s)
  }

  /** What agreement means: the active access (refresh) ids are exactly the access
      (refresh) ids held by live sessions, each by one session only, and every issued id is
      in exactly one of the three sets. */
  lemma CoherentMeans(s: AuthState)
    requires Coherent(s)
    ensures forall id :: id in s.store.activeAccess <==> HeldAccess(s, id)
    ensures forall id :: id in s.store.activeRefresh <==> HeldRefresh(s, id)
    ensures forall j, k :: Live(s, j) && Live(s, k) && j != k ==>
      {s.sessions[j].tokens.access.id, s.sessions[j].tokens.refresh.id}
      !! {s.sessions[k].tokens.access.id, s.sessions[k].tokens.refresh.id}
    ensures forall id :: Issued(s.store, id) ==>
      && (id in s.store.activeAccess || id in s.store.activeRefresh || id in s.store.revoked)
      && !(id in s.store.activeAccess && id in s.store.activeRefresh)
      && !(id in s.store.activeAccess && id in s.store.revoked)
      && !(id in s.store.activeRefresh && id in s.store.revoked)
  {
    forall id | HeldAccess(s, id) ensures id in s.store.activeAccess {
      var k :| Live(s, k) && s.sessions[k].tokens.access.id == id;
      assert SessionWf(s, k);
    }
    forall id | HeldRefresh(s, id) ensures id in s.store.activeRefresh {
      var k :| Live(s, k) && s.sessions[k].tokens.refresh.id == id;
      assert SessionWf(s, k);
    }
    forall j, k | Live(s, j) && Live(s, k) && j != k
      ensures {s.sessions[j].tokens.access.id, s.sessions[j].tokens.refresh.id}
           !! {s.sessions[k].tokens.access.id, s.sessions[k].tokens.refresh.id}
    {
      assert SessionWf(s, j) && SessionWf(s, k);
    }
    forall id | Issued(s.store, id)
      ensures id in s.store.activeAccess || id in s.store.activeRefresh || id in s.store.revoked
    {
      assert id in s.store.activeAccess + s.store.activeRefresh + s.store.revoked;
    }
  }

  ghost predicate HoldsAccess(s: AuthState, k: nat, id: TokenId, subject: Subject) {
    Live(s, k) && s.sessions[k].tokens.access.id == id && s.sessions[k].subject == subject
  }

  /** Under agreement a token verifies exactly when it is unexpired and its id is the access
      id of a live session of the subject it names. */
  lemma VerifiesIffLive(s: AuthState, tok: AccessToken, now: nat)
    requires Coherent(s)
    ensures Verify(s.store, tok, now).Ok? <==> now < tok.expiresAt && exists k :: HoldsAccess(s, k, tok.id, tok.subject)
  {
    VerifyExactly(s.store, tok, now);
    if HeldAccess(s, tok.id) {
      var k :| Live(s, k) && s.sessions[k].tokens.access.id == tok.id;
      assert SessionWf(s, k);
      assert HoldsAccess(s, k, tok.id, s.store.subjects[tok.id]);
    }
    forall k | HoldsAccess(s, k, tok.id, tok.subject)
      ensures tok.id in s.store.activeAccess && s.store.subjects[tok.id] == tok.subject
    {
      assert SessionWf(s, k);
    }
  }

  /** Every issued id is in one of the sets, so a fresh id is in none of them. */
  lemma FreshIdUnknown(s: TokenStoreSnapshot, id: TokenId)
    requires StoreWf(s) && id >= s.nextId
    ensures id !in s.activeAccess && id !in s.activeRefresh && id !in s.revoked && id !in s.subjects
  {
    assert id !in s.activeAccess + s.activeRefresh + s.revoked;
  }

  /** Same sessions and same store: the rest of the state does not matter. */
  lemma CoherentFrame(s: AuthState, t: AuthState)
    requires Coherent(s) && t.store == s.store && t.sessions == s.sessions && t.nextSessionId == s.nextSessionId
    ensures Coherent(t)
  {
    assert forall k :: k in t.sessions ==> SessionWf(s, k);
    forall id { KeepHeld(s, t, id); }
  }

  /** Adding a session under a fresh session id, holding two fresh token ids. */
  lemma AddSessionWf(s: AuthState, t: AuthState, subject: Subject, pair: TokenPair, now: nat)
    requires Coherent(s) && subject != [] && s.nextSessionId < U64_MAX && s.store.nextId + 2 <= U64_MAX
    requires pair.access.id == s.store.nextId && pair.refresh.id == s.store.nextId + 1
    requires t == WithSession(
      s.(store := WithRefresh(WithAccess(s.store, subject), subject, s.store.nextId)), subject, pair, now)
    ensures s.nextSessionId !in s.sessions
    ensures forall k :: k in t.sessions ==> SessionWf(t, k)
    ensures OneSessionPerId(t)
  {
    var n := s.nextSessionId;
    FreshIdUnknown(s.store, s.store.nextId);
    FreshIdUnknown(s.store, s.store.nextId + 1);
    forall k | k in s.sessions
      ensures k != n && SessionWf(t, k)
      ensures s.sessions[k].tokens.access.id < s.store.nextId && s.sessions[k].tokens.refresh.id < s.store.nextId
    {
      assert SessionWf(s, k);
    }
    assert SessionWf(t, n);
  }

  lemma AddSessionCoherent(cfg: Config, s: AuthState, subject: Subject, now: nat)
    requires Coherent(s) && subject != []
    requires Issue(s.store, subject, now, cfg.life).1.Some? && s.nextSessionId < U64_MAX
    ensures var (store, pair) := Issue(s.store, subject, now, cfg.life);
      Coherent(WithSession(s.(store := store), subject, pair.value, now))
  {
    var (store, pair) := Issue(s.store, subject, now, cfg.life);
    var t := WithSession(s.(store := store), subject, pair.value, now);
    IssueKeepsWf(s.store, subject, now, cfg.life);
    AddSessionWf(s, t, subject, pair.value, now);
    assert Live(t, s.nextSessionId);
    forall id | id in t.store.activeAccess ensures HeldAccess(t, id) {
      KeepHeld(s, t, id);
    }
    forall id | id in t.store.activeRefresh ensures HeldRefresh(t, id) {
      KeepHeld(s, t, id);
    }
  }

  /** Ids held before are held after when no session was changed. */
  lemma KeepHeld(s: AuthState, t: AuthState, id: TokenId)
    requires forall k :: k in s.sessions ==> k in t.sessions && t.sessions[k] == s.sessions[k]
    ensures HeldAccess(s, id) ==> HeldAccess(t, id)
    ensures HeldRefresh(s, id) ==> HeldRefresh(t, id)
  {
    if HeldAccess(s, id) {
      var k :| Live(s, k) && s.sessions[k].tokens.access.id == id;
      assert Live(t, k);
    }
    if HeldRefresh(s, id) {
      var k :| Live(s, k) && s.sessions[k].tokens.refresh.id == id;
      assert Live(t, k);
    }
  }

  /** When the panic strikes after the access id was recorded, that id is active but no
      session holds it. */
  predicate LeavesOrphan(cfg: Config, s: AuthState, subject: Subject, passwordEmpty: bool, balance: Option<nat>, now: nat) {
    && ValidLoginInput(subject, balance)
    && Gate(cfg, AttemptsOf(s, subject), now).1.None?
    && !passwordEmpty
    && s.store.nextId < U64_MAX
    && (s.store.nextId + 1 == U64_MAX || s.nextSessionId == U64_MAX)
  }

  /** Login keeps sessions and store in agreement, except exactly when an id counter
      overflows after the first token id has been handed out. */
  lemma LoginCoherentIff(cfg: Config, s: AuthState, subject: Subject, passwordEmpty: bool, balance: Option<nat>, now: nat)
    requires Coherent(s)
    ensures Coherent(LoggedIn(cfg, s, subject, passwordEmpty, balance, now).0)
      <==> !LeavesOrphan(cfg, s, subject, passwordEmpty, balance, now)
    ensures LeavesOrphan(cfg, s, subject, passwordEmpty, balance, now)
      ==> LoggedIn(cfg, s, subject, passwordEmpty, balance, now).1 == Err(Panicked)
  {
    var (t, r) := LoggedIn(cfg, s, subject, passwordEmpty, balance, now);
    if LeavesOrphan(cfg, s, subject, passwordEmpty, balance, now) {
      var a := s.store.nextId;
      assert a in t.store.activeAccess;
      FreshIdUnknown(s.store, a);
      forall k | Live(t, k) ensures t.sessions[k].tokens.access.id != a {
        assert SessionWf(s, k);
      }
      assert !HeldAccess(t, a);
    } else if ValidLoginInput(subject, balance) && Gate(cfg, AttemptsOf(s, subject), now).1.None?
           && !passwordEmpty && s.store.nextId < U64_MAX {
      var s1 := s.(attempts := s.attempts[subject := Attempts(0, None)]);
      CoherentFrame(s, s1);
      AddSessionCoherent(cfg, s1, subject, now);
    } else {
      CoherentFrame(s, t);
    }
  }

  /** No session, and every token id but the last one issued and revoked. */
  function AlmostExhausted(): AuthState {
    var store := EMPTY_STORE.(nextId := U64_MAX - 1);
    var ids := set id: TokenId | 1 <= id < U64_MAX - 1 && Issued(store, id);
    INITIAL.(store := store.(revoked := ids, subjects := map id | id in ids :: [1]))
  }

  /** Sessions and store may agree and the next login break the agreement. */
  lemma LoginMayLeaveOrphan(cfg: Config, now: nat)
    ensures var s := AlmostExhausted();
      && Coherent(s) && LeavesOrphan(cfg, s, [1], false, None, now)
      && !Coherent(LoggedIn(cfg, s, [1], false, None, now).0)
  {
    var s := AlmostExhausted();
    assert forall id :: id in s.store.activeAccess + s.store.activeRefresh + s.store.revoked <==> id in s.store.revoked;
    LoginCoherentIff(cfg, s, [1], false, None, now);
  }

  /** Superseding a set of sessions while revoking exactly their ids keeps agreement. */
  lemma SupersedeCoherent(s: AuthState, ids: set<nat>, store: TokenStoreSnapshot)
    requires Coherent(s) && ids <= s.sessions.Keys
    requires store.nextId == s.store.nextId && store.subjects == s.store.subjects
    requires forall r :: r in store.activeRefresh && r in s.store.paired ==>
      r in store.paired && store.paired[r] == s.store.paired[r]
    requires var gone := TokenIdsOf(s.sessions, ids);
      && store.activeAccess == s.store.activeAccess - gone
      && store.activeRefresh == s.store.activeRefresh - gone
      && store.revoked == s.store.revoked + gone
    ensures Coherent(s.(store := store, sessions := Superseded(s.sessions, ids)))
  {
    var t := s.(store := store, sessions := Superseded(s.sessions, ids));
    var gone := TokenIdsOf(s.sessions, ids);
    forall id | id in gone ensures Issued(s.store, id) && id in s.store.subjects {
      var k :| k in ids && (s.sessions[k].tokens.access.id == id || s.sessions[k].tokens.refresh.id == id);
      assert SessionWf(s, k);
    }
    assert store.activeAccess + store.activeRefresh + store.revoked
        == s.store.activeAccess + s.store.activeRefresh + s.store.revoked + gone;
    forall k | k in t.sessions ensures SessionWf(t, k) {
      LiveIdsKept(s, ids, k);
      assert SessionWf(s, k);
    }
    forall id | id in t.store.activeAccess ensures HeldAccess(t, id) {
      var k :| Live(s, k) && s.sessions[k].tokens.access.id == id;
      assert Live(t, k);
    }
    forall id | id in t.store.activeRefresh ensures HeldRefresh(t, id) {
      var k :| Live(s, k) && s.sessions[k].tokens.refresh.id == id;
      assert Live(t, k);
    }
  }

  /** A live session's ids are not among the ids of a set of other sessions. */
  lemma LiveIdsKept(s: AuthState, ids: set<nat>, k: nat)
    requires Coherent(s) && ids <= s.sessions.Keys && k in s.sessions
    ensures k !in ids && Live(s, k) ==>
      && s.sessions[k].tokens.access.id !in TokenIdsOf(s.sessions, ids)
      && s.sessions[k].tokens.refresh.id !in TokenIdsOf(s.sessions, ids)
  {
    if k !in ids && Live(s, k) {
      forall j | j in ids
        ensures s.sessions[j].tokens.access.id != s.sessions[k].tokens.refresh.id
        ensures s.sessions[j].tokens.refresh.id != s.sessions[k].tokens.access.id
        ensures s.sessions[j].tokens.access.id != s.sessions[k].tokens.access.id
        ensures s.sessions[j].tokens.refresh.id != s.sessions[k].tokens.refresh.id
      {
        assert SessionWf(s, j) && SessionWf(s, k);
      }
    }
  }

  lemma LogoutCoherent(s: AuthState, sid: nat)
    requires Coherent(s)
    ensures Coherent(LoggedOut(s, sid).0)
  {
    if sid in s.sessions {
      var pair := s.sessions[sid].tokens;
      var store := Revoked(Revoked(s.store, pair.access.id), pair.refresh.id);
      assert TokenIdsOf(s.sessions, {sid}) == {pair.access.id, pair.refresh.id};
      SupersedeCoherent(s, {sid}, store);
    }
  }

  /** Under agreement, the active ids of a subject are those of its live sessions. */
  lemma ActiveIdsOfSubject(s: AuthState, subject: Subject)
    requires Coherent(s)
    ensures AccessIdsOf(s.store, subject) + RefreshIdsOf(s.store, subject)
         == TokenIdsOf(s.sessions, LiveSessionsOf(s, subject))
  {
    var ids := LiveSessionsOf(s, subject);
    forall id ensures id in AccessIdsOf(s.store, subject) + RefreshIdsOf(s.store, subject)
                 <==> id in TokenIdsOf(s.sessions, ids)
    {
      if id in AccessIdsOf(s.store, subject) {
        assert HeldAccess(s, id);
        var k :| Live(s, k) && s.sessions[k].tokens.access.id == id;
        assert SessionWf(s, k) && k in ids;
      }
      if id in RefreshIdsOf(s.store, subject) {
        assert HeldRefresh(s, id);
        var k :| Live(s, k) && s.sessions[k].tokens.refresh.id == id;
        assert SessionWf(s, k) && k in ids;
      }
      if id in TokenIdsOf(s.sessions, ids) {
        var k :| k in ids && (s.sessions[k].tokens.access.id == id || s.sessions[k].tokens.refresh.id == id);
        assert SessionWf(s, k);
      }
    }
  }

  /** Revoking every active id of the subject is revoking the ids of its live sessions:
      the sets of active and revoked ids come out the same either way. */
  lemma RevokedAllIsRevokedMany(s: AuthState, subject: Subject)
    requires Coherent(s)
    ensures var gone := TokenIdsOf(s.sessions, LiveSessionsOf(s, subject));
      var t := RevokedAll(s.store, subject);
      && t.activeAccess == s.store.activeAccess - gone
      && t.activeRefresh == s.store.activeRefresh - gone
      && t.revoked == s.store.revoked + gone
  {
    ActiveIdsOfSubject(s, subject);
    var t := RevokedAll(s.store, subject);
    var gone := TokenIdsOf(s.sessions, LiveSessionsOf(s, subject));
    forall id ensures id in t.activeAccess <==> id in s.store.activeAccess - gone {}
    forall id ensures id in t.activeRefresh <==> id in s.store.activeRefresh - gone {}
  }

  /** Once the ids of the subject's live sessions are revoked, no active id of the subject
      is left, so the sweep over the subject that follows finds nothing. */
  lemma SweepFindsNothing(s: AuthState, subject: Subject)
    requires Coherent(s)
    ensures var many := RevokedMany(s.store, TokenIdsOf(s.sessions, LiveSessionsOf(s, subject)));
      && AccessIdsOf(many, subject) == {}
      && RefreshIdsOf(many, subject) == {}
      && RevokedAll(many, subject) == many
  {
    ActiveIdsOfSubject(s, subject);
    var many := RevokedMany(s.store, TokenIdsOf(s.sessions, LiveSessionsOf(s, subject)));
    assert forall id :: id in AccessIdsOf(many, subject) ==> id in AccessIdsOf(s.store, subject);
    assert forall id :: id in RefreshIdsOf(many, subject) ==> id in RefreshIdsOf(s.store, subject);
    EmptySweep(many, subject);
  }

  lemma EmptySweep(store: TokenStoreSnapshot, subject: Subject)
    requires AccessIdsOf(store, subject) == {} && RefreshIdsOf(store, subject) == {}
    ensures RevokedAll(store, subject) == store
  {}

  /** Logging out everywhere keeps agreement and leaves the subject without a live session
      and without an active id. */
  lemma LogoutAllCoherent(s: AuthState, subject: Subject)
    requires Coherent(s)
    ensures Coherent(LoggedOutAll(s, subject).0)
    ensures LiveSessionsOf(LoggedOutAll(s, subject).0, subject) == {}
    ensures AccessIdsOf(LoggedOutAll(s, subject).0.store, subject) == {}
    ensures RefreshIdsOf(LoggedOutAll(s, subject).0.store, subject) == {}
  {
    var ids := LiveSessionsOf(s, subject);
    SweepFindsNothing(s, subject);
    SupersedeCoherent(s, ids, RevokedMany(s.store, TokenIdsOf(s.sessions, ids)));
    assert forall k :: k in LiveSessionsOf(LoggedOutAll(s, subject).0, subject) ==> k in ids;
  }

  /** Every session of the subject is superseded and every active id of the subject is
      revoked: what a replay does. */
  lemma ReplayCoherent(s: AuthState, subject: Subject)
    requires Coherent(s)
    ensures Coherent(s.(store := RevokedAll(s.store, subject),
                        sessions := Superseded(s.sessions, set k | k in s.sessions && s.sessions[k].subject == subject)))
  {
    var all := set k | k in s.sessions && s.sessions[k].subject == subject;
    var live := LiveSessionsOf(s, subject);
    assert Superseded(s.sessions, all) == Superseded(s.sessions, live);
    RevokedAllIsRevokedMany(s, subject);
    SupersedeCoherent(s, live, RevokedAll(s.store, subject));
  }

  /** An active refresh id is held by the very session the search settles on. */
  lemma FindsTheHolder(s: AuthState, tok: RefreshToken, found: Option<nat>)
    requires Coherent(s) && MayFind(s, tok, found) && tok.id in s.store.activeRefresh
    ensures found.Some? && Live(s, found.value) && s.sessions[found.value].tokens.refresh.id == tok.id
  {
    assert HeldRefresh(s, tok.id);
    var k :| Live(s, k) && s.sessions[k].tokens.refresh.id == tok.id;
    assert HoldsRefresh(s, tok.id);
  }

  /** The state after session `k` has been moved to a fresh pair. */
  function Moved(s: AuthState, k: nat, now: nat, life: Lifetimes): AuthState
    requires k in s.sessions
  {
    var x := s.sessions[k];
    var n := s.store.nextId;
    var rot := Rotated(s.store, x.tokens.refresh);
    s.(store := WithRefresh(WithAccess(rot, x.subject), x.subject, n),
       sessions := s.sessions[k := x.(tokens := PairOf(n, n + 1, x.subject, now, life), lastActivityAt := now)])
  }

  lemma MovedStore(s: AuthState, k: nat, now: nat, life: Lifetimes)
    requires Coherent(s) && Live(s, k) && s.store.nextId + 2 <= U64_MAX
    ensures var t, x, n := Moved(s, k, now, life).store, s.sessions[k].tokens, s.store.nextId;
      && StoreWf(t)
      && t.activeAccess == s.store.activeAccess - {x.access.id} + {n}
      && t.activeRefresh == s.store.activeRefresh - {x.refresh.id} + {n + 1}
      && t.revoked == s.store.revoked + {x.access.id, x.refresh.id}
      && t.subjects == s.store.subjects[n := s.sessions[k].subject][n + 1 := s.sessions[k].subject]
      && t.paired == (s.store.paired - {x.refresh.id})[n + 1 := n]
  {
    var x := s.sessions[k];
    assert SessionWf(s, k);
    var rot := Rotated(s.store, x.tokens.refresh);
    assert rot.activeAccess + rot.activeRefresh + rot.revoked
        == s.store.activeAccess + s.store.activeRefresh + s.store.revoked;
    assert StoreWf(rot);
    IssueKeepsWf(rot, x.subject, now, life);
    FreshIdUnknown(s.store, s.store.nextId);
    FreshIdUnknown(s.store, s.store.nextId + 1);
  }

  lemma HeldIdsAreIssued(s: AuthState, j: nat)
    requires Coherent(s) && j in s.sessions
    ensures s.sessions[j].tokens.access.id < s.store.nextId && s.sessions[j].tokens.refresh.id < s.store.nextId
  {
    assert SessionWf(s, j);
    FreshIdUnknown(s.store, s.store.nextId);
    FreshIdUnknown(s.store, s.store.nextId + 1);
  }

  lemma MovedSessionWf(s: AuthState, k: nat, now: nat, life: Lifetimes, j: nat)
    requires Coherent(s) && Live(s, k) && s.store.nextId + 2 <= U64_MAX && j in s.sessions
    ensures SessionWf(Moved(s, k, now, life), j)
  {
    MovedStore(s, k, now, life);
    HeldIdsAreIssued(s, j);
    assert SessionWf(s, j) && SessionWf(s, k);
    var t := Moved(s, k, now, life);
    if j != k {
      assert t.sessions[j] == s.sessions[j];
    }
  }

  lemma MovedSessions(s: AuthState, k: nat, now: nat, life: Lifetimes)
    requires Coherent(s) && Live(s, k) && s.store.nextId + 2 <= U64_MAX
    ensures forall j :: j in s.sessions ==> SessionWf(Moved(s, k, now, life), j)
    ensures OneSessionPerId(Moved(s, k, now, life))
  {
    forall j | j in s.sessions
      ensures s.sessions[j].tokens.access.id < s.store.nextId && s.sessions[j].tokens.refresh.id < s.store.nextId
      ensures SessionWf(Moved(s, k, now, life), j)
    {
      HeldIdsAreIssued(s, j);
      MovedSessionWf(s, k, now, life, j);
    }
  }

  lemma MovedCoherent(s: AuthState, k: nat, now: nat, life: Lifetimes)
    requires Coherent(s) && Live(s, k) && s.store.nextId + 2 <= U64_MAX
    ensures Coherent(Moved(s, k, now, life))
  {
    var t := Moved(s, k, now, life);
    MovedStore(s, k, now, life);
    MovedSessions(s, k, now, life);
    assert Live(t, k);
    forall id | id in t.store.activeAccess ensures HeldAccess(t, id) {
      if id != s.store.nextId {
        var j :| Live(s, j) && s.sessions[j].tokens.access.id == id;
        assert j != k && Live(t, j);
      }
    }
    forall id | id in t.store.activeRefresh ensures HeldRefresh(t, id) {
      if id != s.store.nextId + 1 {
        var j :| Live(s, j) && s.sessions[j].tokens.refresh.id == id;
        assert j != k && Live(t, j);
      }
    }
  }

  /** A refresh that succeeds moves the session holding the presented id, whichever
      session the search could have looked at. */
  lemma RefreshSuccessMoves(cfg: Config, s: AuthState, tok: RefreshToken, now: nat, found: Option<nat>)
    requires Coherent(s) && MayFind(s, tok, found)
    requires RefreshedSession(cfg, s, tok, now, found).1.Ok?
    ensures found.Some? && Live(s, found.value) && s.sessions[found.value].tokens.refresh.id == tok.id
    ensures s.store.nextId + 2 <= U64_MAX
    ensures RefreshedSession(cfg, s, tok, now, found).0 == Moved(s, found.value, now, cfg.life)
    ensures RefreshedSession(cfg, s, tok, now, found).1.value
         == PairOf(s.store.nextId, s.store.nextId + 1, tok.subject, now, cfg.life)
  {
    RefreshGuards(cfg, s, tok, now, found);
    RefreshedStore(s.store, tok, now, cfg.life);
    HolderRotates(s, tok, found);
    MovedByToken(s, found.value, tok, now, cfg.life);
  }

  /** The session found holds the presented id, so rotating it is rotating the session's token. */
  lemma HolderRotates(s: AuthState, tok: RefreshToken, found: Option<nat>)
    requires Coherent(s) && MayFind(s, tok, found) && tok.id in s.store.activeRefresh
    ensures found.Some? && Live(s, found.value) && s.sessions[found.value].tokens.refresh.id == tok.id
    ensures Rotated(s.store, tok) == Rotated(s.store, s.sessions[found.value].tokens.refresh)
  {
    FindsTheHolder(s, tok, found);
    RotationBySession(s, found.value, tok);
  }

  lemma MovedByToken(s: AuthState, k: nat, tok: RefreshToken, now: nat, life: Lifetimes)
    requires k in s.sessions && s.sessions[k].subject == tok.subject
    requires Rotated(s.store, tok) == Rotated(s.store, s.sessions[k].tokens.refresh)
    ensures var n := s.store.nextId;
      Moved(s, k, now, life)
        == s.(store := WithRefresh(WithAccess(Rotated(s.store, tok), tok.subject), tok.subject, n),
              sessions := s.sessions[k :=
                s.sessions[k].(tokens := PairOf(n, n + 1, tok.subject, now, life), lastActivityAt := now)])
  {}

  /** What a refresh that succeeds has checked, and what it writes. */
  lemma RefreshGuards(cfg: Config, s: AuthState, tok: RefreshToken, now: nat, found: Option<nat>)
    requires found.Some? ==> found.value in s.sessions
    requires RefreshedSession(cfg, s, tok, now, found).1.Ok?
    ensures found.Some? && !s.sessions[found.value].superseded && s.sessions[found.value].subject == tok.subject
    ensures var (store, r) := Refreshed(s.store, tok, now, cfg.life);
      && r.Ok?
      && RefreshedSession(cfg, s, tok, now, found)
        == (s.(store := store, sessions := s.sessions[found.value :=
                 s.sessions[found.value].(tokens := r.value, lastActivityAt := now)]), r)
  {}

  /** Rotation looks at the token's id, which the session holds too. */
  lemma RotationBySession(s: AuthState, k: nat, tok: RefreshToken)
    requires Coherent(s) && Live(s, k) && s.sessions[k].tokens.refresh.id == tok.id
    ensures Rotated(s.store, tok) == Rotated(s.store, s.sessions[k].tokens.refresh)
  {
    assert SessionWf(s, k);
  }

  /** The store and the pair after a refresh that succeeds. */
  lemma RefreshedStore(store: TokenStoreSnapshot, tok: RefreshToken, now: nat, life: Lifetimes)
    requires Refreshed(store, tok, now, life).1.Ok?
    ensures store.nextId + 2 <= U64_MAX && tok.id in store.activeRefresh
    ensures var n := store.nextId;
      Refreshed(store, tok, now, life)
        == (WithRefresh(WithAccess(Rotated(store, tok), tok.subject), tok.subject, n),
            Ok(PairOf(n, n + 1, tok.subject, now, life)))
  {
    assert Rotated(store, tok).nextId == store.nextId;
  }

  /** A refresh that fails for another reason than replay changes neither structure. */
  lemma RefreshFailureKeeps(cfg: Config, s: AuthState, tok: RefreshToken, now: nat, found: Option<nat>)
    requires Coherent(s) && MayFind(s, tok, found)
    requires var r := RefreshedSession(cfg, s, tok, now, found).1; r.Err? && r.error != TokenAlreadyUsed
    ensures RefreshedSession(cfg, s, tok, now, found).0 == s
  {
    RefreshAllOrNothing(s.store, tok, now, cfg.life);
  }

  lemma ReplayOutcome(cfg: Config, s: AuthState, tok: RefreshToken, now: nat, found: Option<nat>)
    requires MayFind(s, tok, found) && RefreshedSession(cfg, s, tok, now, found).1 == Err(TokenAlreadyUsed)
    ensures RefreshedSession(cfg, s, tok, now, found).0
         == s.(store := RevokedAll(s.store, tok.subject),
               sessions := Superseded(s.sessions, set k | k in s.sessions && s.sessions[k].subject == tok.subject))
  {}

  /** With any token presented, a refresh keeps sessions and store in agreement. */
  lemma RefreshCoherent(cfg: Config, s: AuthState, tok: RefreshToken, now: nat, found: Option<nat>)
    requires Coherent(s) && MayFind(s, tok, found)
    ensures Coherent(RefreshedSession(cfg, s, tok, now, found).0)
  {
    var r := RefreshedSession(cfg, s, tok, now, found).1;
    if r.Ok? {
      RefreshSuccessMoves(cfg, s, tok, now, found);
      MovedCoherent(s, found.value, now, cfg.life);
    } else if r == Err(TokenAlreadyUsed) {
      ReplayOutcome(cfg, s, tok, now, found);
      ReplayCoherent(s, tok.subject);
    } else {
      RefreshFailureKeeps(cfg, s, tok, now, found);
    }
  }

  /** Refreshing one session leaves every other session as it was, with its pair still
      active, and retires exactly the refreshed session's old pair. */
  lemma RefreshIsolates(cfg: Config, s: AuthState, tok: RefreshToken, now: nat, found: Option<nat>, other: nat)
    requires Coherent(s) && MayFind(s, tok, found)
    requires RefreshedSession(cfg, s, tok, now, found).1.Ok?
    requires Live(s, other) && s.sessions[other].tokens.refresh.id != tok.id
    ensures var (t, r) := RefreshedSession(cfg, s, tok, now, found);
      && t.sessions == s.sessions[found.value := t.sessions[found.value]]
      && Live(t, other) && t.sessions[other] == s.sessions[other]
      && s.sessions[other].tokens.access.id in t.store.activeAccess
      && s.sessions[other].tokens.refresh.id in t.store.activeRefresh
      && t.store.revoked - s.store.revoked
           == {s.sessions[found.value].tokens.access.id, s.sessions[found.value].tokens.refresh.id}
  {
    RefreshSuccessMoves(cfg, s, tok, now, found);
    MovedStore(s, found.value, now, cfg.life);
    assert SessionWf(s, other) && SessionWf(s, found.value);
  }

  /** A replayed token ends every session of the subject it names and touches no other
      subject. */
  lemma ReplayEndsSubject(cfg: Config, s: AuthState, tok: RefreshToken, now: nat, found: Option<nat>, other: nat)
    requires Coherent(s) && MayFind(s, tok, found)
    requires RefreshedSession(cfg, s, tok, now, found).1 == Err(TokenAlreadyUsed)
    requires Live(s, other) && s.sessions[other].subject != tok.subject
    ensures var t := RefreshedSession(cfg, s, tok, now, found).0;
      && LiveSessionsOf(t, tok.subject) == {}
      && AccessIdsOf(t.store, tok.subject) == {} && RefreshIdsOf(t.store, tok.subject) == {}
      && t.sessions[other] == s.sessions[other]
      && s.sessions[other].tokens.access.id in t.store.activeAccess
      && s.sessions[other].tokens.refresh.id in t.store.activeRefresh
  {
    RevokedAllKeepsWf(s.store, tok.subject);
    assert SessionWf(s, other);
  }

  // ---------------------------------------------------------------------------
  // Runs
  // ---------------------------------------------------------------------------

  datatype Op =
    | OpLogin(subject: Subject, passwordEmpty: bool, balance: Option<nat>)
    | OpLogout(sid: nat)
    | OpLogoutFor(subject: Subject, sid: nat)
    | OpLogoutAll(subject: Subject)
    | OpRefresh(tok: RefreshToken)
    | OpRefreshFor(expected: Subject, tok: RefreshToken)

  /** One call at one clock reading; `found` is what the search of a refresh settles on. */
  datatype Call = Call(op: Op, now: nat, found: Option<nat>)

  ghost predicate Possible(s: AuthState, c: Call) {
    (c.op.OpRefresh? || c.op.OpRefreshFor?) ==> MayFind(s, c.op.tok, c.found)
  }

  /** A call that ends in an uncaught panic after handing out an access id. */
  predicate Orphans(cfg: Config, s: AuthState, c: Call) {
    c.op.OpLogin? && LeavesOrphan(cfg, s, c.op.subject, c.op.passwordEmpty, c.op.balance, c.now)
  }

  ghost function After(cfg: Config, s: AuthState, c: Call): AuthState
    requires Possible(s, c)
  {
    match c.op
    case OpLogin(subject, passwordEmpty, balance) => LoggedIn(cfg, s, subject, passwordEmpty, balance, c.now).0
    case OpLogout(sid) => LoggedOut(s, sid).0
    case OpLogoutFor(subject, sid) => LoggedOutFor(s, subject, sid).0
    case OpLogoutAll(subject) => LoggedOutAll(s, subject).0
    case OpRefresh(tok) => RefreshedSession(cfg, s, tok, c.now, c.found).0
    case OpRefreshFor(expected, tok) =>
      if tok.subject != expected then s else RefreshedSession(cfg, s, tok, c.now, c.found).0
  }

  ghost predicate IsStep(cfg: Config, states: seq<AuthState>, calls: seq<Call>, i: nat)
    requires i < |calls| < |states|
  {
    Possible(states[i], calls[i]) && states[i + 1] == After(cfg, states[i], calls[i])
  }

  /** `states` is what a service goes through when it makes the calls in order. */
  ghost predicate IsPath(cfg: Config, states: seq<AuthState>, calls: seq<Call>) {
    |states| == |calls| + 1 && forall i: nat :: i < |calls| ==> IsStep(cfg, states, calls, i)
  }

  /** The same from the empty service. */
  ghost predicate IsRun(cfg: Config, states: seq<AuthState>, calls: seq<Call>) {
    IsPath(cfg, states, calls) && states[0] == INITIAL
  }

  lemma CallCoherent(cfg: Config, s: AuthState, c: Call)
    requires Coherent(s) && Possible(s, c)
    ensures Coherent(After(cfg, s, c)) <==> !Orphans(cfg, s, c)
  {
    match c.op
    case OpLogin(subject, passwordEmpty, balance) =>
      LoginCoherentIff(cfg, s, subject, passwordEmpty, balance, c.now);
    case OpLogout(sid) => LogoutCoherent(s, sid);
    case OpLogoutFor(subject, sid) => LogoutCoherent(s, sid);
    case OpLogoutAll(subject) => LogoutAllCoherent(s, subject);
    case OpRefresh(tok) => RefreshCoherent(cfg, s, tok, c.now, c.found);
    case OpRefreshFor(expected, tok) =>
      if tok.subject == expected {
        RefreshCoherent(cfg, s, tok, c.now, c.found);
      }
  }

  /** From any state in agreement, sessions and store agree in every state exactly as long
      as no login was cut short by an id counter overflow. */
  lemma {:induction false} PathsCoherentIff(cfg: Config, states: seq<AuthState>, calls: seq<Call>, n: nat)
    requires IsPath(cfg, states, calls) && Coherent(states[0]) && n <= |calls|
    ensures (forall i :: 0 <= i <= n ==> Coherent(states[i]))
       <==> (forall i :: 0 <= i < n ==> !Orphans(cfg, states[i], calls[i]))
  {
    if n > 0 {
      PathsCoherentIff(cfg, states, calls, n - 1);
      assert IsStep(cfg, states, calls, n - 1);
      if Coherent(states[n - 1]) {
        CallCoherent(cfg, states[n - 1], calls[n - 1]);
      }
      assert (forall i :: 0 <= i <= n ==> Coherent(states[i]))
        <==> (forall i :: 0 <= i <= n - 1 ==> Coherent(states[i])) && Coherent(states[n]);
      assert (forall i :: 0 <= i < n ==> !Orphans(cfg, states[i], calls[i]))
        <==> (forall i :: 0 <= i < n - 1 ==> !Orphans(cfg, states[i], calls[i])) && !Orphans(cfg, states[n - 1], calls[n - 1]);
    }
  }

  /** Token ids are handed out in pairs, the first being odd, and no session without a pair. */
  predicate InStep(s: AuthState) {
    s.store.nextId % 2 == 1 && 2 * s.nextSessionId <= s.store.nextId + 1
  }

  /** So the token id counter never runs out between the two ids of a pair, nor the session
      id counter before it. */
  lemma InStepNoOrphans(cfg: Config, s: AuthState, c: Call)
    requires Coherent(s) && InStep(s)
    ensures !Orphans(cfg, s, c)
  {}

  lemma LoginKeepsStep(cfg: Config, s: AuthState, subject: Subject, passwordEmpty: bool, balance: Option<nat>, now: nat)
    requires Coherent(s) && InStep(s)
    ensures InStep(LoggedIn(cfg, s, subject, passwordEmpty, balance, now).0)
  {
    IssueKeepsStep(s.store, subject, now, cfg.life);
  }

  lemma IssueKeepsStep(s: TokenStoreSnapshot, subject: Subject, now: nat, life: Lifetimes)
    requires s.nextId % 2 == 1 && s.nextId <= U64_MAX
    ensures var (t, pair) := Issue(s, subject, now, life);
      t.nextId == if pair.Some? then s.nextId + 2 else s.nextId
  {}

  lemma RefreshKeepsStep(cfg: Config, s: AuthState, tok: RefreshToken, now: nat, found: Option<nat>)
    requires Coherent(s) && InStep(s) && MayFind(s, tok, found)
    ensures InStep(RefreshedSession(cfg, s, tok, now, found).0)
  {
    var r := RefreshedSession(cfg, s, tok, now, found).1;
    if r.Ok? {
      RefreshSuccessMoves(cfg, s, tok, now, found);
      MovedStep(s, found.value, now, cfg.life);
    } else if r == Err(TokenAlreadyUsed) {
      ReplayOutcome(cfg, s, tok, now, found);
    } else {
      RefreshFailureKeeps(cfg, s, tok, now, found);
    }
  }

  lemma MovedStep(s: AuthState, k: nat, now: nat, life: Lifetimes)
    requires InStep(s) && k in s.sessions
    ensures InStep(Moved(s, k, now, life))
  {}

  lemma CallKeepsStep(cfg: Config, s: AuthState, c: Call)
    requires Coherent(s) && InStep(s) && Possible(s, c)
    ensures InStep(After(cfg, s, c))
  {
    match c.op
    case OpLogin(subject, passwordEmpty, balance) => LoginKeepsStep(cfg, s, subject, passwordEmpty, balance, c.now);
    case OpRefresh(tok) => RefreshKeepsStep(cfg, s, tok, c.now, c.found);
    case OpRefreshFor(expected, tok) =>
      if tok.subject == expected {
        RefreshKeepsStep(cfg, s, tok, c.now, c.found);
      }
    case _ =>
  }

  /** In every state of every run from the empty service, sessions and store agree; the
      login that would leave an orphan is never made. */
  lemma {:induction false} RunsCoherent(cfg: Config, states: seq<AuthState>, calls: seq<Call>, n: nat)
    requires IsRun(cfg, states, calls) && n <= |calls|
    ensures Coherent(states[n]) && InStep(states[n])
    ensures n < |calls| ==> !Orphans(cfg, states[n], calls[n])
  {
    if n == 0 {
      assert Coherent(INITIAL);
    } else {
      RunsCoherent(cfg, states, calls, n - 1);
      assert IsStep(cfg, states, calls, n - 1);
      CallCoherent(cfg, states[n - 1], calls[n - 1]);
      CallKeepsStep(cfg, states[n - 1], calls[n - 1]);
    }
    if n < |calls| {
      InStepNoOrphans(cfg, states[n], calls[n]);
    }
  }

  /** In every state of every run a token verifies exactly when it is unexpired and the
      access id of a live session of its subject. */
  lemma RunsVerifyLive(cfg: Config, states: seq<AuthState>, calls: seq<Call>, n: nat, tok: AccessToken, now: nat)
    requires IsRun(cfg, states, calls) && n <= |calls|
    ensures var s := states[n];
      Verify(s.store, tok, now).Ok? <==> now < tok.expiresAt && exists k :: HoldsAccess(s, k, tok.id, tok.subject)
  {
    RunsCoherent(cfg, states, calls, n);
    VerifiesIffLive(states[n], tok, now);
  }
}

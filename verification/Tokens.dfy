/**
 Token lifecycle: issue, rotate with replay detection, revoke, roll back.

 `TokenStoreSnapshot` is the store's own snapshot record; the functions below say what
 each operation does to it, the class at the end is the mutable store, and every method
 is proved against its function.
*/
module Tokens {
  import opened Wrappers

  type TokenId = nat

  /** A subject (user id), as the UTF-8 bytes of the string. */
  type Subject = bytes

  const MAX_SUBJECT_LENGTH := 256

  datatype AccessToken = AccessToken(id: TokenId, subject: Subject, issuedAt: nat, expiresAt: nat)

  datatype RefreshToken = RefreshToken(id: TokenId, subject: Subject, issuedAt: nat, expiresAt: nat)

  datatype TokenPair = TokenPair(access: AccessToken, refresh: RefreshToken)

  datatype AuthError =
    | TokenExpired
    | TokenRevoked
    | TokenInvalid
    | TokenAlreadyUsed
    | InvalidCredentials
    | AccountLocked(retryAfterSecs: nat)
    | RecoveryTokenInvalid
    | RecoveryAlreadyCompleted
    | SessionNotFound
    | SessionSuperseded
    | AmountValidationFailed
    | ValidationError
    | InternalError
    | Panicked  // an id counter overflowed and the panic was not caught

  datatype TokenStoreSnapshot = TokenStoreSnapshot(
    activeAccess: set<TokenId>,
    activeRefresh: set<TokenId>,
    revoked: set<TokenId>,
    subjects: map<TokenId, Subject>,
    paired: map<TokenId, TokenId>,
    nextId: nat)

  /** Access and refresh token lifetimes, in seconds. */
  datatype Lifetimes = Lifetimes(access: nat, refresh: nat)

  const EMPTY_STORE := TokenStoreSnapshot({}, {}, {}, map[], map[], 1)

  // ---------------------------------------------------------------------------
  // What each operation does
  // ---------------------------------------------------------------------------

  /** `checked_add(1).expect(..)` on the id counter panics. */
  predicate IdsExhausted(s: TokenStoreSnapshot) {
    s.nextId >= U64_MAX
  }

  function WithAccess(s: TokenStoreSnapshot, subject: Subject): TokenStoreSnapshot {
    s.(nextId := s.nextId + 1,
       activeAccess := s.activeAccess + {s.nextId},
       subjects := s.subjects[s.nextId := subject])
  }

  function WithRefresh(s: TokenStoreSnapshot, subject: Subject, accessId: TokenId): TokenStoreSnapshot {
    s.(nextId := s.nextId + 1,
       activeRefresh := s.activeRefresh + {s.nextId},
       subjects := s.subjects[s.nextId := subject],
       paired := s.paired[s.nextId := accessId])
  }

  function PairOf(accessId: TokenId, refreshId: TokenId, subject: Subject, now: nat, life: Lifetimes): TokenPair {
    TokenPair(
      AccessToken(accessId, subject, now, SaturatingAdd(now, life.access)),
      RefreshToken(refreshId, subject, now, SaturatingAdd(now, life.refresh)))
  }

  /** `None` is a panic; it can strike before or between the two id allocations, and in
      the second case the access token has already been recorded. */
  function Issue(s: TokenStoreSnapshot, subject: Subject, now: nat, life: Lifetimes):
    (TokenStoreSnapshot, Option<TokenPair>)
  {
    if IdsExhausted(s) then (s, None)
    else
      var s1 := WithAccess(s, subject);
      if IdsExhausted(s1) then (s1, None)
      else (WithRefresh(s1, subject, s.nextId), Some(PairOf(s.nextId, s1.nextId, subject, now, life)))
  }

  function Revoked(s: TokenStoreSnapshot, id: TokenId): TokenStoreSnapshot {
    s.(activeAccess := s.activeAccess - {id},
       activeRefresh := s.activeRefresh - {id},
       revoked := s.revoked + {id})
  }

  predicate BelongsTo(s: TokenStoreSnapshot, id: TokenId, subject: Subject) {
    id in s.subjects && s.subjects[id] == subject
  }

  function AccessIdsOf(s: TokenStoreSnapshot, subject: Subject): set<TokenId> {
    set id | id in s.activeAccess && BelongsTo(s, id, subject)
  }

  function RefreshIdsOf(s: TokenStoreSnapshot, subject: Subject): set<TokenId> {
    set id | id in s.activeRefresh && BelongsTo(s, id, subject)
  }

  function RevokedAllAccess(s: TokenStoreSnapshot, subject: Subject): TokenStoreSnapshot {
    s.(activeAccess := s.activeAccess - AccessIdsOf(s, subject),
       revoked := s.revoked + AccessIdsOf(s, subject))
  }

  function RevokedAll(s: TokenStoreSnapshot, subject: Subject): TokenStoreSnapshot {
    s.(activeAccess := s.activeAccess - AccessIdsOf(s, subject),
       activeRefresh := s.activeRefresh - RefreshIdsOf(s, subject),
       revoked := s.revoked + AccessIdsOf(s, subject) + RefreshIdsOf(s, subject),
       paired := s.paired - RefreshIdsOf(s, subject))
  }

  /** Revoke an active refresh token and what it is paired with. */
  function Rotated(s: TokenStoreSnapshot, tok: RefreshToken): TokenStoreSnapshot {
    var s1 := s.(activeRefresh := s.activeRefresh - {tok.id}, revoked := s.revoked + {tok.id});
    if tok.id in s.paired then
      s1.(paired := s.paired - {tok.id},
          activeAccess := s.activeAccess - {s.paired[tok.id]},
          revoked := s1.revoked + {s.paired[tok.id]})
    else
      RevokedAllAccess(s1, tok.subject)
  }

  function Refreshed(s: TokenStoreSnapshot, tok: RefreshToken, now: nat, life: Lifetimes):
    (TokenStoreSnapshot, Result<TokenPair, AuthError>)
  {
    if tok.id in s.revoked then (RevokedAll(s, tok.subject), Err(TokenAlreadyUsed))
    else if tok.id !in s.activeRefresh then (s, Err(TokenInvalid))
    else if tok.id in s.subjects && s.subjects[tok.id] != tok.subject then (s, Err(TokenInvalid))
    else if tok.expiresAt <= now then (s, Err(TokenExpired))
    else
      var (s1, pair) := Issue(Rotated(s, tok), tok.subject, now, life);
      match pair
      case Some(p) => (s1, Ok(p))
      case None => (s, Err(InternalError))
  }

  function Verify(s: TokenStoreSnapshot, tok: AccessToken, now: nat): Result<AccessToken, AuthError> {
    if tok.id in s.revoked then Err(TokenRevoked)
    else if tok.id !in s.activeAccess then Err(TokenInvalid)
    else if tok.id in s.subjects && s.subjects[tok.id] != tok.subject then Err(TokenInvalid)
    else if tok.expiresAt <= now then Err(TokenExpired)
    else Ok(tok)
  }

  // ---------------------------------------------------------------------------
  // What every state of the store satisfies
  // ---------------------------------------------------------------------------

  predicate Issued(s: TokenStoreSnapshot, id: TokenId) {
    1 <= id < s.nextId
  }

  /** The issued ids are 1 .. nextId-1; each has a subject and is in exactly one of the
      active-access, active-refresh and revoked sets. */
  ghost predicate StoreWf(s: TokenStoreSnapshot) {
    && 1 <= s.nextId <= U64_MAX
    && s.activeAccess !! s.activeRefresh !! s.revoked
    && (forall id :: id in s.subjects <==> Issued(s, id))
    && (forall id :: id in s.activeAccess + s.activeRefresh + s.revoked <==> Issued(s, id))
  }

  lemma IssueKeepsWf(s: TokenStoreSnapshot, subject: Subject, now: nat, life: Lifetimes)
    requires StoreWf(s)
    ensures StoreWf(Issue(s, subject, now, life).0)
  {
    if !IdsExhausted(s) {
      var s1 := WithAccess(s, subject);
      assert s.nextId !in s.activeAccess + s.activeRefresh + s.revoked;
      assert s1.activeAccess + s1.activeRefresh + s1.revoked
          == s.activeAccess + s.activeRefresh + s.revoked + {s.nextId};
      assert StoreWf(s1);
      if !IdsExhausted(s1) {
        var s2 := WithRefresh(s1, subject, s.nextId);
        assert s1.nextId !in s1.activeAccess + s1.activeRefresh + s1.revoked;
        assert s2.activeAccess + s2.activeRefresh + s2.revoked
            == s1.activeAccess + s1.activeRefresh + s1.revoked + {s1.nextId};
      }
    }
  }

  lemma RevokedAllKeepsWf(s: TokenStoreSnapshot, subject: Subject)
    requires StoreWf(s)
    ensures StoreWf(RevokedAll(s, subject))
    ensures AccessIdsOf(RevokedAll(s, subject), subject) == {}
    ensures RefreshIdsOf(RevokedAll(s, subject), subject) == {}
    ensures forall other :: other != subject ==>
      && AccessIdsOf(RevokedAll(s, subject), other) == AccessIdsOf(s, other)
      && RefreshIdsOf(RevokedAll(s, subject), other) == RefreshIdsOf(s, other)
  {
    var t := RevokedAll(s, subject);
    assert t.activeAccess + t.activeRefresh + t.revoked == s.activeAccess + s.activeRefresh + s.revoked;
    forall other | other != subject
      ensures AccessIdsOf(t, other) == AccessIdsOf(s, other)
      ensures RefreshIdsOf(t, other) == RefreshIdsOf(s, other)
    {
      assert forall id :: id in AccessIdsOf(s, other) ==> id !in AccessIdsOf(s, subject);
      assert forall id :: id in RefreshIdsOf(s, other) ==> id !in RefreshIdsOf(s, subject);
    }
  }

  /** A revocation keeps the partition exactly when the id was ever issued. */
  lemma RevokeKeepsWf(s: TokenStoreSnapshot, id: TokenId)
    requires StoreWf(s)
    ensures StoreWf(Revoked(s, id)) <==> Issued(s, id)
  {
    var t := Revoked(s, id);
    assert t.activeAccess + t.activeRefresh + t.revoked == s.activeAccess + s.activeRefresh + s.revoked + {id};
    if !Issued(s, id) {
      assert id in t.activeAccess + t.activeRefresh + t.revoked;
      assert !Issued(t, id);
    }
  }

  /** Every pairing names an issued id that is no active refresh id. */
  ghost predicate PairingWf(s: TokenStoreSnapshot) {
    forall r :: r in s.paired ==> Issued(s, s.paired[r]) && s.paired[r] !in s.activeRefresh
  }

  lemma RotatedKeepsWf(s: TokenStoreSnapshot, tok: RefreshToken)
    requires StoreWf(s) && PairingWf(s) && tok.id in s.activeRefresh
    ensures StoreWf(Rotated(s, tok)) && PairingWf(Rotated(s, tok))
    ensures Rotated(s, tok).nextId == s.nextId
  {
    var t := Rotated(s, tok);
    assert t.activeAccess + t.activeRefresh + t.revoked == s.activeAccess + s.activeRefresh + s.revoked;
  }

  lemma IssueKeepsPairing(s: TokenStoreSnapshot, subject: Subject, now: nat, life: Lifetimes)
    requires StoreWf(s) && PairingWf(s)
    ensures PairingWf(Issue(s, subject, now, life).0)
  {
    assert s.nextId !in s.activeAccess + s.activeRefresh + s.revoked;
  }

  datatype StoreOp =
    | OpIssue(subject: Subject)
    | OpRevoke(id: TokenId)
    | OpRevokeAll(subject: Subject)
    | OpRefresh(tok: RefreshToken)

  function Applied(s: TokenStoreSnapshot, op: StoreOp, now: nat, life: Lifetimes): TokenStoreSnapshot {
    match op
    case OpIssue(subject) => Issue(s, subject, now, life).0
    case OpRevoke(id) => Revoked(s, id)
    case OpRevokeAll(subject) => RevokedAll(s, subject)
    case OpRefresh(tok) => Refreshed(s, tok, now, life).0
  }

  /** Every operation keeps the store well-formed, except exactly the revocation of an id
      that was never issued. */
  lemma OperationKeepsWfIff(s: TokenStoreSnapshot, op: StoreOp, now: nat, life: Lifetimes)
    requires StoreWf(s) && PairingWf(s)
    ensures var t := Applied(s, op, now, life);
      StoreWf(t) && PairingWf(t) <==> (op.OpRevoke? ==> Issued(s, op.id))
  {
    match op
    case OpIssue(subject) =>
      IssueKeepsWf(s, subject, now, life);
      IssueKeepsPairing(s, subject, now, life);
    case OpRevoke(id) => RevokeKeepsWf(s, id);
    case OpRevokeAll(subject) => RevokedAllKeepsWf(s, subject);
    case OpRefresh(tok) => RefreshKeepsWf(s, tok, now, life);
  }

  lemma RefreshKeepsWf(s: TokenStoreSnapshot, tok: RefreshToken, now: nat, life: Lifetimes)
    requires StoreWf(s) && PairingWf(s)
    ensures var t := Refreshed(s, tok, now, life).0; StoreWf(t) && PairingWf(t)
  {
    if tok.id in s.revoked {
      RevokedAllKeepsWf(s, tok.subject);
    } else if tok.id in s.activeRefresh {
      RotatedKeepsWf(s, tok);
      IssueKeepsWf(Rotated(s, tok), tok.subject, now, life);
      IssueKeepsPairing(Rotated(s, tok), tok.subject, now, life);
    }
  }

  // ---------------------------------------------------------------------------
  // Main properties
  // ---------------------------------------------------------------------------

  /** Refresh is all-or-nothing. With a live token presented it fails exactly when fewer
      than two ids are left, and then every field of the store is what it was: no token is
      revoked without its replacement having been issued. */
  lemma RefreshAllOrNothing(s: TokenStoreSnapshot, tok: RefreshToken, now: nat, life: Lifetimes)
    requires StoreWf(s)
    ensures var (t, r) := Refreshed(s, tok, now, life);
      && (r.Err? && r.error != TokenAlreadyUsed ==> t == s)
      && (r == Err(TokenAlreadyUsed) <==> tok.id in s.revoked)
      && (tok.id in s.activeRefresh && s.subjects[tok.id] == tok.subject && now < tok.expiresAt ==>
            (r == Err(InternalError) <==> s.nextId + 2 > U64_MAX)
            && (r.Ok? <==> s.nextId + 2 <= U64_MAX))
  {
    assert tok.id in s.activeRefresh ==> tok.id in s.activeAccess + s.activeRefresh + s.revoked;
    assert Rotated(s, tok).nextId == s.nextId;
  }

  /** A successful rotation retires exactly the presented token and its paired access
      token, and makes exactly two fresh ids active. */
  lemma RefreshRotates(s: TokenStoreSnapshot, tok: RefreshToken, now: nat, life: Lifetimes)
    requires StoreWf(s) && PairingWf(s) && tok.id in s.paired
    requires Refreshed(s, tok, now, life).1.Ok?
    ensures var (t, r) := Refreshed(s, tok, now, life);
      var pair := r.value;
      var oldAccess := s.paired[tok.id];
      && StoreWf(t)
      && t.activeAccess == s.activeAccess - {oldAccess} + {pair.access.id}
      && t.activeRefresh == s.activeRefresh - {tok.id} + {pair.refresh.id}
      && t.revoked == s.revoked + {tok.id, oldAccess}
      && !Issued(s, pair.access.id) && !Issued(s, pair.refresh.id)
      && pair.access.subject == pair.refresh.subject == tok.subject
      && Verify(t, pair.access, now) == (if life.access == 0 || now >= U64_MAX then Err(TokenExpired) else Ok(pair.access))
  {
    var (t, r) := Refreshed(s, tok, now, life);
    var rot := Rotated(s, tok);
    assert rot.activeAccess + rot.activeRefresh + rot.revoked == s.activeAccess + s.activeRefresh + s.revoked;
    assert StoreWf(rot);
    IssueKeepsWf(rot, tok.subject, now, life);
    var a, b := s.nextId, s.nextId + 1;
    assert a !in s.activeAccess + s.activeRefresh + s.revoked;
    assert b !in s.activeAccess + s.activeRefresh + s.revoked;
  }

  /** Under the invariant a token verifies exactly when its id is an active access id, it
      names the subject the id was issued to, and it has not expired. */
  lemma VerifyExactly(s: TokenStoreSnapshot, tok: AccessToken, now: nat)
    requires StoreWf(s)
    ensures Verify(s, tok, now).Ok? <==>
      tok.id in s.activeAccess && s.subjects[tok.id] == tok.subject && now < tok.expiresAt
    ensures Verify(s, tok, now) == Err(TokenRevoked) <==> tok.id in s.revoked
  {
    assert tok.id in s.activeAccess ==> tok.id in s.activeAccess + s.activeRefresh + s.revoked;
  }

  // ---------------------------------------------------------------------------
  // The mutable store
  // ---------------------------------------------------------------------------

  class TokenStore {
    var activeAccess: set<TokenId>
    var activeRefresh: set<TokenId>
    var revoked: set<TokenId>
    var tokenSubjects: map<TokenId, Subject>
    var pairedAccess: map<TokenId, TokenId>
    var nextId: nat
    const life: Lifetimes

    ghost function State(): TokenStoreSnapshot
      reads this
    {
      TokenStoreSnapshot(activeAccess, activeRefresh, revoked, tokenSubjects, pairedAccess, nextId)
    }

    constructor (life: Lifetimes)
      ensures State() == EMPTY_STORE && this.life == life
    {
      activeAccess, activeRefresh, revoked := {}, {}, {};
      tokenSubjects, pairedAccess := map[], map[];
      nextId := 1;
      this.life := life;
    }

    method NextTokenId() returns (id: Option<TokenId>)
      modifies this`nextId
      ensures id == if old(nextId) >= U64_MAX then None else Some(old(nextId))
      ensures nextId == if old(nextId) >= U64_MAX then old(nextId) else old(nextId) + 1
    {
      if nextId >= U64_MAX {
        return None;
      }
      id := Some(nextId);
      nextId := nextId + 1;
    }

    method IssuePair(subject: Subject, now: nat) returns (pair: Option<TokenPair>)
      modifies this
      ensures (State(), pair) == Issue(old(State()), subject, now, life)
    {
      var first := NextTokenId();
      if first.None? {
        return None;
      }
      var access := AccessToken(first.value, subject, now, SaturatingAdd(now, life.access));
      activeAccess := activeAccess + {access.id};
      tokenSubjects := tokenSubjects[access.id := subject];

      var second := NextTokenId();
      if second.None? {
        return None;
      }
      var refresh := RefreshToken(second.value, subject, now, SaturatingAdd(now, life.refresh));
      activeRefresh := activeRefresh + {refresh.id};
      tokenSubjects := tokenSubjects[refresh.id := subject];
      pairedAccess := pairedAccess[refresh.id := access.id];
      pair := Some(TokenPair(access, refresh));
    }

    method VerifyAccess(tok: AccessToken, now: nat) returns (r: Result<AccessToken, AuthError>)
      ensures r == Verify(State(), tok, now)
    {
      if tok.id in revoked {
        return Err(TokenRevoked);
      }
      if tok.id !in activeAccess {
        return Err(TokenInvalid);
      }
      if tok.id in tokenSubjects {
        if tokenSubjects[tok.id] != tok.subject {
          return Err(TokenInvalid);
        }
      }
      if tok.expiresAt <= now {
        return Err(TokenExpired);
      }
      return Ok(tok);
    }

    method Revoke(id: TokenId)
      modifies this
      ensures State() == Revoked(old(State()), id)
    {
      activeAccess := activeAccess - {id};
      activeRefresh := activeRefresh - {id};
      revoked := revoked + {id};
    }

    method RevokeAllForSubject(subject: Subject)
      modifies this
      ensures State() == RevokedAll(old(State()), subject)
    {
      var accessIds := set id | id in activeAccess && id in tokenSubjects && tokenSubjects[id] == subject;
      var refreshIds := set id | id in activeRefresh && id in tokenSubjects && tokenSubjects[id] == subject;
      ghost var s := State();
      assert accessIds == AccessIdsOf(s, subject);
      assert refreshIds == RefreshIdsOf(s, subject);
      var todo := accessIds;
      while todo != {}
        invariant todo <= accessIds
        invariant activeAccess == s.activeAccess - (accessIds - todo)
        invariant revoked == s.revoked + (accessIds - todo)
        invariant activeRefresh == s.activeRefresh && pairedAccess == s.paired
        invariant tokenSubjects == s.subjects && nextId == s.nextId
      {
        var id :| id in todo;
        activeAccess := activeAccess - {id};
        revoked := revoked + {id};
        todo := todo - {id};
      }
      todo := refreshIds;
      while todo != {}
        invariant todo <= refreshIds
        invariant activeAccess == s.activeAccess - accessIds
        invariant activeRefresh == s.activeRefresh - (refreshIds - todo)
        invariant revoked == s.revoked + accessIds + (refreshIds - todo)
        invariant pairedAccess == s.paired - (refreshIds - todo)
        invariant tokenSubjects == s.subjects && nextId == s.nextId
      {
        var id :| id in todo;
        activeRefresh := activeRefresh - {id};
        revoked := revoked + {id};
        pairedAccess := pairedAccess - {id};
        todo := todo - {id};
      }
    }

    method RevokeAllAccessForSubject(subject: Subject)
      modifies this
      ensures State() == RevokedAllAccess(old(State()), subject)
    {
      var ids := set id | id in activeAccess && id in tokenSubjects && tokenSubjects[id] == subject;
      ghost var s := State();
      assert ids == AccessIdsOf(s, subject);
      var todo := ids;
      while todo != {}
        invariant todo <= ids
        invariant activeAccess == s.activeAccess - (ids - todo)
        invariant revoked == s.revoked + (ids - todo)
        invariant activeRefresh == s.activeRefresh && pairedAccess == s.paired
        invariant tokenSubjects == s.subjects && nextId == s.nextId
      {
        var id :| id in todo;
        activeAccess := activeAccess - {id};
        revoked := revoked + {id};
        todo := todo - {id};
      }
    }

    method Snapshot() returns (snap: TokenStoreSnapshot)
      ensures snap == State()
    {
      return TokenStoreSnapshot(activeAccess, activeRefresh, revoked, tokenSubjects, pairedAccess, nextId);
    }

    method Restore(snap: TokenStoreSnapshot)
      modifies this
      ensures State() == snap
    {
      activeAccess, activeRefresh, revoked := snap.activeAccess, snap.activeRefresh, snap.revoked;
      tokenSubjects, pairedAccess, nextId := snap.subjects, snap.paired, snap.nextId;
    }

    method Refresh(tok: RefreshToken, now: nat) returns (r: Result<TokenPair, AuthError>)
      modifies this
      ensures (State(), r) == Refreshed(old(State()), tok, now, life)
    {
      if tok.id in revoked {
        RevokeAllForSubject(tok.subject);
        return Err(TokenAlreadyUsed);
      }
      if tok.id !in activeRefresh {
        return Err(TokenInvalid);
      }
      if tok.id in tokenSubjects {
        if tokenSubjects[tok.id] != tok.subject {
          return Err(TokenInvalid);
        }
      }
      if tok.expiresAt <= now {
        return Err(TokenExpired);
      }

      var snapshot := Snapshot();
      activeRefresh := activeRefresh - {tok.id};
      revoked := revoked + {tok.id};
      if tok.id in pairedAccess {
        var oldAccess := pairedAccess[tok.id];
        pairedAccess := pairedAccess - {tok.id};
        activeAccess := activeAccess - {oldAccess};
        revoked := revoked + {oldAccess};
      } else {
        RevokeAllAccessForSubject(tok.subject);
      }
      assert State() == Rotated(old(State()), tok);

      var pair := IssuePair(tok.subject, now);
      if pair.None? {
        Restore(snapshot);
        return Err(InternalError);
      }
      return Ok(pair.value);
    }
  }
}

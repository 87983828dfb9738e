/**
 The auth service as the program holds it: a token store and a session table that are
 updated in place. Every method is proved against its function in `Flows`.
*/
module AuthServices {
  import opened Wrappers
  import opened Tokens
  import opened Flows
  import Amounts

  class AuthService {
    const store: TokenStore
    var sessions: map<nat, Session>
    var nextSessionId: nat
    var attempts: map<Subject, Attempts>
    const cfg: Config

    ghost predicate Valid() {
      store.life == cfg.life
    }

    ghost function State(): AuthState
      reads this, store
    {
      AuthState(store.State(), sessions, nextSessionId, attempts)
    }

    constructor (cfg: Config)
      ensures Valid() && fresh(store) && this.cfg == cfg && State() == INITIAL
    {
      store := new TokenStore(cfg.life);
      sessions, nextSessionId, attempts := map[], 1, map[];
      this.cfg := cfg;
    }

    method Login(subject: Subject, passwordEmpty: bool, balance: Option<nat>, now: nat)
      returns (r: Result<Session, AuthError>)
      requires Valid()
      modifies this, store
      ensures (State(), r) == LoggedIn(cfg, old(State()), subject, passwordEmpty, balance, now)
    {
      if |subject| == 0 || |subject| > MAX_SUBJECT_LENGTH {
        return Err(ValidationError);
      }
      if balance.Some? && Amounts.New(balance.value).Err? {
        return Err(AmountValidationFailed);
      }
      if subject in attempts {
        var a := attempts[subject];
        if a.lockedUntil.Some? {
          var until := a.lockedUntil.value;
          if now < until {
            assert attempts == attempts[subject := a];
            return Err(AccountLocked(until - now));
          }
          attempts := attempts[subject := Attempts(0, None)];
        } else if a.count >= cfg.maxLoginAttempts {
          attempts := attempts[subject := Attempts(a.count, Some(SaturatingAdd(now, cfg.lockoutSecs)))];
          return Err(AccountLocked(cfg.lockoutSecs));
        }
      }
      ghost var gate := Gate(cfg, AttemptsOf(old(State()), subject), now);
      assert gate.1.None?;
      assert (if subject in attempts then attempts[subject] else Attempts(0, None)) == gate.0;
      assert attempts[subject := RecordFailure(gate.0)] == old(attempts)[subject := RecordFailure(gate.0)];
      assert attempts[subject := Attempts(0, None)] == old(attempts)[subject := Attempts(0, None)];

      if passwordEmpty {
        NoteFailure(subject);
        return Err(InvalidCredentials);
      }
      attempts := attempts[subject := Attempts(0, None)];

      var pair := store.IssuePair(subject, now);
      if pair.None? {
        return Err(Panicked);
      }
      var sid := nextSessionId;
      if nextSessionId >= U64_MAX {
        return Err(Panicked);
      }
      nextSessionId := nextSessionId + 1;
      var session := Session(sid, subject, now, now, pair.value, false);
      sessions := sessions[sid := session];
      return Ok(session);
    }

    method NoteFailure(subject: Subject)
      modifies this`attempts
      ensures attempts == old(attempts)[subject :=
        RecordFailure(if subject in old(attempts) then old(attempts)[subject] else Attempts(0, None))]
    {
      if subject !in attempts {
        attempts := attempts[subject := Attempts(0, None)];
      }
      var a := attempts[subject];
      attempts := attempts[subject := a.(count := Min(a.count + 1, U32_MAX))];
    }

    method Supersede(sid: nat)
      requires sid in sessions
      modifies this`sessions
      ensures sessions == Superseded(old(sessions), {sid})
    {
      sessions := sessions[sid := sessions[sid].(superseded := true)];
    }

    /** The check after revocation can never fail, so its rollback is dead code. */
    method Logout(sid: nat) returns (r: Result<(), AuthError>)
      modifies this`sessions, store
      ensures (State(), r) == LoggedOut(old(State()), sid)
    {
      if sid !in sessions {
        return Err(SessionNotFound);
      }
      var accessId, refreshId := sessions[sid].tokens.access.id, sessions[sid].tokens.refresh.id;
      store.Revoke(accessId);
      store.Revoke(refreshId);
      Supersede(sid);
      if accessId !in store.revoked || refreshId !in store.revoked {
        assert false;
      }
      return Ok(());
    }

    method LogoutForSubject(subject: Subject, sid: nat) returns (r: Result<(), AuthError>)
      modifies this`sessions, store
      ensures (State(), r) == LoggedOutFor(old(State()), subject, sid)
    {
      if sid !in sessions {
        return Err(SessionNotFound);
      }
      if sessions[sid].subject != subject {
        return Err(ValidationError);
      }
      r := Logout(sid);
    }

    /** Revokes and supersedes the listed sessions, in no particular order. */
    method EndSessions(ids: set<nat>)
      requires ids <= sessions.Keys
      modifies this`sessions, store
      ensures sessions == Superseded(old(sessions), ids)
      ensures store.State() == RevokedMany(old(store.State()), TokenIdsOf(old(sessions), ids))
    {
      ghost var s0, table := store.State(), sessions;
      var todo := ids;
      assert ids - todo == {};
      while todo != {}
        invariant todo <= ids
        invariant sessions == Superseded(table, ids - todo)
        invariant store.State() == RevokedMany(s0, TokenIdsOf(table, ids - todo))
      {
        var id :| id in todo;
        assert sessions[id].tokens == table[id].tokens;
        store.Revoke(sessions[id].tokens.access.id);
        store.Revoke(sessions[id].tokens.refresh.id);
        Supersede(id);
        RevokeOneMore(s0, table, ids - todo, id);
        assert ids - (todo - {id}) == (ids - todo) + {id};
        todo := todo - {id};
      }
      assert ids - todo == ids;
    }

    /** Ends the subject's live sessions, then sweeps the subject; the check that follows
        can never fail, so its rollback is dead code. */
    method LogoutAll(subject: Subject) returns (r: Result<nat, AuthError>)
      modifies this`sessions, store
      ensures (State(), r) == LoggedOutAll(old(State()), subject)
    {
      ghost var table := sessions;
      var ids := set k | k in sessions && sessions[k].subject == subject && !sessions[k].superseded;
      assert ids == LiveSessionsOf(old(State()), subject);
      var count := |ids| % (U32_MAX + 1);
      EndSessions(ids);
      store.RevokeAllForSubject(subject);
      var todo := ids;
      while todo != {}
        invariant todo <= ids
      {
        var id :| id in todo;
        assert sessions[id].tokens == table[id].tokens;
        assert sessions[id].tokens.access.id in TokenIdsOf(table, ids);
        assert sessions[id].tokens.refresh.id in TokenIdsOf(table, ids);
        if sessions[id].tokens.access.id !in store.revoked || sessions[id].tokens.refresh.id !in store.revoked {
          assert false;
        }
        todo := todo - {id};
      }
      return Ok(count);
    }

    method VerifyToken(tok: AccessToken, now: nat) returns (r: Result<Subject, AuthError>)
      ensures r == match Verify(store.State(), tok, now) case Ok(t) => Ok(t.subject) case Err(e) => Err(e)
    {
      var v := store.VerifyAccess(tok, now);
      match v
      case Ok(t) => return Ok(t.subject);
      case Err(e) => return Err(e);
    }

    /** `found` records which session the search settled on. The session cannot vanish
        between the search and the update, so that rollback is dead code. */
    method RefreshSession(tok: RefreshToken, now: nat)
      returns (r: Result<TokenPair, AuthError>, ghost found: Option<nat>)
      requires Valid()
      modifies this`sessions, store
      ensures tok.subject != [] ==> MayFind(old(State()), tok, found)
      ensures found.Some? ==> found.value in old(State()).sessions
      ensures (State(), r) == RefreshedSession(cfg, old(State()), tok, now, found)
    {
      ghost var s := State();
      found := None;
      if tok.subject == [] {
        return Err(ValidationError), None;
      }
      var sid: nat;
      var holders := set k | k in sessions && sessions[k].tokens.refresh.id == tok.id;
      if holders != {} {
        sid :| sid in holders;
      } else {
        assert !HoldsRefresh(s, tok.id) by {
          forall k | k in s.sessions ensures s.sessions[k].tokens.refresh.id != tok.id {
            assert k !in holders;
          }
        }
        var live := set k | k in sessions && sessions[k].subject == tok.subject && !sessions[k].superseded;
        assert live == LiveSessionsOf(s, tok.subject);
        if live == {} {
          if exists k :: k in sessions && sessions[k].subject == tok.subject && sessions[k].superseded {
            return Err(SessionSuperseded), None;
          }
          return Err(SessionNotFound), None;
        }
        sid :| sid in live;
      }
      found := Some(sid);
      var session := sessions[sid];
      if session.superseded {
        return Err(SessionSuperseded), Some(sid);
      }
      if session.subject != tok.subject {
        return Err(ValidationError), Some(sid);
      }
      r := store.Refresh(tok, now);
      if r == Err(TokenAlreadyUsed) {
        sessions := map k | k in sessions ::
          if sessions[k].subject == tok.subject then sessions[k].(superseded := true) else sessions[k];
        assert sessions == Superseded(s.sessions, set k | k in s.sessions && s.sessions[k].subject == tok.subject);
        return r, Some(sid);
      }
      if r.Err? {
        return r, Some(sid);
      }
      sessions := sessions[sid := session.(tokens := r.value, lastActivityAt := now)];
    }

    method RefreshSessionForSubject(expected: Subject, tok: RefreshToken, now: nat)
      returns (r: Result<TokenPair, AuthError>, ghost found: Option<nat>)
      requires Valid()
      modifies this`sessions, store
      ensures tok.subject != expected ==> State() == old(State()) && r == Err(ValidationError)
      ensures tok.subject == expected ==>
        && (tok.subject != [] ==> MayFind(old(State()), tok, found))
        && (found.Some? ==> found.value in old(State()).sessions)
        && (State(), r) == RefreshedSession(cfg, old(State()), tok, now, found)
    {
      if tok.subject != expected {
        return Err(ValidationError), None;
      }
      r, found := RefreshSession(tok, now);
    }
  }

  lemma RevokeOneMore(store: TokenStoreSnapshot, sessions: map<nat, Session>, ids: set<nat>, id: nat)
    requires ids <= sessions.Keys && id in sessions
    ensures var pair := sessions[id].tokens;
      Revoked(Revoked(RevokedMany(store, TokenIdsOf(sessions, ids)), pair.access.id), pair.refresh.id)
      == RevokedMany(store, TokenIdsOf(sessions, ids + {id}))
  {
    var pair := sessions[id].tokens;
    assert TokenIdsOf(sessions, ids + {id}) == TokenIdsOf(sessions, ids) + {pair.access.id, pair.refresh.id};
  }
}

/**
 What the messages of the zero-knowledge compliance contract decide, and for how long.

 The conditions are written out here on their own, and each message is held against them.
*/
module ZkDecisions {
  import opened Wrappers
  import opened ZkCompliance

  // ---------------------------------------------------------------------------
  // The verdict on a proof
  // ---------------------------------------------------------------------------

  /** There is a key to check the proof with, and its inputs and payload are well formed. */
  predicate Checkable(s: State, p: Proof, b: Backend) {
    b.inputsOk(p.publicInputs) && b.payloadOk(p.proofData) && p.proofType in s.keys && s.keys[p.proofType].isActive
  }

  function Verdict(s: State, p: Proof, b: Backend): Result<bool, Error>
    requires Checkable(s, p, b)
  {
    b.check(s.keys[p.proofType].serializedVk, p.publicInputs, p.proofData)
  }

  /** The check says no; a build without the backend always does. */
  predicate Refuted(s: State, p: Proof, b: Backend) {
    !b.compiled || (Checkable(s, p, b) && Verdict(s, p, b) == Ok(false))
  }

  /** The check cannot be carried out. */
  predicate Unchecked(s: State, p: Proof, b: Backend) {
    b.compiled && (!Checkable(s, p, b) || Verdict(s, p, b).Err?)
  }

  function Reason(s: State, p: Proof, b: Backend): Error
    requires Unchecked(s, p, b)
  {
    if !b.inputsOk(p.publicInputs) then InvalidInputs
    else if !b.payloadOk(p.proofData) then InvalidProof
    else if !Checkable(s, p, b) then VerificationKeyNotFound
    else Verdict(s, p, b).error
  }

  lemma OneVerdict(s: State, p: Proof, b: Backend)
    ensures AcceptedIn(s, p, b) || Refuted(s, p, b) || Unchecked(s, p, b)
    ensures !(AcceptedIn(s, p, b) && Refuted(s, p, b)) && !(AcceptedIn(s, p, b) && Unchecked(s, p, b))
    ensures !(Refuted(s, p, b) && Unchecked(s, p, b))
  {
    if b.compiled && Checkable(s, p, b) && Verdict(s, p, b).Ok? {
      var verdict := Verdict(s, p, b);
      assert verdict.value == true || verdict.value == false;
      assert verdict == Ok(true) || verdict == Ok(false);
    }
  }

  predicate MayReview(s: State, a: AccountId) {
    a in s.verifiers && s.verifiers[a] == true
  }

  // ---------------------------------------------------------------------------
  // Reviews
  // ---------------------------------------------------------------------------

  /** The decision that is booked: one more audit entry, one more decided proof, one more success or failure. */
  predicate Booked(s: State, t: State, k: ProofId, action: nat, now: nat)
    requires k in t.proofs
  {
    var p := t.proofs[k];
    && t.logs == s.logs[k.0 := (if k.0 in s.logs then s.logs[k.0] else []) + [AuditLog(p.proofType, p.status, now, action)]]
    && t.stats.total == s.stats.total + 1 && t.stats.lastUpdated == now
    && t.stats.successful == s.stats.successful + (if p.status == Verified then 1 else 0)
    && t.stats.failed == s.stats.failed + (if p.status == Verified then 0 else 1)
  }

  /** What an approved verifier's review of a pending proof does: verified exactly when it
      approves and the backend accepts, rejected exactly when it declines or the check says
      no, and left pending, with an error, exactly when the check cannot be carried out. */
  lemma ReviewDecides(s: State, caller: AccountId, account: AccountId, id: nat, approve: bool, now: nat, b: Backend)
    requires MayReview(s, caller) && Stored(s, (account, id), Pending)
    ensures var o, k := Step(s, Review(account, id, approve), caller, now, b), (account, id);
      var p := s.proofs[k];
      && (Stored(o.state, k, Verified) <==> approve && AcceptedIn(s, p, b))
      && (Stored(o.state, k, Rejected) <==> !approve || Refuted(s, p, b))
      && (Stored(o.state, k, Pending) <==> approve && Unchecked(s, p, b))
      && (o.result.Err? <==> Stored(o.state, k, Pending))
      && (approve && Unchecked(s, p, b) ==> o == Outcome(s, Err(Reason(s, p, b))))
      && (o.result.Ok? ==>
            && o.result == Ok(0) && k in o.state.proofs && o.state.proofs == s.proofs[k := p.(status := o.state.proofs[k].status, verifier := caller)]
            && Booked(s, o.state, k, if approve then 1 else 2, now)
            && o.state == s.(proofs := o.state.proofs, logs := o.state.logs, stats := o.state.stats))
  {}

  /** Every other review is refused for its reason and changes nothing. */
  lemma ReviewRefused(s: State, caller: AccountId, account: AccountId, id: nat, approve: bool, now: nat, b: Backend)
    requires !MayReview(s, caller) || !Stored(s, (account, id), Pending)
    ensures Step(s, Review(account, id, approve), caller, now, b)
      == Outcome(s, Err(if !MayReview(s, caller) then NotAuthorized
                        else if (account, id) !in s.proofs then ProofNotFound
                        else AlreadyVerified))
  {}

  // ---------------------------------------------------------------------------
  // Submissions
  // ---------------------------------------------------------------------------

  function NextId(s: State, a: AccountId): nat {
    if a in s.counter then s.counter[a] + 1 else 1
  }

  /** The submitted proof is stored under the account's next number, for 365 days. */
  predicate HoldsSubmission(s: State, t: State, call: Call, caller: AccountId, now: nat)
    requires call.Submit? || call.SubmitAndVerify?
  {
    var k := (caller, NextId(s, caller));
    && k in t.proofs && t.proofs == s.proofs[k := t.proofs[k]] && t.counter == s.counter[caller := k.1]
    && t.proofs[k] == Proof(call.proofType, t.proofs[k].status, call.inputs, call.data, now, now + 31_536_000_000, 0, call.metadata)
    && t.owner == s.owner && t.verifiers == s.verifiers && t.keys == s.keys
  }

  lemma SubmissionStores(s: State, call: Call, caller: AccountId, now: nat, b: Backend)
    requires call.Submit?
    ensures var o := Step(s, call, caller, now, b);
      && HoldsSubmission(s, o.state, call, caller, now) && Stored(o.state, (caller, NextId(s, caller)), Pending)
      && o.result == Ok(NextId(s, caller)) && o.state.stats == s.stats
      && o.state.logs == s.logs[caller := (if caller in s.logs then s.logs[caller] else []) + [AuditLog(call.proofType, Pending, now, 0)]]
  {}

  /** What a submission with its check does: stored as verified, and answered with its number,
      exactly when the backend accepts; rejected or left pending otherwise, with an error. */
  lemma SubmissionDecides(s: State, call: Call, caller: AccountId, now: nat, b: Backend)
    requires call.SubmitAndVerify?
    ensures var o, k := Step(s, call, caller, now, b), (caller, NextId(s, caller));
      && HoldsSubmission(s, o.state, call, caller, now)
      && var p := o.state.proofs[k];
         && (p.status == Verified <==> AcceptedIn(s, p, b))
         && (p.status == Rejected <==> Refuted(s, p, b))
         && (p.status == Pending <==> Unchecked(s, p, b))
         && (o.result.Ok? <==> p.status == Verified) && (o.result.Ok? ==> o.result == Ok(k.1))
         && (p.status == Rejected ==> o.result == Err(VerificationFailed))
         && (Unchecked(s, p, b) ==> o.result == Err(Reason(s, p, b)))
         && o.state.stats.successful == s.stats.successful + (if p.status == Verified then 1 else 0)
         && o.state.stats.failed == s.stats.failed + (if p.status == Rejected then 1 else 0)
  {}

  // ---------------------------------------------------------------------------
  // Validity
  // ---------------------------------------------------------------------------

  /** The account has a verified latest proof of the type with this expiry. */
  ghost predicate ValidUntil(s: State, a: AccountId, id: nat, proofType: ProofType, end: nat) {
    IsLatest(s, a, id, proofType) && Stored(s, (a, id), Verified) && s.proofs[(a, id)].expiresAt == end
  }

  lemma ReportedUntil(s: State, a: AccountId, id: nat, proofType: ProofType, end: nat, at: nat)
    requires IdsExact(s) && ValidUntil(s, a, id, proofType, end)
    ensures HasValidProof(s, a, proofType, at) <==> at < end
  {
    assert (a, id) in s.proofs;
    forall j: nat | IsLatest(s, a, j, proofType) ensures j == id {
      OneLatest(s, a, id, j, proofType);
    }
  }

  lemma OneLatest(s: State, a: AccountId, i: nat, j: nat, proofType: ProofType)
    requires IdsExact(s) && IsLatest(s, a, i, proofType) && IsLatest(s, a, j, proofType)
    ensures i == j
  {
    assert (a, i) in s.proofs && (a, j) in s.proofs;
  }

  /** An approving review of an account's latest proof of a type, where the backend accepts
      it, makes the account valid exactly until the proof's expiry. */
  lemma ReviewMakesValid(s: State, caller: AccountId, account: AccountId, id: nat, now: nat, b: Backend)
    requires IdsExact(s) && MayReview(s, caller) && Stored(s, (account, id), Pending)
    requires IsLatest(s, account, id, s.proofs[(account, id)].proofType) && AcceptedIn(s, s.proofs[(account, id)], b)
    ensures var t, p := Step(s, Review(account, id, true), caller, now, b).state, s.proofs[(account, id)];
      && IdsExact(t) && ValidUntil(t, account, id, p.proofType, p.expiresAt)
      && forall at: nat :: HasValidProof(t, account, p.proofType, at) <==> at < p.expiresAt
  {
    var t, p := Step(s, Review(account, id, true), caller, now, b).state, s.proofs[(account, id)];
    ReviewDecides(s, caller, account, id, true, now, b);
    assert t.proofs.Keys == s.proofs.Keys && t.counter == s.counter;
    forall j: nat | id < j <= Count(t.counter, account) ensures !IsOfType(t, account, j, p.proofType) {
      assert !IsOfType(s, account, j, p.proofType);
    }
    forall at: nat ensures HasValidProof(t, account, p.proofType, at) <==> at < p.expiresAt {
      ReportedUntil(t, account, id, p.proofType, p.expiresAt, at);
    }
  }

  /** A submission that the backend accepts makes its account valid for 365 days. */
  lemma SubmissionMakesValid(s: State, call: Call, caller: AccountId, now: nat, b: Backend)
    requires IdsExact(s) && call.SubmitAndVerify? && Step(s, call, caller, now, b).result.Ok?
    ensures var t := Step(s, call, caller, now, b).state;
      && IdsExact(t) && ValidUntil(t, caller, NextId(s, caller), call.proofType, now + 31_536_000_000)
      && forall at: nat :: HasValidProof(t, caller, call.proofType, at) <==> at < now + 31_536_000_000
  {
    var t := Step(s, call, caller, now, b).state;
    SubmissionDecides(s, call, caller, now, b);
    IdsSubmitted(s, t, caller, t.proofs[(caller, NextId(s, caller))]);
    forall at: nat ensures HasValidProof(t, caller, call.proofType, at) <==> at < now + 31_536_000_000 {
      ReportedUntil(t, caller, NextId(s, caller), call.proofType, now + 31_536_000_000, at);
    }
  }

  predicate Resubmits(tx: Transaction, a: AccountId, proofType: ProofType) {
    (tx.call.Submit? || tx.call.SubmitAndVerify?) && tx.caller == a && tx.call.proofType == proofType
  }

  lemma StepStaysValid(s: State, tx: Transaction, b: Backend, a: AccountId, id: nat, proofType: ProofType, end: nat)
    requires Inv(s) && ValidUntil(s, a, id, proofType, end) && !Resubmits(tx, a, proofType)
    ensures ValidUntil(Next(s, tx, b), a, id, proofType, end)
  {
    var t := Step(s, tx.call, tx.caller, tx.now, b).state;
    StepEvolves(s, tx.call, tx.caller, tx.now, b, (a, id));
    forall j: nat | id < j <= Count(t.counter, a) ensures !IsOfType(t, a, j, proofType) {
      if j <= Count(s.counter, a) {
        assert !IsOfType(s, a, j, proofType) && (a, j) in s.proofs;
        StepEvolves(s, tx.call, tx.caller, tx.now, b, (a, j));
      } else {
        NewIdOtherType(s, tx, b, a, j, proofType);
      }
    }
  }

  lemma NewIdOtherType(s: State, tx: Transaction, b: Backend, a: AccountId, j: nat, proofType: ProofType)
    requires j > Count(s.counter, a) && IdsExact(s) && !Resubmits(tx, a, proofType)
    ensures !IsOfType(Step(s, tx.call, tx.caller, tx.now, b).state, a, j, proofType)
  {
    assert (a, j) !in s.proofs;
    if tx.call.Submit? {
      SubmissionStores(s, tx.call, tx.caller, tx.now, b);
    } else if tx.call.SubmitAndVerify? {
      SubmissionDecides(s, tx.call, tx.caller, tx.now, b);
    } else {
      OthersAddNone(s, tx.call, tx.caller, tx.now, b);
    }
  }

  lemma OthersAddNone(s: State, call: Call, caller: AccountId, now: nat, b: Backend)
    requires !call.Submit? && !call.SubmitAndVerify?
    ensures Step(s, call, caller, now, b).state.proofs.Keys == s.proofs.Keys
  {}

  /** Whatever messages follow, the account stays valid exactly until that expiry, unless it
      submits another proof of the type. */
  lemma {:induction false} StaysValid(s: State, txs: seq<Transaction>, b: Backend, a: AccountId, id: nat, proofType: ProofType,
      end: nat, at: nat)
    requires Inv(s) && ValidUntil(s, a, id, proofType, end)
    requires forall tx :: tx in txs ==> !Resubmits(tx, a, proofType)
    ensures Inv(Run(s, txs, b)) && ValidUntil(Run(s, txs, b), a, id, proofType, end)
    ensures HasValidProof(Run(s, txs, b), a, proofType, at) <==> at < end
    decreases |txs|
  {
    if txs != [] {
      var n := |txs| - 1;
      StaysValid(s, txs[..n], b, a, id, proofType, end, at);
      StepKeeps(Run(s, txs[..n], b), txs[n].call, txs[n].caller, txs[n].now, b);
      StepStaysValid(Run(s, txs[..n], b), txs[n], b, a, id, proofType, end);
    }
    ReportedUntil(Run(s, txs, b), a, id, proofType, end, at);
  }

  // ---------------------------------------------------------------------------
  // Administration
  // ---------------------------------------------------------------------------

  /** Only the owner changes the verifier table, and only the entry named. */
  lemma VerifierTable(s: State, call: Call, caller: AccountId, now: nat, b: Backend)
    ensures var o := Step(s, call, caller, now, b);
      && o.state.verifiers ==
           (if caller != s.owner then s.verifiers
            else if call.AddVerifier? then s.verifiers[call.verifier := true]
            else if call.RemoveVerifier? then s.verifiers[call.verifier := false]
            else s.verifiers)
      && o.state.owner == s.owner
      && ((call.AddVerifier? || call.RemoveVerifier? || call.SetKey? || call.DeactivateKey?) && caller != s.owner ==>
            o == Outcome(s, Err(NotAuthorized)))
      && (call.AddVerifier? || call.RemoveVerifier? ==> (o.result == Ok(0) <==> caller == s.owner))
  {}

  /** The owner sets a key that fits: active, under the next version, and the only change. */
  lemma KeyTable(s: State, call: Call, now: nat, b: Backend)
    requires call.SetKey?
    ensures var o := Step(s, call, s.owner, now, b);
      var version := if call.proofType in s.keys then s.keys[call.proofType].version + 1 else 1;
      && (o.result.Ok? <==> 1 <= |call.vk| <= 1024 && (b.compiled ==> b.keyOk(call.vk)))
      && (o.result.Err? ==> o == Outcome(s, Err(InvalidVerificationKey)))
      && (o.result.Ok? ==> o == Outcome(s.(keys := s.keys[call.proofType := KeyRecord(version, call.vk, call.vkHash, true)]), Ok(version)))
  {}

  /** A key that the owner deactivates is kept, and no proof of its type is accepted or stored as verified before a new one. */
  lemma KeyRetired(s: State, proofType: ProofType, now: nat, b: Backend, p: Proof)
    ensures var o := Step(s, DeactivateKey(proofType), s.owner, now, b);
      && (o.result == Ok(0) <==> proofType in s.keys)
      && (o.result.Err? ==> o == Outcome(s, Err(VerificationKeyNotFound)))
      && (o.result.Ok? ==>
            && o.state == s.(keys := s.keys[proofType := s.keys[proofType].(isActive := false)])
            && (p.proofType == proofType ==> !AcceptedIn(o.state, p, b)))
  {}

  /** An audit entry is appended for the account itself or by a verifier, and by nobody else. */
  lemma AuditEntries(s: State, account: AccountId, action: nat, proofType: ProofType, caller: AccountId, now: nat, b: Backend)
    ensures Step(s, AuditEntry(account, action, proofType), caller, now, b) ==
      if caller == account || MayReview(s, caller) then
        Outcome(s.(logs := s.logs[account := (if account in s.logs then s.logs[account] else [])
                                             + [AuditLog(proofType, NotSubmitted, now, action)]]), Ok(0))
      else Outcome(s, Err(NotAuthorized))
  {}
}

/** The zero-knowledge compliance contract: proofs, their review, verification keys and statistics. */
module ZkCompliance {
  import opened Wrappers

  type AccountId = nat

  type ProofId = (AccountId, nat)

  datatype ProofType =
    | IdentityVerification | ComplianceCheck | PropertyOwnership | FinancialStanding | AgeVerification
    | AccreditedInvestor | AddressOwnership | IncomeVerification | Creditworthiness

  datatype Status = NotSubmitted | Pending | Verified | Rejected | Expired

  datatype Error =
    | NotAuthorized | ProofNotFound | InvalidProof | VerificationFailed | AlreadyVerified | InvalidInputs
    | VerificationKeyNotFound | InvalidVerificationKey

  /** 365 days in milliseconds. */
  const VALIDITY: nat := 31_536_000_000
  const MAX_PROOF_LEN: nat := 1024
  const NOBODY: AccountId := 0

  datatype Proof = Proof(
    proofType: ProofType,
    status: Status,
    publicInputs: seq<bytes>,
    proofData: bytes,
    createdAt: nat,
    expiresAt: nat,
    verifier: AccountId,
    metadata: bytes
  )

  datatype KeyRecord = KeyRecord(version: nat, serializedVk: bytes, vkHash: bytes, isActive: bool)

  datatype AuditLog = AuditLog(proofType: ProofType, status: Status, timestamp: nat, action: nat)

  datatype Stats = Stats(total: nat, successful: nat, failed: nat, lastUpdated: nat)

  /** The proof system is a parameter; `compiled` is the `zk` feature of the build. */
  datatype Backend = Backend(
    compiled: bool,
    inputsOk: seq<bytes> -> bool,
    payloadOk: bytes -> bool,
    keyOk: bytes -> bool,
    check: (bytes, seq<bytes>, bytes) -> Result<bool, Error>
  )

  datatype State = State(
    owner: AccountId,
    proofs: map<ProofId, Proof>,
    counter: map<AccountId, nat>,
    verifiers: map<AccountId, bool>,
    logs: map<AccountId, seq<AuditLog>>,
    stats: Stats,
    keys: map<ProofType, KeyRecord>
  )

  function Count(counter: map<AccountId, nat>, a: AccountId): nat {
    if a in counter then counter[a] else 0
  }

  function LogsOf(logs: map<AccountId, seq<AuditLog>>, a: AccountId): seq<AuditLog> {
    if a in logs then logs[a] else []
  }

  function Approved(verifiers: map<AccountId, bool>, a: AccountId): bool {
    a in verifiers && verifiers[a]
  }

  function Logged(logs: map<AccountId, seq<AuditLog>>, a: AccountId, entry: AuditLog): map<AccountId, seq<AuditLog>> {
    logs[a := LogsOf(logs, a) + [entry]]
  }

  function Perform(keys: map<ProofType, KeyRecord>, p: Proof, b: Backend): Result<bool, Error> {
    if !b.compiled then Ok(false)
    else if !b.inputsOk(p.publicInputs) then Err(InvalidInputs)
    else if !b.payloadOk(p.proofData) then Err(InvalidProof)
    else if p.proofType !in keys || !keys[p.proofType].isActive then Err(VerificationKeyNotFound)
    else b.check(keys[p.proofType].serializedVk, p.publicInputs, p.proofData)
  }

  // ---------------------------------------------------------------------------
  // The messages
  // ---------------------------------------------------------------------------

  datatype Call =
    | Submit(proofType: ProofType, inputs: seq<bytes>, data: bytes, metadata: bytes)
    | Review(account: AccountId, id: nat, approve: bool)
    | SubmitAndVerify(proofType: ProofType, inputs: seq<bytes>, data: bytes, metadata: bytes)
    | AddVerifier(verifier: AccountId)
    | RemoveVerifier(verifier: AccountId)
    | SetKey(proofType: ProofType, vk: bytes, vkHash: bytes)
    | DeactivateKey(proofType: ProofType)
    | AuditEntry(account: AccountId, action: nat, proofType: ProofType)

  datatype Outcome = Outcome(state: State, result: Result<nat, Error>)

  function Submitted(s: State, caller: AccountId, proofType: ProofType, inputs: seq<bytes>, data: bytes, metadata: bytes,
      now: nat): State
  {
    var id := Count(s.counter, caller) + 1;
    s.(proofs := s.proofs[(caller, id) := Proof(proofType, Pending, inputs, data, now, now + VALIDITY, NOBODY, metadata)],
       counter := s.counter[caller := id],
       logs := Logged(s.logs, caller, AuditLog(proofType, Pending, now, 0)))
  }

  /** The proof `k` decided as `status`, logged and counted. */
  function Decided(s: State, k: ProofId, p: Proof, action: nat, now: nat): State {
    var success := p.status == Verified;
    s.(proofs := s.proofs[k := p],
       logs := Logged(s.logs, k.0, AuditLog(p.proofType, p.status, now, action)),
       stats := Stats(s.stats.total + 1,
                      if success then s.stats.successful + 1 else s.stats.successful,
                      if success then s.stats.failed else s.stats.failed + 1, now))
  }

  function Reviewed(s: State, caller: AccountId, account: AccountId, id: nat, approve: bool, now: nat, b: Backend): Outcome {
    if !Approved(s.verifiers, caller) then Outcome(s, Err(NotAuthorized))
    else if (account, id) !in s.proofs then Outcome(s, Err(ProofNotFound))
    else
      var p := s.proofs[(account, id)];
      if p.status != Pending then Outcome(s, Err(AlreadyVerified))
      else
        var checked := if approve then Perform(s.keys, p, b) else Ok(false);
        if checked.Err? then Outcome(s, Err(checked.error))
        else
          var status := if approve && checked.value then Verified else Rejected;
          Outcome(Decided(s, (account, id), p.(status := status, verifier := caller), if approve then 1 else 2, now), Ok(0))
  }

  /** A failed check returns an error after the proof is stored: pending if the check could not run, else rejected. */
  function SubmittedAndVerified(s: State, caller: AccountId, proofType: ProofType, inputs: seq<bytes>, data: bytes,
      metadata: bytes, now: nat, b: Backend): Outcome
  {
    var t := Submitted(s, caller, proofType, inputs, data, metadata, now);
    var id := Count(t.counter, caller);
    var p := t.proofs[(caller, id)];
    var checked := Perform(t.keys, p, b);
    if checked.Err? then Outcome(t, Err(checked.error))
    else if !checked.value then Outcome(Decided(t, (caller, id), p.(status := Rejected), 2, now), Err(VerificationFailed))
    else Outcome(Decided(t, (caller, id), p.(status := Verified), 1, now), Ok(id))
  }

  function KeySet(s: State, caller: AccountId, proofType: ProofType, vk: bytes, vkHash: bytes, b: Backend): Outcome {
    if caller != s.owner then Outcome(s, Err(NotAuthorized))
    else if vk == [] || |vk| > MAX_PROOF_LEN then Outcome(s, Err(InvalidVerificationKey))
    else if b.compiled && !b.keyOk(vk) then Outcome(s, Err(InvalidVerificationKey))
    else
      var version := if proofType in s.keys then s.keys[proofType].version + 1 else 1;
      Outcome(s.(keys := s.keys[proofType := KeyRecord(version, vk, vkHash, true)]), Ok(version))
  }

  function KeyDeactivated(s: State, caller: AccountId, proofType: ProofType): Outcome {
    if caller != s.owner then Outcome(s, Err(NotAuthorized))
    else if proofType !in s.keys then Outcome(s, Err(VerificationKeyNotFound))
    else Outcome(s.(keys := s.keys[proofType := s.keys[proofType].(isActive := false)]), Ok(0))
  }

  function Step(s: State, call: Call, caller: AccountId, now: nat, b: Backend): Outcome {
    match call
    case Submit(proofType, inputs, data, metadata) =>
      Outcome(Submitted(s, caller, proofType, inputs, data, metadata, now), Ok(Count(s.counter, caller) + 1))
    case Review(account, id, approve) => Reviewed(s, caller, account, id, approve, now, b)
    case SubmitAndVerify(proofType, inputs, data, metadata) =>
      SubmittedAndVerified(s, caller, proofType, inputs, data, metadata, now, b)
    case AddVerifier(v) =>
      if caller != s.owner then Outcome(s, Err(NotAuthorized)) else Outcome(s.(verifiers := s.verifiers[v := true]), Ok(0))
    case RemoveVerifier(v) =>
      if caller != s.owner then Outcome(s, Err(NotAuthorized)) else Outcome(s.(verifiers := s.verifiers[v := false]), Ok(0))
    case SetKey(proofType, vk, vkHash) => KeySet(s, caller, proofType, vk, vkHash, b)
    case DeactivateKey(proofType) => KeyDeactivated(s, caller, proofType)
    case AuditEntry(account, action, proofType) =>
      if caller != account && !Approved(s.verifiers, caller) then Outcome(s, Err(NotAuthorized))
      else Outcome(s.(logs := Logged(s.logs, account, AuditLog(proofType, NotSubmitted, now, action))), Ok(0))
  }

  /** One transaction; the host may undo the writes of a message that returns an error. */
  datatype Transaction = Transaction(call: Call, caller: AccountId, now: nat, undone: bool)

  function Next(s: State, tx: Transaction, b: Backend): State {
    var o := Step(s, tx.call, tx.caller, tx.now, b);
    if o.result.Err? && tx.undone then s else o.state
  }

  function Run(s: State, txs: seq<Transaction>, b: Backend): State {
    if txs == [] then s else Next(Run(s, txs[..|txs| - 1], b), txs[|txs| - 1], b)
  }

  function Initial(owner: AccountId, now: nat): State {
    State(owner, map[], map[], map[], map[], Stats(0, 0, 0, now), map[])
  }

  // ---------------------------------------------------------------------------
  // The invariant
  // ---------------------------------------------------------------------------

  /** The stored ids of every account are exactly 1 to its counter. */
  ghost predicate IdsExact(s: State) {
    forall a: AccountId, i: nat :: (a, i) in s.proofs <==> 1 <= i <= Count(s.counter, a)
  }

  function With(proofs: map<ProofId, Proof>, status: Status): set<ProofId> {
    set k | k in proofs && proofs[k].status == status
  }

  function WithOf(proofs: map<ProofId, Proof>, a: AccountId, status: Status): set<ProofId> {
    set k | k in proofs && k.0 == a && proofs[k].status == status
  }

  /** The statistics count the decided proofs of all accounts. */
  ghost predicate StatsExact(s: State) {
    && s.stats.successful == |With(s.proofs, Verified)|
    && s.stats.failed == |With(s.proofs, Rejected)|
    && s.stats.total == s.stats.successful + s.stats.failed
  }

  predicate StatusesExpected(s: State) {
    forall k :: k in s.proofs ==> s.proofs[k].status in {Pending, Verified, Rejected}
  }

  /** The backend accepts the proof under the key. */
  predicate AcceptedUnder(p: Proof, vk: bytes, b: Backend) {
    b.compiled && b.inputsOk(p.publicInputs) && b.payloadOk(p.proofData) && b.check(vk, p.publicInputs, p.proofData) == Ok(true)
  }

  /** Whether the account's proof with this id is stored with this status. */
  predicate Stored(s: State, k: ProofId, status: Status) {
    k in s.proofs && s.proofs[k].status == status
  }

  /** The backend accepts the proof under the active key registered for its type in state `s`. */
  predicate AcceptedIn(s: State, p: Proof, b: Backend) {
    && p.proofType in s.keys && s.keys[p.proofType].isActive
    && AcceptedUnder(p, s.keys[p.proofType].serializedVk, b)
  }

  function LogCount(logs: seq<AuditLog>, status: Status): nat {
    if logs == [] then 0
    else LogCount(logs[..|logs| - 1], status) + (if logs[|logs| - 1].status == status then 1 else 0)
  }

  /** The audit trail of an account has one entry per submission and one per decision. */
  ghost predicate TrailExactFor(s: State, a: AccountId) {
    && LogCount(LogsOf(s.logs, a), Pending) == Count(s.counter, a)
    && LogCount(LogsOf(s.logs, a), Verified) == |WithOf(s.proofs, a, Verified)|
    && LogCount(LogsOf(s.logs, a), Rejected) == |WithOf(s.proofs, a, Rejected)|
  }

  ghost predicate TrailExact(s: State) {
    forall a: AccountId :: TrailExactFor(s, a)
  }

  ghost predicate Inv(s: State) {
    IdsExact(s) && StatsExact(s) && StatusesExpected(s) && TrailExact(s)
  }

  lemma WithUpdate(proofs: map<ProofId, Proof>, k: ProofId, p: Proof, status: Status)
    ensures With(proofs[k := p], status) == if p.status == status then With(proofs, status) + {k} else With(proofs, status) - {k}
  {}

  lemma WithOfUpdate(proofs: map<ProofId, Proof>, k: ProofId, p: Proof, a: AccountId, status: Status)
    ensures WithOf(proofs[k := p], a, status) ==
      if k.0 != a then WithOf(proofs, a, status)
      else if p.status == status then WithOf(proofs, a, status) + {k} else WithOf(proofs, a, status) - {k}
  {}

  lemma LogCountAppend(logs: seq<AuditLog>, entry: AuditLog, status: Status)
    ensures LogCount(logs + [entry], status) == LogCount(logs, status) + (if entry.status == status then 1 else 0)
  {
    assert (logs + [entry])[..|logs|] == logs;
  }

  /** A new pending proof changes neither set of decided proofs. */
  lemma PendingUncounted(proofs: map<ProofId, Proof>, k: ProofId, p: Proof, a: AccountId, status: Status)
    requires k !in proofs && p.status == Pending && status != Pending
    ensures With(proofs[k := p], status) == With(proofs, status)
    ensures WithOf(proofs[k := p], a, status) == WithOf(proofs, a, status)
  {
    WithUpdate(proofs, k, p, status);
    WithOfUpdate(proofs, k, p, a, status);
  }

  lemma TrailSubmitted(s: State, t: State, k: ProofId, p: Proof, entry: AuditLog, a: AccountId)
    requires TrailExactFor(s, a)
    requires k !in s.proofs && p.status == Pending && entry.status == Pending
    requires t.proofs == s.proofs[k := p] && t.logs == Logged(s.logs, k.0, entry)
    requires t.counter == s.counter[k.0 := Count(s.counter, k.0) + 1]
    ensures TrailExactFor(t, a)
  {
    PendingUncounted(s.proofs, k, p, a, Verified);
    PendingUncounted(s.proofs, k, p, a, Rejected);
    if a == k.0 {
      LogCountAppend(LogsOf(s.logs, a), entry, Pending);
      LogCountAppend(LogsOf(s.logs, a), entry, Verified);
      LogCountAppend(LogsOf(s.logs, a), entry, Rejected);
    }
  }

  lemma IdsSubmitted(s: State, t: State, caller: AccountId, p: Proof)
    requires IdsExact(s)
    requires t.proofs == s.proofs[(caller, Count(s.counter, caller) + 1) := p]
    requires t.counter == s.counter[caller := Count(s.counter, caller) + 1]
    ensures IdsExact(t)
  {
    forall a: AccountId, i: nat ensures (a, i) in t.proofs <==> 1 <= i <= Count(t.counter, a) {
      assert (a, i) in s.proofs <==> 1 <= i <= Count(s.counter, a);
    }
  }

  lemma SubmittedKeeps(s: State, caller: AccountId, proofType: ProofType, inputs: seq<bytes>, data: bytes, metadata: bytes,
      now: nat)
    requires Inv(s)
    ensures Inv(Submitted(s, caller, proofType, inputs, data, metadata, now))
  {
    var t := Submitted(s, caller, proofType, inputs, data, metadata, now);
    var k := (caller, Count(s.counter, caller) + 1);
    var p := t.proofs[k];
    assert k !in s.proofs;
    IdsSubmitted(s, t, caller, p);
    PendingUncounted(s.proofs, k, p, caller, Verified);
    PendingUncounted(s.proofs, k, p, caller, Rejected);
    assert TrailExact(t) by {
      forall a: AccountId ensures TrailExactFor(t, a) {
        assert TrailExactFor(s, a);
        TrailSubmitted(s, t, k, p, AuditLog(proofType, Pending, now, 0), a);
      }
    }
  }

  /** Deciding a pending proof adds it to the set of its status and to no other. */
  lemma PendingDecided(proofs: map<ProofId, Proof>, k: ProofId, p: Proof, a: AccountId, status: Status)
    requires k in proofs && proofs[k].status == Pending && status != Pending
    ensures |With(proofs[k := p], status)| == |With(proofs, status)| + (if p.status == status then 1 else 0)
    ensures |WithOf(proofs[k := p], a, status)|
      == |WithOf(proofs, a, status)| + (if p.status == status && k.0 == a then 1 else 0)
  {
    WithUpdate(proofs, k, p, status);
    WithOfUpdate(proofs, k, p, a, status);
    assert k !in With(proofs, status) && k !in WithOf(proofs, a, status);
    assert With(proofs, status) - {k} == With(proofs, status);
    assert WithOf(proofs, a, status) - {k} == WithOf(proofs, a, status);
  }

  lemma TrailDecided(s: State, k: ProofId, p: Proof, action: nat, now: nat, a: AccountId)
    requires TrailExactFor(s, a) && k in s.proofs && s.proofs[k].status == Pending && p.status in {Verified, Rejected}
    ensures TrailExactFor(Decided(s, k, p, action, now), a)
  {
    PendingDecided(s.proofs, k, p, a, Verified);
    PendingDecided(s.proofs, k, p, a, Rejected);
    if a == k.0 {
      var entry := AuditLog(p.proofType, p.status, now, action);
      LogCountAppend(LogsOf(s.logs, a), entry, Pending);
      LogCountAppend(LogsOf(s.logs, a), entry, Verified);
      LogCountAppend(LogsOf(s.logs, a), entry, Rejected);
    }
  }

  lemma DecidedKeeps(s: State, k: ProofId, p: Proof, action: nat, now: nat)
    requires Inv(s) && k in s.proofs && s.proofs[k].status == Pending && p.status in {Verified, Rejected}
    ensures Inv(Decided(s, k, p, action, now))
  {
    var t := Decided(s, k, p, action, now);
    PendingDecided(s.proofs, k, p, k.0, Verified);
    PendingDecided(s.proofs, k, p, k.0, Rejected);
    forall a: AccountId ensures TrailExactFor(t, a) {
      assert TrailExactFor(s, a);
      TrailDecided(s, k, p, action, now, a);
    }
  }

  lemma ReviewedKeeps(s: State, caller: AccountId, account: AccountId, id: nat, approve: bool, now: nat, b: Backend)
    requires Inv(s)
    ensures Inv(Reviewed(s, caller, account, id, approve, now, b).state)
  {
    var k := (account, id);
    if Approved(s.verifiers, caller) && k in s.proofs && s.proofs[k].status == Pending {
      var p := s.proofs[k];
      var checked := if approve then Perform(s.keys, p, b) else Ok(false);
      if checked.Ok? {
        var status := if approve && checked.value then Verified else Rejected;
        DecidedKeeps(s, k, p.(status := status, verifier := caller), if approve then 1 else 2, now);
      }
    }
  }

  lemma SubmittedAndVerifiedKeeps(s: State, caller: AccountId, proofType: ProofType, inputs: seq<bytes>, data: bytes,
      metadata: bytes, now: nat, b: Backend)
    requires Inv(s)
    ensures Inv(SubmittedAndVerified(s, caller, proofType, inputs, data, metadata, now, b).state)
  {
    SubmittedKeeps(s, caller, proofType, inputs, data, metadata, now);
    var t := Submitted(s, caller, proofType, inputs, data, metadata, now);
    var k := (caller, Count(t.counter, caller));
    var p := t.proofs[k];
    var checked := Perform(t.keys, p, b);
    if checked.Ok? {
      if checked.value {
        DecidedKeeps(t, k, p.(status := Verified), 1, now);
      } else {
        DecidedKeeps(t, k, p.(status := Rejected), 2, now);
      }
    }
  }

  lemma AuditEntryKeeps(s: State, account: AccountId, entry: AuditLog)
    requires Inv(s) && entry.status == NotSubmitted
    ensures Inv(s.(logs := Logged(s.logs, account, entry)))
  {
    var t := s.(logs := Logged(s.logs, account, entry));
    forall a: AccountId ensures TrailExactFor(t, a) {
      assert TrailExactFor(s, a);
      LogCountAppend(LogsOf(s.logs, a), entry, Pending);
      LogCountAppend(LogsOf(s.logs, a), entry, Verified);
      LogCountAppend(LogsOf(s.logs, a), entry, Rejected);
    }
  }

  lemma SameBooksKeep(s: State, t: State)
    requires Inv(s) && t.proofs == s.proofs && t.counter == s.counter && t.logs == s.logs && t.stats == s.stats
    ensures Inv(t)
  {
    forall a: AccountId ensures TrailExactFor(t, a) {
      assert TrailExactFor(s, a);
    }
  }

  /** Verifier and key administration. */
  lemma OthersKeep(s: State, call: Call, caller: AccountId, now: nat, b: Backend)
    requires Inv(s) && (call.AddVerifier? || call.RemoveVerifier? || call.SetKey? || call.DeactivateKey?)
    ensures Inv(Step(s, call, caller, now, b).state)
  {
    SameBooksKeep(s, Step(s, call, caller, now, b).state);
  }

  lemma StepKeeps(s: State, call: Call, caller: AccountId, now: nat, b: Backend)
    requires Inv(s)
    ensures Inv(Step(s, call, caller, now, b).state)
  {
    match call
    case Submit(proofType, inputs, data, metadata) => SubmittedKeeps(s, caller, proofType, inputs, data, metadata, now);
    case Review(account, id, approve) => ReviewedKeeps(s, caller, account, id, approve, now, b);
    case SubmitAndVerify(proofType, inputs, data, metadata) =>
      SubmittedAndVerifiedKeeps(s, caller, proofType, inputs, data, metadata, now, b);
    case AuditEntry(account, action, proofType) =>
      AuditEntryKeeps(s, account, AuditLog(proofType, NotSubmitted, now, action));
    case _ => OthersKeep(s, call, caller, now, b);
  }

  lemma InitialInv(owner: AccountId, now: nat)
    ensures Inv(Initial(owner, now))
  {
    var s := Initial(owner, now);
    assert With(s.proofs, Verified) == {} && With(s.proofs, Rejected) == {};
    forall a: AccountId ensures TrailExactFor(s, a) {
      assert WithOf(s.proofs, a, Verified) == {} && WithOf(s.proofs, a, Rejected) == {};
    }
  }

  /**
   * In every reachable state ids are contiguous, and the statistics and the
   * audit trail count the stored proofs, whether or not the host undoes
   * messages that fail.
   */
  lemma {:induction false} RunsKeepInv(owner: AccountId, start: nat, txs: seq<Transaction>, b: Backend)
    ensures Inv(Run(Initial(owner, start), txs, b))
    decreases |txs|
  {
    if txs == [] {
      InitialInv(owner, start);
    } else {
      var tx := txs[|txs| - 1];
      RunsKeepInv(owner, start, txs[..|txs| - 1], b);
      StepKeeps(Run(Initial(owner, start), txs[..|txs| - 1], b), tx.call, tx.caller, tx.now, b);
    }
  }

  // ---------------------------------------------------------------------------
  // What one state says about later ones
  // ---------------------------------------------------------------------------

  /** What was submitted stays, and a decision is final. */
  predicate ProofEvolves(p: Proof, q: Proof) {
    && q.proofType == p.proofType && q.publicInputs == p.publicInputs && q.proofData == p.proofData
    && q.metadata == p.metadata && q.createdAt == p.createdAt && q.expiresAt == p.expiresAt
    && (p.status != Pending ==> q == p)
    && (q.status != p.status ==> p.status == Pending && q.status in {Verified, Rejected})
  }

  predicate ProofsEvolve(s: State, t: State) {
    forall k :: k in s.proofs ==> k in t.proofs && ProofEvolves(s.proofs[k], t.proofs[k])
  }

  /** A version names one key: it is never reused for other bytes and never reactivated. */
  predicate KeyEvolves(r: KeyRecord, q: KeyRecord) {
    && r.version <= q.version
    && (q.version == r.version ==> q.serializedVk == r.serializedVk && q.vkHash == r.vkHash && (q.isActive ==> r.isActive))
  }

  predicate KeysEvolve(s: State, t: State) {
    forall k :: k in s.keys ==> k in t.keys && KeyEvolves(s.keys[k], t.keys[k])
  }

  /** A proof changes status only from pending; to verified only under an active key the backend accepts it with. */
  lemma StepEvolves(s: State, call: Call, caller: AccountId, now: nat, b: Backend, k: ProofId)
    requires IdsExact(s) && k in s.proofs
    ensures var t := Step(s, call, caller, now, b).state;
      && k in t.proofs && ProofEvolves(s.proofs[k], t.proofs[k])
      && (t.proofs[k].status != s.proofs[k].status ==>
            call.Review? && k == (call.account, call.id) && Approved(s.verifiers, caller))
      && (t.proofs[k].status == Verified && s.proofs[k].status != Verified ==>
            call.approve && s.proofs[k].proofType in s.keys && s.keys[s.proofs[k].proofType].isActive
            && AcceptedUnder(s.proofs[k], s.keys[s.proofs[k].proofType].serializedVk, b))
  {
    if call.Submit? || call.SubmitAndVerify? {
      assert (caller, Count(s.counter, caller) + 1) !in s.proofs;
    }
  }

  lemma StepKeysEvolve(s: State, call: Call, caller: AccountId, now: nat, b: Backend)
    ensures KeysEvolve(s, Step(s, call, caller, now, b).state)
  {}

  lemma ProofsEvolveTrans(s: State, t: State, u: State)
    requires ProofsEvolve(s, t) && ProofsEvolve(t, u)
    ensures ProofsEvolve(s, u)
  {
    forall k | k in s.proofs ensures k in u.proofs && ProofEvolves(s.proofs[k], u.proofs[k]) {
      assert ProofEvolves(s.proofs[k], t.proofs[k]) && ProofEvolves(t.proofs[k], u.proofs[k]);
    }
  }

  lemma KeysEvolveTrans(s: State, t: State, u: State)
    requires KeysEvolve(s, t) && KeysEvolve(t, u)
    ensures KeysEvolve(s, u)
  {
    forall k | k in s.keys ensures k in u.keys && KeyEvolves(s.keys[k], u.keys[k]) {
      assert KeyEvolves(s.keys[k], t.keys[k]) && KeyEvolves(t.keys[k], u.keys[k]);
    }
  }

  /** A proof that a step makes verified, whether new or reviewed, is accepted under the key active at that step. */
  lemma StepVerifies(s: State, call: Call, caller: AccountId, now: nat, b: Backend, k: ProofId)
    requires IdsExact(s)
    requires Stored(Step(s, call, caller, now, b).state, k, Verified)
    ensures var t := Step(s, call, caller, now, b).state;
      (k in s.proofs && s.proofs[k] == t.proofs[k])
      || (AcceptedIn(s, t.proofs[k], b) && DecidesOn(s, Transaction(call, caller, now, false), k))
  {
    if call.Submit? || call.SubmitAndVerify? {
      assert (caller, Count(s.counter, caller) + 1) !in s.proofs;
    }
  }

  /** The state before transaction i of a run. */
  function Before(owner: AccountId, start: nat, txs: seq<Transaction>, i: nat, b: Backend): State
    requires i <= |txs|
  {
    Run(Initial(owner, start), txs[..i], b)
  }

  /** The transaction is the one that can decide proof k: an approving review by an approved verifier, or its own submission. */
  predicate DecidesOn(s: State, tx: Transaction, k: ProofId) {
    || (tx.call.Review? && tx.call.approve && k == (tx.call.account, tx.call.id) && Approved(s.verifiers, tx.caller))
    || (tx.call.SubmitAndVerify? && k == (tx.caller, Count(s.counter, tx.caller) + 1))
  }

  /** Transaction i decided proof k, which the backend accepts under the key then active for its type. */
  predicate AcceptedBy(owner: AccountId, start: nat, txs: seq<Transaction>, i: nat, k: ProofId, p: Proof, b: Backend)
    requires i < |txs|
  {
    var s := Before(owner, start, txs, i, b);
    DecidesOn(s, txs[i], k) && !Stored(s, k, Verified) && AcceptedIn(s, p, b)
  }

  ghost predicate AcceptedDuring(owner: AccountId, start: nat, txs: seq<Transaction>, k: ProofId, p: Proof, b: Backend) {
    exists i: nat :: i < |txs| && AcceptedBy(owner, start, txs, i, k, p, b)
  }

  /**
   * No proof is verified unless the backend accepted it: in every run, each
   * verified proof was decided by one of the transactions, an approved
   * verifier's review or its account's own submission, and the backend accepts
   * it under the key that was registered for its type and active just then.
   */
  lemma {:induction false} VerifiedWasAccepted(owner: AccountId, start: nat, txs: seq<Transaction>, b: Backend, k: ProofId)
    requires Stored(Run(Initial(owner, start), txs, b), k, Verified)
    ensures AcceptedDuring(owner, start, txs, k, Run(Initial(owner, start), txs, b).proofs[k], b)
    decreases |txs|
  {
    assert txs != [];
    var n := |txs| - 1;
    var tx, s := txs[n], Run(Initial(owner, start), txs[..n], b);
    RunsKeepInv(owner, start, txs[..n], b);
    if Stored(s, k, Verified) {
      StepEvolves(s, tx.call, tx.caller, tx.now, b, k);
      VerifiedWasAccepted(owner, start, txs[..n], b, k);
      var i: nat :| i < n && AcceptedBy(owner, start, txs[..n], i, k, s.proofs[k], b);
      assert txs[..n][..i] == txs[..i];
      assert AcceptedBy(owner, start, txs, i, k, s.proofs[k], b);
    } else {
      StepVerifies(s, tx.call, tx.caller, tx.now, b, k);
      assert AcceptedBy(owner, start, txs, n, k, Run(Initial(owner, start), txs, b).proofs[k], b);
    }
  }

  /** Over any run from a reachable state, decisions stay and key versions keep their meaning. */
  lemma {:induction false} RunsEvolve(s: State, txs: seq<Transaction>, b: Backend)
    requires Inv(s)
    ensures Inv(Run(s, txs, b))
    ensures ProofsEvolve(s, Run(s, txs, b))
    ensures KeysEvolve(s, Run(s, txs, b))
    decreases |txs|
  {
    if txs != [] {
      var tx := txs[|txs| - 1];
      var t := Run(s, txs[..|txs| - 1], b);
      RunsEvolve(s, txs[..|txs| - 1], b);
      StepKeeps(t, tx.call, tx.caller, tx.now, b);
      var u := Step(t, tx.call, tx.caller, tx.now, b).state;
      forall k | k in t.proofs ensures k in u.proofs && ProofEvolves(t.proofs[k], u.proofs[k]) {
        StepEvolves(t, tx.call, tx.caller, tx.now, b, k);
      }
      StepKeysEvolve(t, tx.call, tx.caller, tx.now, b);
      ProofsEvolveTrans(s, t, u);
      KeysEvolveTrans(s, t, u);
    }
  }

  // ---------------------------------------------------------------------------
  // What a failed submission leaves
  // ---------------------------------------------------------------------------

  /** The check comes to a verdict: it does not run into an error of its own. */
  predicate ComesToVerdict(s: State, proofType: ProofType, inputs: seq<bytes>, data: bytes, b: Backend) {
    !b.compiled
    || (b.inputsOk(inputs) && b.payloadOk(data) && proofType in s.keys && s.keys[proofType].isActive
        && b.check(s.keys[proofType].serializedVk, inputs, data).Ok?)
  }

  /**
   * A submission that fails verification is stored as rejected exactly when
   * the check came to a verdict and the host keeps the writes; it stays
   * pending exactly when the check could not run and the host keeps the
   * writes; and it is not stored at all exactly when they are undone.
   */
  lemma FailedSubmissionStoredIff(s: State, tx: Transaction, b: Backend)
    requires IdsExact(s) && tx.call.SubmitAndVerify? && Step(s, tx.call, tx.caller, tx.now, b).result.Err?
    ensures var t, k, c := Next(s, tx, b), (tx.caller, Count(s.counter, tx.caller) + 1), tx.call;
      var verdict := ComesToVerdict(s, c.proofType, c.inputs, c.data, b);
      && (Stored(t, k, Rejected) <==> !tx.undone && verdict)
      && (Stored(t, k, Pending) <==> !tx.undone && !verdict)
      && (k !in t.proofs <==> tx.undone)
  {
    assert (tx.caller, Count(s.counter, tx.caller) + 1) !in s.proofs;
  }

  /**
   * On the contract as deployed, before any key is registered, every such
   * submission fails. Undone it leaves nothing; kept it is rejected in a build
   * without the backend and stays pending in a build with it.
   */
  lemma RejectionMayBeMissing(owner: AccountId, start: nat, caller: AccountId, now: nat, proofType: ProofType,
      inputs: seq<bytes>, data: bytes, metadata: bytes, undone: bool, b: Backend)
    ensures var s, k := Initial(owner, start), (caller, 1);
      var tx := Transaction(SubmitAndVerify(proofType, inputs, data, metadata), caller, now, undone);
      && Step(s, tx.call, caller, now, b).result.Err?
      && (if undone then k !in Next(s, tx, b).proofs
          else Stored(Next(s, tx, b), k, if b.compiled then Pending else Rejected))
  {
    var s, k := Initial(owner, start), (caller, 1);
    var t := Submitted(s, caller, proofType, inputs, data, metadata, now);
    assert Count(s.counter, caller) == 0 && Count(t.counter, caller) == 1;
    assert t.proofs[k] == Proof(proofType, Pending, inputs, data, now, now + VALIDITY, NOBODY, metadata);
  }

  // ---------------------------------------------------------------------------
  // The validity query
  // ---------------------------------------------------------------------------

  predicate IsOfType(s: State, a: AccountId, id: nat, proofType: ProofType) {
    (a, id) in s.proofs && s.proofs[(a, id)].proofType == proofType
  }

  /** Proof `id` is the account's latest of its type. */
  predicate IsLatest(s: State, a: AccountId, id: nat, proofType: ProofType) {
    && IsOfType(s, a, id, proofType)
    && forall j: nat :: id < j <= Count(s.counter, a) ==> !IsOfType(s, a, j, proofType)
  }

  predicate IsLive(s: State, a: AccountId, id: nat, now: nat)
    requires (a, id) in s.proofs
  {
    s.proofs[(a, id)].status == Verified && s.proofs[(a, id)].expiresAt > now
  }

  /** The account's latest proof of the type is verified and has not expired. */
  predicate HasValidProof(s: State, a: AccountId, proofType: ProofType, now: nat) {
    exists id: nat :: 1 <= id <= Count(s.counter, a) && IsLatest(s, a, id, proofType) && IsLive(s, a, id, now)
  }

  /** After the run the account's proof `id` is of the type, and it was accepted during the run. */
  ghost predicate HoldsAccepted(owner: AccountId, start: nat, txs: seq<Transaction>, b: Backend, a: AccountId, id: nat,
      proofType: ProofType)
  {
    var t := Run(Initial(owner, start), txs, b);
    IsOfType(t, a, id, proofType) && AcceptedDuring(owner, start, txs, (a, id), t.proofs[(a, id)], b)
  }

  /** In every run, an account reported valid holds a proof of the type that was accepted under the type's active key. */
  lemma ValidMeansAccepted(owner: AccountId, start: nat, txs: seq<Transaction>, b: Backend, a: AccountId, proofType: ProofType,
      now: nat)
    requires HasValidProof(Run(Initial(owner, start), txs, b), a, proofType, now)
    ensures exists id: nat :: HoldsAccepted(owner, start, txs, b, a, id, proofType)
  {
    var t := Run(Initial(owner, start), txs, b);
    var id: nat :| 1 <= id <= Count(t.counter, a) && IsLatest(t, a, id, proofType) && IsLive(t, a, id, now);
    VerifiedWasAccepted(owner, start, txs, b, (a, id));
    assert HoldsAccepted(owner, start, txs, b, a, id, proofType);
  }

  /** A new submission hides the account's older proofs of the type until it is verified itself. */
  lemma SubmissionShadows(s: State, caller: AccountId, proofType: ProofType, inputs: seq<bytes>, data: bytes, metadata: bytes,
      now: nat, later: nat)
    requires IdsExact(s)
    ensures !HasValidProof(Submitted(s, caller, proofType, inputs, data, metadata, now), caller, proofType, later)
  {
    var t := Submitted(s, caller, proofType, inputs, data, metadata, now);
    var last := Count(t.counter, caller);
    assert IsOfType(t, caller, last, proofType);
    forall id: nat | 1 <= id <= last && IsLatest(t, caller, id, proofType) ensures !IsLive(t, caller, id, later) {
      assert id == last;
    }
  }

  /** Nothing but the account's own submission of the type, or the passing of time, ends validity. */
  lemma ValidityStands(s: State, call: Call, caller: AccountId, at: nat, b: Backend, a: AccountId, proofType: ProofType,
      now: nat)
    requires IdsExact(s) && HasValidProof(s, a, proofType, now)
    requires (call.Submit? || call.SubmitAndVerify?) && caller == a ==> call.proofType != proofType
    ensures HasValidProof(Step(s, call, caller, at, b).state, a, proofType, now)
  {
    var t := Step(s, call, caller, at, b).state;
    var id: nat :| 1 <= id <= Count(s.counter, a) && IsLatest(s, a, id, proofType) && IsLive(s, a, id, now);
    StepEvolves(s, call, caller, at, b, (a, id));
    assert IsLive(t, a, id, now);
    assert 1 <= id <= Count(t.counter, a);
    forall j: nat | id < j <= Count(t.counter, a) ensures !IsOfType(t, a, j, proofType) {
      if j <= Count(s.counter, a) {
        assert !IsOfType(s, a, j, proofType) && (a, j) in s.proofs;
        StepEvolves(s, call, caller, at, b, (a, j));
      }
    }
    assert IsLatest(t, a, id, proofType);
  }

  // ---------------------------------------------------------------------------
  // The contract
  // ---------------------------------------------------------------------------

  class ZkComplianceContract {
    var owner: AccountId
    var zkProofs: map<ProofId, Proof>
    var proofCounter: map<AccountId, nat>
    var approvedVerifiers: map<AccountId, bool>
    var auditLogs: map<AccountId, seq<AuditLog>>
    var verificationStats: Stats
    var verificationKeys: map<ProofType, KeyRecord>

    function Value(): State
      reads this
    {
      State(owner, zkProofs, proofCounter, approvedVerifiers, auditLogs, verificationStats, verificationKeys)
    }

    constructor (caller: AccountId, now: nat)
      ensures Value() == Initial(caller, now)
    {
      owner := caller;
      zkProofs := map[];
      proofCounter := map[];
      approvedVerifiers := map[];
      auditLogs := map[];
      verificationStats := Stats(0, 0, 0, now);
      verificationKeys := map[];
    }

    method NextProofId(account: AccountId) returns (id: nat)
      modifies this`proofCounter
      ensures id == Count(old(proofCounter), account) + 1
      ensures proofCounter == old(proofCounter)[account := id]
    {
      id := (if account in proofCounter then proofCounter[account] else 0) + 1;
      proofCounter := proofCounter[account := id];
    }

    method LogAuditEvent(account: AccountId, entry: AuditLog)
      modifies this`auditLogs
      ensures auditLogs == Logged(old(auditLogs), account, entry)
    {
      var logs := if account in auditLogs then auditLogs[account] else [];
      auditLogs := auditLogs[account := logs + [entry]];
    }

    method SubmitZkProof(caller: AccountId, proofType: ProofType, inputs: seq<bytes>, data: bytes, metadata: bytes, now: nat)
        returns (id: nat)
      modifies this
      ensures Value() == Submitted(old(Value()), caller, proofType, inputs, data, metadata, now)
      ensures id == Count(proofCounter, caller)
    {
      id := NextProofId(caller);
      zkProofs := zkProofs[(caller, id) := Proof(proofType, Pending, inputs, data, now, now + VALIDITY, NOBODY, metadata)];
      LogAuditEvent(caller, AuditLog(proofType, Pending, now, 0));
    }

    method PerformZkVerification(proof: Proof, b: Backend) returns (r: Result<bool, Error>)
      ensures r == Perform(verificationKeys, proof, b)
    {
      if !b.compiled {
        return Ok(false);
      }
      if !b.inputsOk(proof.publicInputs) {
        return Err(InvalidInputs);
      }
      if !b.payloadOk(proof.proofData) {
        return Err(InvalidProof);
      }
      if proof.proofType !in verificationKeys {
        return Err(VerificationKeyNotFound);
      }
      var record := verificationKeys[proof.proofType];
      if !record.isActive {
        return Err(VerificationKeyNotFound);
      }
      return b.check(record.serializedVk, proof.publicInputs, proof.proofData);
    }

    method VerifyZkProof(caller: AccountId, account: AccountId, id: nat, approve: bool, now: nat, b: Backend)
        returns (r: Result<nat, Error>)
      modifies this
      ensures Outcome(Value(), r) == Reviewed(old(Value()), caller, account, id, approve, now, b)
    {
      if caller !in approvedVerifiers || !approvedVerifiers[caller] {
        return Err(NotAuthorized);
      }
      if (account, id) !in zkProofs {
        return Err(ProofNotFound);
      }
      var proof := zkProofs[(account, id)];
      if proof.status != Pending {
        return Err(AlreadyVerified);
      }
      var successful := false;
      if approve {
        var checked := PerformZkVerification(proof, b);
        if checked.Err? {
          return Err(checked.error);
        }
        successful := checked.value;
      }
      var status := if approve && successful then Verified else Rejected;
      proof := proof.(status := status, verifier := caller);
      zkProofs := zkProofs[(account, id) := proof];
      LogAuditEvent(account, AuditLog(proof.proofType, proof.status, now, if approve then 1 else 2));
      if approve && successful {
        verificationStats := verificationStats.(successful := verificationStats.successful + 1);
      } else {
        verificationStats := verificationStats.(failed := verificationStats.failed + 1);
      }
      verificationStats := verificationStats.(total := verificationStats.total + 1, lastUpdated := now);
      return Ok(0);
    }

    method VerifyAndStoreProof(caller: AccountId, proofType: ProofType, inputs: seq<bytes>, data: bytes, metadata: bytes,
        now: nat, b: Backend) returns (r: Result<nat, Error>)
      modifies this
      ensures Outcome(Value(), r) == SubmittedAndVerified(old(Value()), caller, proofType, inputs, data, metadata, now, b)
    {
      var id := SubmitZkProof(caller, proofType, inputs, data, metadata, now);
      var proof := zkProofs[(caller, id)];
      var checked := PerformZkVerification(proof, b);
      if checked.Err? {
        return Err(checked.error);
      }
      if !checked.value {
        proof := proof.(status := Rejected);
        zkProofs := zkProofs[(caller, id) := proof];
        LogAuditEvent(caller, AuditLog(proofType, Rejected, now, 2));
        verificationStats := verificationStats.(failed := verificationStats.failed + 1);
        verificationStats := verificationStats.(total := verificationStats.total + 1, lastUpdated := now);
        return Err(VerificationFailed);
      }
      proof := proof.(status := Verified, createdAt := now, expiresAt := now + VALIDITY);
      zkProofs := zkProofs[(caller, id) := proof];
      LogAuditEvent(caller, AuditLog(proofType, Verified, now, 1));
      verificationStats := verificationStats.(successful := verificationStats.successful + 1);
      verificationStats := verificationStats.(total := verificationStats.total + 1, lastUpdated := now);
      return Ok(id);
    }

    method SetVerificationKey(caller: AccountId, proofType: ProofType, vk: bytes, vkHash: bytes, b: Backend)
        returns (r: Result<nat, Error>)
      modifies this`verificationKeys
      ensures Outcome(Value(), r) == KeySet(old(Value()), caller, proofType, vk, vkHash, b)
    {
      if caller != owner {
        return Err(NotAuthorized);
      }
      if |vk| == 0 || |vk| > MAX_PROOF_LEN {
        return Err(InvalidVerificationKey);
      }
      if b.compiled && !b.keyOk(vk) {
        return Err(InvalidVerificationKey);
      }
      var version := if proofType in verificationKeys then verificationKeys[proofType].version + 1 else 1;
      verificationKeys := verificationKeys[proofType := KeyRecord(version, vk, vkHash, true)];
      return Ok(version);
    }

    method DeactivateVerificationKey(caller: AccountId, proofType: ProofType) returns (r: Result<nat, Error>)
      modifies this`verificationKeys
      ensures Outcome(Value(), r) == KeyDeactivated(old(Value()), caller, proofType)
    {
      if caller != owner {
        return Err(NotAuthorized);
      }
      if proofType !in verificationKeys {
        return Err(VerificationKeyNotFound);
      }
      var record := verificationKeys[proofType];
      verificationKeys := verificationKeys[proofType := record.(isActive := false)];
      return Ok(0);
    }

    /** `add_approved_verifier` and `remove_approved_verifier`. */
    method SetApprovedVerifier(caller: AccountId, verifier: AccountId, approved: bool, ghost now: nat, ghost b: Backend)
        returns (r: Result<nat, Error>)
      modifies this`approvedVerifiers
      ensures Outcome(Value(), r)
        == Step(old(Value()), if approved then AddVerifier(verifier) else RemoveVerifier(verifier), caller, now, b)
    {
      if caller != owner {
        return Err(NotAuthorized);
      }
      approvedVerifiers := approvedVerifiers[verifier := approved];
      return Ok(0);
    }

    method CreatePrivacyPreservingAudit(caller: AccountId, account: AccountId, action: nat, proofType: ProofType, now: nat,
        ghost b: Backend) returns (r: Result<nat, Error>)
      modifies this`auditLogs
      ensures Outcome(Value(), r) == Step(old(Value()), AuditEntry(account, action, proofType), caller, now, b)
    {
      if caller != account && !(caller in approvedVerifiers && approvedVerifiers[caller]) {
        return Err(NotAuthorized);
      }
      LogAuditEvent(account, AuditLog(proofType, NotSubmitted, now, action));
      return Ok(0);
    }

    /** Scans from the newest proof down and stops at the first of the type. */
    method IsZkProofValid(account: AccountId, proofType: ProofType, now: nat) returns (valid: bool)
      ensures valid == HasValidProof(Value(), account, proofType, now)
    {
      var id := if account in proofCounter then proofCounter[account] else 0;
      while id >= 1
        invariant id <= Count(proofCounter, account)
        invariant forall j: nat :: id < j <= Count(proofCounter, account) ==> !IsOfType(Value(), account, j, proofType)
      {
        if (account, id) in zkProofs {
          var proof := zkProofs[(account, id)];
          if proof.proofType == proofType {
            assert IsOfType(Value(), account, id, proofType);
            assert IsLatest(Value(), account, id, proofType);
            return proof.status == Verified && proof.expiresAt > now;
          }
        }
        id := id - 1;
      }
      return false;
    }
  }
}

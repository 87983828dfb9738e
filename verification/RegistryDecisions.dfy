/**
 Who may do what in the compliance registry, and what an accepted message stores.

 The conditions and the stored values are written out here on their own, so that they can be
 held against the messages one by one and over runs.
*/
module RegistryDecisions {
  import opened Wrappers
  import opened ComplianceRegistry

  // ---------------------------------------------------------------------------
  // Who may call
  // ---------------------------------------------------------------------------

  predicate ApprovedIn(s: State, a: AccountId) {
    a in s.verifiers && s.verifiers[a] == true
  }

  /** The caller may send this message. */
  predicate MayCall(s: State, call: Call, caller: AccountId) {
    match call
    case AddVerifier(_) => caller == s.owner
    case RegisterProvider(_, _) => caller == s.owner
    case UpdateRules(_, _) => caller == s.owner
    case Submit(_, _, _) => ApprovedIn(s, caller)
    case Screen(_, _, _) => ApprovedIn(s, caller)
    case ScreenSanctions(_, _, _) => ApprovedIn(s, caller)
    case RevokeCall(_) => ApprovedIn(s, caller)
    case SetConsent(a, _) => caller == a || ApprovedIn(s, caller)
    case Delete(a) => caller == a
    case Create(_, _, _) => true
    case Process(_, _) => ApprovedIn(s, caller)
    case ScreenMany(_, _) => ApprovedIn(s, caller)
    case ScreenManySanctions(_, _, _) => ApprovedIn(s, caller)
  }

  lemma {:induction false} BatchAmlAllowed(s: State, caller: AccountId, accounts: seq<AccountId>, factors: seq<RiskFactors>)
    requires |accounts| == |factors| && ApprovedIn(s, caller)
    ensures BatchAml(s, caller, accounts, factors).result.Ok?
  {}

  lemma {:induction false} BatchSanctionsAllowed(s: State, caller: AccountId, accounts: seq<AccountId>, list: SanctionsList,
      results: seq<bool>)
    requires |accounts| == |results| && ApprovedIn(s, caller)
    ensures var o := BatchSanctions(s, caller, accounts, list, results);
      && (o.result.Err? ==> o.result == Err(Error.NotVerified))
      && o.state.verifiers == s.verifiers && o.state.data.Keys == s.data.Keys
      && (o.result.Ok? <==> forall a :: a in accounts ==> a in s.data)
    decreases |accounts|
  {
    if accounts != [] {
      var n := |accounts| - 1;
      BatchSanctionsAllowed(s, caller, accounts[..n], list, results[..n]);
      assert accounts == accounts[..n] + [accounts[n]];
    }
  }

  /** A caller is turned away as unauthorised exactly when it may not send the message, and then nothing changes. */
  lemma UnauthorisedIff(s: State, call: Call, caller: AccountId, now: nat)
    ensures Step(s, call, caller, now).result == Err(NotAuthorized) <==> !MayCall(s, call, caller)
    ensures !MayCall(s, call, caller) ==> Step(s, call, caller, now) == Outcome(s, Err(NotAuthorized), [])
  {
    match call
    case ScreenMany(accounts, factorsList) =>
      if ApprovedIn(s, caller) && |accounts| == |factorsList| {
        BatchAmlAllowed(s, caller, accounts, factorsList);
      }
    case ScreenManySanctions(accounts, list, results) =>
      if ApprovedIn(s, caller) && |accounts| == |results| {
        BatchSanctionsAllowed(s, caller, accounts, list, results);
      }
    case _ =>
  }

  // ---------------------------------------------------------------------------
  // Which calls are accepted
  // ---------------------------------------------------------------------------

  /** The score is in range, the jurisdiction known, and the level reaches its minimum. */
  predicate SubmissionFits(s: State, j: Jurisdiction, kyc: Kyc) {
    kyc.score <= 100 && j in s.rules && s.rules[j].minimumLevel <= Level(kyc.document, kyc.biometric, kyc.score)
  }

  /** The retention period of the account's record is over, and its consent withdrawn. */
  predicate MayBeDeleted(s: State, a: AccountId, now: nat) {
    a in s.data && s.data[a].retainUntil < now && s.data[a].consent == Withdrawn
  }

  /** The message is accepted from a caller that may send it. */
  ghost predicate Fits(s: State, call: Call, caller: AccountId, now: nat) {
    match call
    case AddVerifier(_) => true
    case RegisterProvider(_, _) => true
    case UpdateRules(_, _) => true
    case Submit(_, j, kyc) => SubmissionFits(s, j, kyc)
    case Screen(a, _, _) => a in s.data
    case ScreenSanctions(a, _, _) => a in s.data
    case RevokeCall(a) => a in s.data
    case SetConsent(a, _) => a in s.data
    case Delete(a) => MayBeDeleted(s, a, now)
    case Create(_, _, _) => forall id :: id in s.requests && s.requests[id].account == caller ==> s.requests[id].status != Pending
    case Process(id, kyc) =>
      id in s.requests && s.requests[id].status == Pending && SubmissionFits(s, s.requests[id].jurisdiction, kyc)
    case ScreenMany(accounts, factorsList) => |accounts| == |factorsList|
    case ScreenManySanctions(accounts, _, results) => |accounts| == |results| && forall a :: a in accounts ==> a in s.data
  }

  /** The request noted as an account's latest is stored and is its own. */
  ghost predicate LatestIsOwn(s: State) {
    forall a :: a in s.accountRequests ==>
      s.accountRequests[a] in s.requests && s.requests[s.accountRequests[a]].account == a
  }

  lemma CreateAcceptedIff(s: State, j: Jurisdiction, documentHash: bytes, biometricHash: bytes, caller: AccountId, now: nat)
    requires RequestsOk(s) && LatestIsOwn(s)
    ensures CreateRequest(s, caller, j, documentHash, biometricHash, now).result.Ok?
      <==> Fits(s, Create(j, documentHash, biometricHash), caller, now)
  {
    if HasPending(s, caller) {
      assert s.requests[s.accountRequests[caller]].account == caller;
    }
  }

  /** A message is accepted exactly when the caller may send it and it fits. */
  lemma StepAcceptedIff(s: State, call: Call, caller: AccountId, now: nat)
    requires RequestsOk(s) && LatestIsOwn(s)
    ensures Step(s, call, caller, now).result.Ok? <==> MayCall(s, call, caller) && Fits(s, call, caller, now)
  {
    match call
    case Create(j, documentHash, biometricHash) => CreateAcceptedIff(s, j, documentHash, biometricHash, caller, now);
    case ScreenMany(accounts, factorsList) =>
      if ApprovedIn(s, caller) && |accounts| == |factorsList| {
        BatchAmlAllowed(s, caller, accounts, factorsList);
      }
    case ScreenManySanctions(accounts, list, results) =>
      if ApprovedIn(s, caller) && |accounts| == |results| {
        BatchSanctionsAllowed(s, caller, accounts, list, results);
      }
    case _ =>
  }

  lemma {:induction false} BatchSanctionsAnswer(s: State, caller: AccountId, accounts: seq<AccountId>, list: SanctionsList,
      results: seq<bool>)
    requires |accounts| == |results|
    ensures BatchSanctions(s, caller, accounts, list, results).result.Ok? ==>
      BatchSanctions(s, caller, accounts, list, results).result == Ok(0)
    decreases |accounts|
  {}

  /** An accepted message answers nothing but that, and a new request its number. */
  lemma AcceptedAnswer(s: State, call: Call, caller: AccountId, now: nat)
    requires Step(s, call, caller, now).result.Ok?
    ensures Step(s, call, caller, now).result == Ok(if call.Create? then s.requestCounter else 0)
  {
    match call
    case ScreenManySanctions(accounts, list, results) => BatchSanctionsAnswer(s, caller, accounts, list, results);
    case _ =>
  }

  lemma {:induction false} BatchAmlKeepsBooks(s: State, caller: AccountId, accounts: seq<AccountId>, factors: seq<RiskFactors>)
    requires |accounts| == |factors| && IsVerifier(s, caller)
    ensures var t := BatchAml(s, caller, accounts, factors).state;
      && t.requests == s.requests && t.accountRequests == s.accountRequests && t.owner == s.owner && t.rules == s.rules
      && t.data.Keys == s.data.Keys
    decreases |accounts|
  {
    if accounts != [] {
      var n := |accounts| - 1;
      BatchAmlKeepsBooks(s, caller, accounts[..n], factors[..n]);
    }
  }

  lemma {:induction false} BatchSanctionsKeepsBooks(s: State, caller: AccountId, accounts: seq<AccountId>, list: SanctionsList,
      results: seq<bool>)
    requires |accounts| == |results|
    ensures var t := BatchSanctions(s, caller, accounts, list, results).state;
      && t.requests == s.requests && t.accountRequests == s.accountRequests && t.owner == s.owner && t.rules == s.rules
      && t.verifiers == s.verifiers
    decreases |accounts|
  {
    if accounts != [] {
      var n := |accounts| - 1;
      BatchSanctionsKeepsBooks(s, caller, accounts[..n], list, results[..n]);
    }
  }

  lemma StepKeepsLatest(s: State, call: Call, caller: AccountId, now: nat)
    requires RequestsOk(s) && LatestIsOwn(s)
    ensures LatestIsOwn(Step(s, call, caller, now).state)
    ensures Step(s, call, caller, now).state.owner == s.owner
  {
    match call
    case ScreenMany(accounts, factorsList) =>
      if ApprovedIn(s, caller) && |accounts| == |factorsList| {
        BatchAmlKeepsBooks(s, caller, accounts, factorsList);
      }
    case ScreenManySanctions(accounts, list, results) =>
      if ApprovedIn(s, caller) && |accounts| == |results| {
        BatchSanctionsKeepsBooks(s, caller, accounts, list, results);
      }
    case Process(id, kyc) =>
    case Create(j, documentHash, biometricHash) =>
    case _ => OthersKeepLatest(s, call, caller, now);
  }

  lemma OthersKeepLatest(s: State, call: Call, caller: AccountId, now: nat)
    requires LatestIsOwn(s) && !call.Create? && !call.Process? && !call.ScreenMany? && !call.ScreenManySanctions?
    ensures LatestIsOwn(Step(s, call, caller, now).state)
    ensures Step(s, call, caller, now).state.owner == s.owner
  {
    OtherCallsKeepRequests(s, call, caller, now);
  }

  lemma {:induction false} RunsKeepLatest(owner: AccountId, txs: seq<Transaction>)
    ensures var s := Run(Initial(owner), txs).state; RequestsOk(s) && LatestIsOwn(s) && s.owner == owner
    decreases |txs|
  {
    AtMostOnePending(owner, txs);
    if txs != [] {
      var tx := txs[|txs| - 1];
      RunsKeepLatest(owner, txs[..|txs| - 1]);
      StepKeepsLatest(Run(Initial(owner), txs[..|txs| - 1]).state, tx.call, tx.caller, tx.now);
    }
  }

  /** In every reachable state. */
  lemma RunsAcceptIff(owner: AccountId, txs: seq<Transaction>, call: Call, caller: AccountId, now: nat)
    ensures var s := Run(Initial(owner), txs).state;
      Step(s, call, caller, now).result.Ok? <==> MayCall(s, call, caller) && Fits(s, call, caller, now)
  {
    RunsKeepLatest(owner, txs);
    StepAcceptedIff(Run(Initial(owner), txs).state, call, caller, now);
  }

  /** A refused message changes nothing and records nothing, but for a batch of sanctions results that stops half-way. */
  lemma RefusedKeeps(s: State, call: Call, caller: AccountId, now: nat)
    requires Step(s, call, caller, now).result.Err?
    ensures var o := Step(s, call, caller, now);
      || (o.state == s && o.records == [])
      || (&& call.ScreenManySanctions? && ApprovedIn(s, caller) && |call.accounts| == |call.results|
          && o.result == Err(Error.NotVerified) && exists a :: a in call.accounts && a !in s.data)
  {
    match call
    case ScreenManySanctions(accounts, list, results) =>
      if ApprovedIn(s, caller) && |accounts| == |results| {
        BatchSanctionsAllowed(s, caller, accounts, list, results);
      }
    case _ =>
  }

  /** The numbers given to requests are exactly those below the counter. */
  ghost predicate Numbered(s: State) {
    forall id: nat :: id in s.requests <==> id < s.requestCounter
  }

  lemma StepKeepsNumbers(s: State, call: Call, caller: AccountId, now: nat)
    requires Numbered(s)
    ensures Numbered(Step(s, call, caller, now).state)
  {
    match call
    case Create(j, documentHash, biometricHash) =>
    case Process(id, kyc) =>
    case ScreenMany(accounts, factorsList) =>
      if ApprovedIn(s, caller) && |accounts| == |factorsList| {
        BatchAmlKeepsRequests(s, caller, accounts, factorsList);
      }
    case ScreenManySanctions(accounts, list, results) =>
      if ApprovedIn(s, caller) && |accounts| == |results| {
        BatchSanctionsKeepsRequests(s, caller, accounts, list, results);
      }
    case _ => OtherCallsKeepRequests(s, call, caller, now);
  }

  /** In every reachable state the requests are numbered from zero without a gap. */
  lemma {:induction false} RequestsNumbered(owner: AccountId, txs: seq<Transaction>)
    ensures Numbered(Run(Initial(owner), txs).state)
    decreases |txs|
  {
    if txs != [] {
      var tx := txs[|txs| - 1];
      RequestsNumbered(owner, txs[..|txs| - 1]);
      StepKeepsNumbers(Run(Initial(owner), txs[..|txs| - 1]).state, tx.call, tx.caller, tx.now);
    }
  }

  // ---------------------------------------------------------------------------
  // Who is recorded to have done what
  // ---------------------------------------------------------------------------

  /** The caller had the authority for the operation in the state before it. */
  predicate Entitled(s: State, caller: AccountId, now: nat, r: Record) {
    match r.event
    case Submitted(_, at, _) => ApprovedIn(s, caller) && at == now
    case Aml(_, _) => ApprovedIn(s, caller)
    case Sanctions(_) => ApprovedIn(s, caller)
    case Revoked => ApprovedIn(s, caller)
    case Consent(_) => caller == r.account || ApprovedIn(s, caller)
    case Deleted => caller == r.account && MayBeDeleted(s, r.account, now)
  }

  predicate AllEntitled(s: State, caller: AccountId, now: nat, records: seq<Record>) {
    forall r :: r in records ==> Entitled(s, caller, now, r)
  }

  lemma {:induction false} BatchAmlEntitled(s: State, caller: AccountId, accounts: seq<AccountId>, factors: seq<RiskFactors>, now: nat)
    requires |accounts| == |factors| && ApprovedIn(s, caller)
    ensures AllEntitled(s, caller, now, BatchAml(s, caller, accounts, factors).records)
    decreases |accounts|
  {
    if accounts != [] {
      var n := |accounts| - 1;
      BatchAmlEntitled(s, caller, accounts[..n], factors[..n], now);
    }
  }

  lemma {:induction false} BatchSanctionsEntitled(s: State, caller: AccountId, accounts: seq<AccountId>, list: SanctionsList,
      results: seq<bool>, now: nat)
    requires |accounts| == |results| && ApprovedIn(s, caller)
    ensures AllEntitled(s, caller, now, BatchSanctions(s, caller, accounts, list, results).records)
    decreases |accounts|
  {
    if accounts != [] {
      var n := |accounts| - 1;
      BatchSanctionsEntitled(s, caller, accounts[..n], list, results[..n], now);
    }
  }

  lemma StepEntitled(s: State, call: Call, caller: AccountId, now: nat)
    ensures AllEntitled(s, caller, now, Step(s, call, caller, now).records)
  {
    match call
    case ScreenMany(accounts, factorsList) =>
      if ApprovedIn(s, caller) && |accounts| == |factorsList| {
        BatchAmlEntitled(s, caller, accounts, factorsList, now);
      }
    case ScreenManySanctions(accounts, list, results) =>
      if ApprovedIn(s, caller) && |accounts| == |results| {
        BatchSanctionsEntitled(s, caller, accounts, list, results, now);
      }
    case _ =>
  }

  /** Transaction i of the run wrote the record, and its caller was entitled to. */
  predicate WroteEntitled(owner: AccountId, txs: seq<Transaction>, i: nat, r: Record)
    requires i < |txs|
  {
    var s := Run(Initial(owner), txs[..i]).state;
    r in ComplianceRegistry.Perform(s, txs[i]).records && Entitled(s, txs[i].caller, txs[i].now, r)
  }

  /** In every run, every recorded operation was written by a transaction whose caller was
      entitled to it in the state before: submissions, screenings, sanctions results and
      revocations by an approved verifier, consent by the account or a verifier, deletion by
      the account after retention with consent withdrawn. */
  lemma {:induction false} RecordsAreEntitled(owner: AccountId, txs: seq<Transaction>, r: Record)
    requires r in Run(Initial(owner), txs).records
    ensures exists i: nat :: i < |txs| && WroteEntitled(owner, txs, i, r)
    decreases |txs|
  {
    var n := |txs| - 1;
    var before := Run(Initial(owner), txs[..n]);
    if r in before.records {
      RecordsAreEntitled(owner, txs[..n], r);
      var i: nat :| i < n && WroteEntitled(owner, txs[..n], i, r);
      assert txs[..n][..i] == txs[..i];
      assert WroteEntitled(owner, txs, i, r);
    } else {
      StepEntitled(before.state, txs[n].call, txs[n].caller, txs[n].now);
      assert WroteEntitled(owner, txs, n, r);
    }
  }

  // ---------------------------------------------------------------------------
  // Verifiers
  // ---------------------------------------------------------------------------

  /** The owner approves `v` as a verifier, or registers it for identity or for all services. */
  predicate Approves(tx: Transaction, owner: AccountId, v: AccountId) {
    tx.caller == owner
    && ((tx.call.AddVerifier? && tx.call.verifier == v)
        || (tx.call.RegisterProvider? && tx.call.provider == v && tx.call.serviceType in {0, 3}))
  }

  lemma BatchVerifiers(s: State, call: Call, caller: AccountId, now: nat)
    requires call.ScreenMany? || call.ScreenManySanctions?
    ensures Step(s, call, caller, now).state.verifiers == s.verifiers
  {
    match call
    case ScreenManySanctions(accounts, list, results) =>
      if ApprovedIn(s, caller) && |accounts| == |results| {
        BatchSanctionsKeepsBooks(s, caller, accounts, list, results);
      }
    case _ =>
  }

  lemma OthersKeepVerifiers(s: State, call: Call, caller: AccountId, now: nat)
    requires !call.AddVerifier? && !call.RegisterProvider?
    ensures Step(s, call, caller, now).state.verifiers == s.verifiers
  {
    if call.ScreenMany? || call.ScreenManySanctions? {
      BatchVerifiers(s, call, caller, now);
    }
  }

  lemma StepVerifiers(s: State, tx: Transaction, v: AccountId)
    ensures ApprovedIn(ComplianceRegistry.Perform(s, tx).state, v) <==> ApprovedIn(s, v) || Approves(tx, s.owner, v)
  {
    if !tx.call.AddVerifier? && !tx.call.RegisterProvider? {
      OthersKeepVerifiers(s, tx.call, tx.caller, tx.now);
    }
  }

  /** In every run the verifiers are the owner and those whom the owner approved, for good. */
  lemma {:induction false} VerifiersExactly(owner: AccountId, txs: seq<Transaction>, v: AccountId)
    ensures ApprovedIn(Run(Initial(owner), txs).state, v) <==> v == owner || exists tx :: tx in txs && Approves(tx, owner, v)
    decreases |txs|
  {
    if txs != [] {
      var n := |txs| - 1;
      VerifiersExactly(owner, txs[..n], v);
      RunsKeepLatest(owner, txs[..n]);
      StepVerifiers(Run(Initial(owner), txs[..n]).state, txs[n], v);
      assert txs == txs[..n] + [txs[n]];
    }
  }

  // ---------------------------------------------------------------------------
  // What accepted messages store
  // ---------------------------------------------------------------------------

  /** A message about one account changes the record of that account only, and no other book. */
  predicate ChangesOnly(s: State, t: State, a: AccountId) {
    t == s.(data := t.data) && a in t.data && t.data == s.data[a := t.data[a]]
  }

  /** A fresh record: verified for 365 days, unchecked, without consent, kept for the
      jurisdiction's retention period. */
  lemma SubmissionStores(s: State, a: AccountId, j: Jurisdiction, kyc: Kyc, caller: AccountId, now: nat)
    requires ApprovedIn(s, caller) && SubmissionFits(s, j, kyc)
    ensures var o := Step(s, Submit(a, j, kyc), caller, now);
      && ChangesOnly(s, o.state, a) && o.records == [Record(a, Submitted(kyc.risk, now, s.rules[j].retentionDays))]
      && var d := o.state.data[a];
         && d.status == Verified && d.jurisdiction == j && d.riskLevel == kyc.risk && d.kyc == kyc
         && d.verifiedAt == now && d.expiresAt == now + 31_536_000_000
         && d.retainUntil == now + s.rules[j].retentionDays * 86_400_000
         && !d.amlChecked && !d.sanctionsChecked && d.consent == NotGiven
  {}

  /** The four risk factors that count; verified funds do not. */
  function Raised(f: RiskFactors): nat {
    |[f.pepStatus, f.highRiskCountry, f.suspiciousPattern, f.largeVolume]|
    - (if f.pepStatus then 0 else 1) - (if f.highRiskCountry then 0 else 1)
    - (if f.suspiciousPattern then 0 else 1) - (if f.largeVolume then 0 else 1)
  }

  lemma ScreeningStores(s: State, a: AccountId, passed: bool, f: RiskFactors, caller: AccountId, now: nat)
    requires ApprovedIn(s, caller) && a in s.data
    ensures var o := Step(s, Screen(a, passed, f), caller, now);
      && ChangesOnly(s, o.state, a) && o.records == [Record(a, Aml(passed, f))]
      && var d, e := s.data[a], o.state.data[a];
         && e == d.(amlChecked := passed, factors := f, status := e.status, riskLevel := e.riskLevel)
         && e.status == (if !passed || Raised(f) >= 3 then Rejected else d.status)
         && e.riskLevel == (if !passed || Raised(f) >= 3 then Prohibited
                            else if Raised(f) == 2 then High
                            else if Raised(f) == 1 then Medium
                            else d.riskLevel)
  {}

  lemma SanctionsStore(s: State, a: AccountId, passed: bool, list: SanctionsList, caller: AccountId, now: nat)
    requires ApprovedIn(s, caller) && a in s.data
    ensures var o := Step(s, ScreenSanctions(a, passed, list), caller, now);
      && ChangesOnly(s, o.state, a) && o.records == [Record(a, Sanctions(passed))]
      && var d, e := s.data[a], o.state.data[a];
         && e == d.(sanctionsChecked := passed, sanctionsList := list, status := e.status, riskLevel := e.riskLevel)
         && (passed ==> e.status == d.status && e.riskLevel == d.riskLevel)
         && (!passed ==> e.status == Rejected && e.riskLevel == Prohibited)
  {}

  lemma PersonalStore(s: State, call: Call, caller: AccountId, now: nat)
    requires RequestsOk(s) && LatestIsOwn(s) && (call.RevokeCall? || call.SetConsent? || call.Delete?)
    requires MayCall(s, call, caller) && Fits(s, call, caller, now)
    ensures var o := Step(s, call, caller, now);
      var a := call.account;
      && a in s.data && ChangesOnly(s, o.state, a)
      && (call.RevokeCall? ==> o.state.data[a] == s.data[a].(status := Rejected) && o.records == [Record(a, Revoked)])
      && (call.SetConsent? ==>
            && o.state.data[a] == s.data[a].(consent := call.consent, consentAt := now)
            && o.records == [Record(a, Consent(call.consent))])
      && (call.Delete? ==> o.state.data[a] == s.data[a].(status := Expired) && o.records == [Record(a, Deleted)])
  {}

  /** Processing a request is its account's submission, and marks the request. */
  lemma ProcessingStores(s: State, id: nat, kyc: Kyc, caller: AccountId, now: nat)
    requires ApprovedIn(s, caller) && Fits(s, Process(id, kyc), caller, now)
    ensures var q := s.requests[id];
      var o, p := Step(s, Process(id, kyc), caller, now), Step(s, Submit(q.account, q.jurisdiction, kyc), caller, now);
      && o.state == p.state.(requests := s.requests[id := q.(status := Verified)]) && o.records == p.records
  {}

  /** A request is stored under the next number as pending. */
  lemma CreationStores(s: State, j: Jurisdiction, documentHash: bytes, biometricHash: bytes, caller: AccountId, now: nat)
    requires RequestsOk(s) && LatestIsOwn(s) && Fits(s, Create(j, documentHash, biometricHash), caller, now)
    ensures var o := Step(s, Create(j, documentHash, biometricHash), caller, now);
      var id := s.requestCounter;
      && o.result == Ok(id) && id !in s.requests && o.records == [] && o.state.data == s.data
      && o.state.requests == s.requests[id := Request(caller, j, documentHash, biometricHash, now, Pending)]
  {
    CreateAcceptedIff(s, j, documentHash, biometricHash, caller, now);
  }

  // ---------------------------------------------------------------------------
  // Batches
  // ---------------------------------------------------------------------------

  /** The single screenings that a batch stands for: those of known accounts, in order. */
  function Screenings(s: State, caller: AccountId, accounts: seq<AccountId>, factors: seq<RiskFactors>, now: nat): seq<Transaction>
    requires |accounts| == |factors|
    decreases |accounts|
  {
    if accounts == [] then []
    else
      var n := |accounts| - 1;
      var passed := Raised(factors[n]) < 3 && factors[n].sourceOfFundsVerified;
      Screenings(s, caller, accounts[..n], factors[..n], now)
      + (if accounts[n] in s.data then [Transaction(Screen(accounts[n], passed, factors[n]), caller, now, false)] else [])
  }

  function Results(caller: AccountId, accounts: seq<AccountId>, list: SanctionsList, results: seq<bool>, now: nat): seq<Transaction>
    requires |accounts| == |results|
    decreases |accounts|
  {
    if accounts == [] then []
    else
      var n := |accounts| - 1;
      Results(caller, accounts[..n], list, results[..n], now)
      + [Transaction(ScreenSanctions(accounts[n], results[n], list), caller, now, false)]
  }

  lemma RunLast(s: State, head: seq<Transaction>, tx: Transaction)
    ensures var p, q := Run(s, head), Run(s, head + [tx]);
      var o := ComplianceRegistry.Perform(p.state, tx);
      q.state == o.state && q.records == p.records + o.records
  {
    assert (head + [tx])[..|head|] == head;
  }

  /** A batch screening does what the single screenings of its known accounts do. */
  lemma {:induction false} BatchIsScreenings(s: State, caller: AccountId, accounts: seq<AccountId>, factors: seq<RiskFactors>, now: nat)
    requires |accounts| == |factors| && ApprovedIn(s, caller)
    ensures var o, p := BatchAml(s, caller, accounts, factors), Run(s, Screenings(s, caller, accounts, factors, now));
      o.state == p.state && o.records == p.records
    decreases |accounts|
  {
    if accounts != [] {
      var n := |accounts| - 1;
      BatchIsScreenings(s, caller, accounts[..n], factors[..n], now);
      BatchAmlKeepsBooks(s, caller, accounts[..n], factors[..n]);
      var head := Screenings(s, caller, accounts[..n], factors[..n], now);
      if accounts[n] in s.data {
        var passed := Raised(factors[n]) < 3 && factors[n].sourceOfFundsVerified;
        RunLast(s, head, Transaction(Screen(accounts[n], passed, factors[n]), caller, now, false));
      } else {
        assert head + [] == head;
      }
    }
  }

  /** A batch of sanctions results over known accounts does what the single results do. */
  lemma {:induction false} BatchIsResults(s: State, caller: AccountId, accounts: seq<AccountId>, list: SanctionsList,
      results: seq<bool>, now: nat)
    requires |accounts| == |results| && ApprovedIn(s, caller) && forall a :: a in accounts ==> a in s.data
    ensures var o, p := BatchSanctions(s, caller, accounts, list, results), Run(s, Results(caller, accounts, list, results, now));
      o.state == p.state && o.records == p.records
    decreases |accounts|
  {
    if accounts != [] {
      var n := |accounts| - 1;
      BatchIsResults(s, caller, accounts[..n], list, results[..n], now);
      BatchSanctionsAllowed(s, caller, accounts[..n], list, results[..n]);
      var head := Results(caller, accounts[..n], list, results[..n], now);
      RunLast(s, head, Transaction(ScreenSanctions(accounts[n], results[n], list), caller, now, false));
    }
  }

  /** With an unknown account in it, such a batch does what its part before the first one does, and reports an error. */
  lemma {:induction false} BatchStopsAt(s: State, caller: AccountId, accounts: seq<AccountId>, list: SanctionsList,
      results: seq<bool>, k: nat)
    requires |accounts| == |results| && ApprovedIn(s, caller) && k < |accounts|
    requires accounts[k] !in s.data && forall i :: 0 <= i < k ==> accounts[i] in s.data
    ensures var o, p := BatchSanctions(s, caller, accounts, list, results), BatchSanctions(s, caller, accounts[..k], list, results[..k]);
      o.state == p.state && o.records == p.records && o.result == Err(Error.NotVerified)
    decreases |accounts|
  {
    var n := |accounts| - 1;
    if k < n {
      BatchStopsAt(s, caller, accounts[..n], list, results[..n], k);
      assert accounts[..n][..k] == accounts[..k] && results[..n][..k] == results[..k];
    } else {
      BatchSanctionsAllowed(s, caller, accounts[..n], list, results[..n]);
    }
  }

  /** A new contract knows five jurisdictions: seven years of retention in the US, three in the
      EU, five elsewhere, all checks required, and a biometric one for the highest level. */
  lemma RulesAtFirst(owner: AccountId, j: Jurisdiction)
    ensures var s := Initial(owner);
      && s.owner == owner && s.verifiers == map[owner := true] && s.data == map[] && s.requests == map[]
      && (j in s.rules <==> j != Other)
      && (j in s.rules ==>
            var level := if j == Singapore || j == UAE then 4 else 3;
            s.rules[j] == Rules(true, true, true, level, if j == US then 2555 else if j == EU then 1095 else 1825, level == 4))
  {}

  /** The owner's rules for a jurisdiction replace the old ones, and those of no other. */
  lemma RulesStore(s: State, j: Jurisdiction, rules: Rules, now: nat)
    ensures Step(s, UpdateRules(j, rules), s.owner, now) == Outcome(s.(rules := s.rules[j := rules]), Ok(0), [])
  {}

  // ---------------------------------------------------------------------------
  // The way to compliance
  // ---------------------------------------------------------------------------

  /** A submission, a screening, a sanctions result and the account's consent, one after the other. */
  function Onboarding(verifier: AccountId, a: AccountId, j: Jurisdiction, kyc: Kyc, f: RiskFactors, list: SanctionsList, now: nat):
    seq<Transaction>
  {
    [Transaction(Submit(a, j, kyc), verifier, now, false), Transaction(Screen(a, true, f), verifier, now, false),
     Transaction(ScreenSanctions(a, true, list), verifier, now, false), Transaction(SetConsent(a, Given), a, now, false)]
  }

  /** From any state, this makes the account compliant exactly for 365 days and the retention
      period, whichever is shorter, unless the screening raised three factors or nothing
      lifted a prohibited risk. */
  lemma OnboardingMakesCompliant(s: State, verifier: AccountId, a: AccountId, j: Jurisdiction, kyc: Kyc, f: RiskFactors,
      list: SanctionsList, now: nat, at: nat)
    requires ApprovedIn(s, verifier) && SubmissionFits(s, j, kyc)
    ensures IsCompliant(Run(s, Onboarding(verifier, a, j, kyc, f, list, now)).state, a, at) <==>
      && Raised(f) < 3 && (kyc.risk == Prohibited ==> Raised(f) >= 1)
      && at < now + 31_536_000_000 && at <= now + s.rules[j].retentionDays * 86_400_000
  {
    var txs := Onboarding(verifier, a, j, kyc, f, list, now);
    assert txs == ([] + [txs[0]]) + [txs[1]] + [txs[2]] + [txs[3]];
    RunAppend(s, [], txs[0]);
    RunAppend(s, [] + [txs[0]], txs[1]);
    RunAppend(s, ([] + [txs[0]]) + [txs[1]], txs[2]);
    RunAppend(s, ([] + [txs[0]]) + [txs[1]] + [txs[2]], txs[3]);
    var s1 := Step(s, txs[0].call, verifier, now).state;
    var s2 := Step(s1, txs[1].call, verifier, now).state;
    var s3 := Step(s2, txs[2].call, verifier, now).state;
    SubmissionStores(s, a, j, kyc, verifier, now);
    ScreeningStores(s1, a, true, f, verifier, now);
    SanctionsStore(s2, a, true, list, verifier, now);
  }
}

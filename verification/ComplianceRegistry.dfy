/** The compliance registry contract: verification, screening, consent, deletion and verification requests. */
module ComplianceRegistry {
  import opened Wrappers

  type AccountId = nat

  datatype Status = NotVerified | Pending | Verified | Rejected | Expired

  datatype Jurisdiction = US | EU | UK | Singapore | UAE | Other

  datatype RiskLevel = Low | Medium | High | Prohibited

  datatype DocumentType = Passport | NationalId | DriverLicense | BirthCertificate | ProofOfAddress | CorporateDocument

  datatype BiometricMethod = NoBiometric | Fingerprint | FaceRecognition | VoiceRecognition | IrisScan | MultiFactor

  datatype SanctionsList = UnList | OfacList | EuList | UkList | SingaporeList | UaeList | Multiple

  datatype ConsentStatus = NotGiven | Given | Withdrawn | ConsentExpired

  datatype RiskFactors = RiskFactors(
    pepStatus: bool,
    highRiskCountry: bool,
    suspiciousPattern: bool,
    largeVolume: bool,
    sourceOfFundsVerified: bool
  )

  datatype Rules = Rules(
    requiresKyc: bool,
    requiresAml: bool,
    requiresSanctions: bool,
    minimumLevel: nat,
    retentionDays: nat,
    requiresBiometric: bool
  )

  datatype Error =
    | NotAuthorized | NotVerified | AlreadyVerified | ConsentNotGiven | DataRetentionExpired
    | InvalidRiskScore | JurisdictionNotSupported

  /** The details a verifier reports. */
  datatype Kyc = Kyc(hash: bytes, risk: RiskLevel, document: DocumentType, biometric: BiometricMethod, score: nat)

  datatype Data = Data(
    status: Status,
    jurisdiction: Jurisdiction,
    riskLevel: RiskLevel,
    verifiedAt: nat,
    expiresAt: nat,
    kyc: Kyc,
    amlChecked: bool,
    sanctionsChecked: bool,
    factors: RiskFactors,
    sanctionsList: SanctionsList,
    consent: ConsentStatus,
    consentAt: nat,
    retainUntil: nat
  )

  datatype Request = Request(account: AccountId, jurisdiction: Jurisdiction, documentHash: bytes, biometricHash: bytes,
                             at: nat, status: Status)

  /** A day in milliseconds. */
  const DAY: nat := 86_400_000
  const YEAR: nat := 365 * DAY
  const NO_FACTORS := RiskFactors(false, false, false, false, false)

  datatype State = State(
    owner: AccountId,
    verifiers: map<AccountId, bool>,
    rules: map<Jurisdiction, Rules>,
    data: map<AccountId, Data>,
    requests: map<nat, Request>,
    requestCounter: nat,
    accountRequests: map<AccountId, nat>
  )

  function IsVerifier(s: State, a: AccountId): bool {
    a in s.verifiers && s.verifiers[a]
  }

  function DefaultRules(): map<Jurisdiction, Rules> {
    map[US := Rules(true, true, true, 3, 2555, false),
        EU := Rules(true, true, true, 3, 1095, false),
        UK := Rules(true, true, true, 3, 1825, false),
        Singapore := Rules(true, true, true, 4, 1825, true),
        UAE := Rules(true, true, true, 4, 1825, true)]
  }

  function Initial(owner: AccountId): State {
    State(owner, map[owner := true], DefaultRules(), map[], map[], 0, map[])
  }

  /** `calculate_verification_level`. */
  function Level(document: DocumentType, biometric: BiometricMethod, score: nat): nat {
    var level := 1 + (if document.Passport? || document.CorporateDocument? then 2 else 1);
    var level := level + (match biometric
                          case NoBiometric => 0
                          case IrisScan => 2
                          case MultiFactor => 3
                          case _ => 1);
    var level := if score < 20 then level + 1 else if score > 80 then SaturatingSub(level, 2) else level;
    Min(level, 5)
  }

  function FactorCount(f: RiskFactors): nat {
    (if f.pepStatus then 1 else 0) + (if f.highRiskCountry then 1 else 0)
    + (if f.suspiciousPattern then 1 else 0) + (if f.largeVolume then 1 else 0)
  }

  /** `is_compliant`. */
  predicate IsCompliant(s: State, a: AccountId, now: nat) {
    a in s.data && DataCompliant(s.data[a], now)
  }

  predicate DataCompliant(d: Data, now: nat) {
    && d.status == Verified && d.expiresAt > now && d.riskLevel != Prohibited
    && d.amlChecked && d.sanctionsChecked && d.consent == Given && now <= d.retainUntil
  }

  // ---------------------------------------------------------------------------
  // The messages, with the accepted operations they perform
  // ---------------------------------------------------------------------------

  datatype Event =
    | Submitted(risk: RiskLevel, at: nat, retentionDays: nat)
    | Aml(passed: bool, factors: RiskFactors)
    | Sanctions(passed: bool)
    | Revoked
    | Consent(consent: ConsentStatus)
    | Deleted

  datatype Record = Record(account: AccountId, event: Event)

  datatype Outcome = Outcome(state: State, result: Result<nat, Error>, records: seq<Record>)

  function Fail(s: State, e: Error): Outcome {
    Outcome(s, Err(e), [])
  }

  function Done(s: State, a: AccountId, e: Event): Outcome {
    Outcome(s, Ok(0), [Record(a, e)])
  }

  function SubmitVerification(s: State, caller: AccountId, a: AccountId, j: Jurisdiction, kyc: Kyc, now: nat): Outcome {
    if !IsVerifier(s, caller) then Fail(s, NotAuthorized)
    else if kyc.score > 100 then Fail(s, InvalidRiskScore)
    else if j !in s.rules then Fail(s, JurisdictionNotSupported)
    else if Level(kyc.document, kyc.biometric, kyc.score) < s.rules[j].minimumLevel then Fail(s, Error.NotVerified)
    else
      var days := s.rules[j].retentionDays;
      Done(s.(data := s.data[a := Data(Verified, j, kyc.risk, now, now + YEAR, kyc, false, false, NO_FACTORS, UnList, NotGiven, 0,
                                       now + days * DAY)]),
           a, Submitted(kyc.risk, now, days))
  }

  function AmlData(d: Data, passed: bool, f: RiskFactors): Data {
    var d := d.(amlChecked := passed, factors := f);
    if !passed || FactorCount(f) >= 3 then d.(status := Rejected, riskLevel := Prohibited)
    else if FactorCount(f) >= 2 then d.(riskLevel := High)
    else if FactorCount(f) >= 1 then d.(riskLevel := Medium)
    else d
  }

  function UpdateAml(s: State, caller: AccountId, a: AccountId, passed: bool, f: RiskFactors): Outcome {
    if !IsVerifier(s, caller) then Fail(s, NotAuthorized)
    else if a !in s.data then Fail(s, Error.NotVerified)
    else Done(s.(data := s.data[a := AmlData(s.data[a], passed, f)]), a, Aml(passed, f))
  }

  function SanctionsData(d: Data, passed: bool, list: SanctionsList): Data {
    var d := d.(sanctionsChecked := passed, sanctionsList := list);
    if passed then d else d.(status := Rejected, riskLevel := Prohibited)
  }

  function UpdateSanctions(s: State, caller: AccountId, a: AccountId, passed: bool, list: SanctionsList): Outcome {
    if !IsVerifier(s, caller) then Fail(s, NotAuthorized)
    else if a !in s.data then Fail(s, Error.NotVerified)
    else Done(s.(data := s.data[a := SanctionsData(s.data[a], passed, list)]), a, Sanctions(passed))
  }

  function Revoke(s: State, caller: AccountId, a: AccountId): Outcome {
    if !IsVerifier(s, caller) then Fail(s, NotAuthorized)
    else if a !in s.data then Fail(s, Error.NotVerified)
    else Done(s.(data := s.data[a := s.data[a].(status := Rejected)]), a, Revoked)
  }

  function UpdateConsent(s: State, caller: AccountId, a: AccountId, c: ConsentStatus, now: nat): Outcome {
    if caller != a && !IsVerifier(s, caller) then Fail(s, NotAuthorized)
    else if a !in s.data then Fail(s, Error.NotVerified)
    else Done(s.(data := s.data[a := s.data[a].(consent := c, consentAt := now)]), a, Consent(c))
  }

  /** Only the account itself, only after the retention period, and only with consent withdrawn. */
  function RequestDeletion(s: State, caller: AccountId, a: AccountId, now: nat): Outcome {
    if caller != a then Fail(s, NotAuthorized)
    else if a !in s.data || now <= s.data[a].retainUntil then Fail(s, DataRetentionExpired)
    else if s.data[a].consent != Withdrawn then Fail(s, ConsentNotGiven)
    else Done(s.(data := s.data[a := s.data[a].(status := Expired)]), a, Deleted)
  }

  function HasPending(s: State, a: AccountId): bool {
    a in s.accountRequests && s.accountRequests[a] in s.requests && s.requests[s.accountRequests[a]].status == Pending
  }

  function CreateRequest(s: State, caller: AccountId, j: Jurisdiction, documentHash: bytes, biometricHash: bytes, now: nat):
      Outcome
  {
    if HasPending(s, caller) then Fail(s, AlreadyVerified)
    else
      var id := s.requestCounter;
      Outcome(s.(requests := s.requests[id := Request(caller, j, documentHash, biometricHash, now, Pending)],
                 requestCounter := id + 1,
                 accountRequests := s.accountRequests[caller := id]), Ok(id), [])
  }

  function ProcessRequest(s: State, caller: AccountId, id: nat, kyc: Kyc, now: nat): Outcome {
    if !IsVerifier(s, caller) then Fail(s, NotAuthorized)
    else if id !in s.requests then Fail(s, Error.NotVerified)
    else if s.requests[id].status != Pending then Fail(s, AlreadyVerified)
    else
      var o := SubmitVerification(s, caller, s.requests[id].account, s.requests[id].jurisdiction, kyc, now);
      if o.result.Err? then o
      else Outcome(o.state.(requests := o.state.requests[id := s.requests[id].(status := Verified)]), o.result, o.records)
  }

  predicate BatchPasses(f: RiskFactors) {
    FactorCount(f) < 3 && f.sourceOfFundsVerified
  }

  /** The first accounts of the batch; unknown accounts are skipped. */
  function BatchAml(s: State, caller: AccountId, accounts: seq<AccountId>, factors: seq<RiskFactors>): Outcome
    requires |accounts| == |factors| && IsVerifier(s, caller)
    decreases |accounts|
    ensures BatchAml(s, caller, accounts, factors).result == Ok(0)
    ensures BatchAml(s, caller, accounts, factors).state.verifiers == s.verifiers
  {
    if accounts == [] then Outcome(s, Ok(0), [])
    else
      var n := |accounts| - 1;
      var o := BatchAml(s, caller, accounts[..n], factors[..n]);
      if accounts[n] !in o.state.data then o
      else
        var p := UpdateAml(o.state, caller, accounts[n], BatchPasses(factors[n]), factors[n]);
        Outcome(p.state, p.result, o.records + p.records)
  }

  /** The batch stops at the first unknown account, after updating those before it. */
  function BatchSanctions(s: State, caller: AccountId, accounts: seq<AccountId>, list: SanctionsList, results: seq<bool>): Outcome
    requires |accounts| == |results|
    decreases |accounts|
  {
    if accounts == [] then Outcome(s, Ok(0), [])
    else
      var n := |accounts| - 1;
      var o := BatchSanctions(s, caller, accounts[..n], list, results[..n]);
      if o.result.Err? then o
      else
        var p := UpdateSanctions(o.state, caller, accounts[n], results[n], list);
        Outcome(p.state, p.result, o.records + p.records)
  }

  datatype Call =
    | AddVerifier(verifier: AccountId)
    | RegisterProvider(provider: AccountId, serviceType: nat)
    | UpdateRules(j: Jurisdiction, rules: Rules)
    | Submit(account: AccountId, j: Jurisdiction, kyc: Kyc)
    | Screen(account: AccountId, passed: bool, factors: RiskFactors)
    | ScreenSanctions(account: AccountId, passed: bool, list: SanctionsList)
    | RevokeCall(account: AccountId)
    | SetConsent(account: AccountId, consent: ConsentStatus)
    | Delete(account: AccountId)
    | Create(j: Jurisdiction, documentHash: bytes, biometricHash: bytes)
    | Process(id: nat, kyc: Kyc)
    | ScreenMany(accounts: seq<AccountId>, factorsList: seq<RiskFactors>)
    | ScreenManySanctions(accounts: seq<AccountId>, list: SanctionsList, results: seq<bool>)

  function Step(s: State, call: Call, caller: AccountId, now: nat): Outcome {
    match call
    case AddVerifier(v) =>
      if caller != s.owner then Fail(s, NotAuthorized) else Outcome(s.(verifiers := s.verifiers[v := true]), Ok(0), [])
    case RegisterProvider(p, serviceType) =>
      if caller != s.owner then Fail(s, NotAuthorized)
      else if serviceType == 0 || serviceType == 3 then Outcome(s.(verifiers := s.verifiers[p := true]), Ok(0), [])
      else Outcome(s, Ok(0), [])
    case UpdateRules(j, rules) =>
      if caller != s.owner then Fail(s, NotAuthorized) else Outcome(s.(rules := s.rules[j := rules]), Ok(0), [])
    case Submit(a, j, kyc) => SubmitVerification(s, caller, a, j, kyc, now)
    case Screen(a, passed, f) => UpdateAml(s, caller, a, passed, f)
    case ScreenSanctions(a, passed, list) => UpdateSanctions(s, caller, a, passed, list)
    case RevokeCall(a) => Revoke(s, caller, a)
    case SetConsent(a, c) => UpdateConsent(s, caller, a, c, now)
    case Delete(a) => RequestDeletion(s, caller, a, now)
    case Create(j, documentHash, biometricHash) => CreateRequest(s, caller, j, documentHash, biometricHash, now)
    case Process(id, kyc) => ProcessRequest(s, caller, id, kyc, now)
    case ScreenMany(accounts, factorsList) =>
      if !IsVerifier(s, caller) then Fail(s, NotAuthorized)
      else if |accounts| != |factorsList| then Fail(s, Error.NotVerified)
      else BatchAml(s, caller, accounts, factorsList)
    case ScreenManySanctions(accounts, list, results) =>
      if !IsVerifier(s, caller) then Fail(s, NotAuthorized)
      else if |accounts| != |results| then Fail(s, Error.NotVerified)
      else BatchSanctions(s, caller, accounts, list, results)
  }

  /** The host may undo the writes of a message that returns an error. */
  datatype Transaction = Transaction(call: Call, caller: AccountId, now: nat, undone: bool)

  function Perform(s: State, tx: Transaction): Outcome {
    var o := Step(s, tx.call, tx.caller, tx.now);
    if o.result.Err? && tx.undone then Outcome(s, o.result, []) else o
  }

  function Run(s: State, txs: seq<Transaction>): Outcome {
    if txs == [] then Outcome(s, Ok(0), [])
    else
      var before := Run(s, txs[..|txs| - 1]);
      var o := Perform(before.state, txs[|txs| - 1]);
      Outcome(o.state, o.result, before.records + o.records)
  }

  /** The accepted operations on one account, oldest first. */
  function HistoryOf(records: seq<Record>, a: AccountId): seq<Event> {
    if records == [] then []
    else
      var last := records[|records| - 1];
      HistoryOf(records[..|records| - 1], a) + (if last.account == a then [last.event] else [])
  }

  // ---------------------------------------------------------------------------
  // Compliance as a statement about the history
  // ---------------------------------------------------------------------------

  /** Operations after which only a new submission can make the account compliant. */
  predicate Disqualifies(e: Event) {
    || (e.Aml? && (!e.passed || FactorCount(e.factors) >= 3))
    || (e.Sanctions? && !e.passed)
    || e.Revoked?
    || e.Deleted?
  }

  function LastConsent(since: seq<Event>): ConsentStatus {
    if since == [] then NotGiven
    else if since[|since| - 1].Consent? then since[|since| - 1].consent
    else LastConsent(since[..|since| - 1])
  }

  /** What must hold of a submission and of the operations since. */
  predicate Qualifies(sub: Event, since: seq<Event>, now: nat)
    requires sub.Submitted?
  {
    && (forall e :: e in since ==> !Disqualifies(e))
    && (exists e :: e in since && e.Aml?)
    && (exists e :: e in since && e.Sanctions?)
    && LastConsent(since) == Given
    && (sub.risk == Prohibited ==> exists e :: e in since && Softens(e))
    && now < sub.at + YEAR
    && now <= sub.at + sub.retentionDays * DAY
  }

  /** A passed screening with one or two risk factors replaces even a prohibited risk level. */
  predicate Softens(e: Event) {
    e.Aml? && FactorCount(e.factors) >= 1
  }

  /** The position of the last submission, or the length. */
  function LastSubmission(h: seq<Event>): (i: nat)
    ensures i <= |h|
    ensures i < |h| ==> h[i].Submitted?
  {
    if h == [] then 0
    else
      var n := |h| - 1;
      if h[n].Submitted? then n
      else if LastSubmission(h[..n]) < n then LastSubmission(h[..n])
      else |h|
  }

  predicate CompliantByHistory(h: seq<Event>, now: nat) {
    var i := LastSubmission(h);
    i < |h| && Qualifies(h[i], h[i + 1..], now)
  }

  /** What the history says about the stored record. */
  predicate Describes(h: seq<Event>, d: Data) {
    var i := LastSubmission(h);
    i < |h| && DescribesSince(h[i], h[i + 1..], d)
  }

  predicate DescribesSince(sub: Event, since: seq<Event>, d: Data)
    requires sub.Submitted?
  {
    && (d.status == Verified <==> forall e :: e in since ==> !Disqualifies(e))
    && (d.status == Verified ==> (d.amlChecked <==> exists e :: e in since && e.Aml?))
    && (d.status == Verified ==> (d.sanctionsChecked <==> exists e :: e in since && e.Sanctions?))
    && (d.status == Verified ==> (d.riskLevel == Prohibited <==> sub.risk == Prohibited && forall e :: e in since ==> !Softens(e)))
    && d.consent == LastConsent(since)
    && d.expiresAt == sub.at + YEAR
    && d.retainUntil == sub.at + sub.retentionDays * DAY
  }

  lemma DescribedCompliance(h: seq<Event>, d: Data, now: nat)
    requires Describes(h, d)
    ensures DataCompliant(d, now) <==> CompliantByHistory(h, now)
  {}

  lemma LastSubmissionAppend(h: seq<Event>, e: Event)
    ensures LastSubmission(h + [e]) ==
      if e.Submitted? then |h| else if LastSubmission(h) < |h| then LastSubmission(h) else |h| + 1
  {
    assert (h + [e])[..|h|] == h;
  }

  /** How one accepted operation changes the record. */
  function Apply(d: Data, e: Event, list: SanctionsList, now: nat): Data
    requires !e.Submitted?
  {
    match e
    case Aml(passed, f) => AmlData(d, passed, f)
    case Sanctions(passed) => SanctionsData(d, passed, list)
    case Revoked => d.(status := Rejected)
    case Consent(c) => d.(consent := c, consentAt := now)
    case Deleted => d.(status := Expired)
  }

  lemma InAppend(since: seq<Event>, e: Event)
    ensures forall x :: x in since + [e] <==> x in since || x == e
    ensures LastConsent(since + [e]) == if e.Consent? then e.consent else LastConsent(since)
  {
    assert (since + [e])[..|since|] == since;
  }

  lemma ApplySince(sub: Event, since: seq<Event>, d: Data, e: Event, list: SanctionsList, now: nat)
    requires sub.Submitted? && !e.Submitted? && DescribesSince(sub, since, d)
    ensures DescribesSince(sub, since + [e], Apply(d, e, list, now))
  {
    InAppend(since, e);
    assert e in since + [e];
    assert forall x :: x in since ==> x in since + [e];
  }

  lemma ApplyDescribed(h: seq<Event>, d: Data, e: Event, list: SanctionsList, now: nat)
    requires Describes(h, d) && !e.Submitted?
    ensures Describes(h + [e], Apply(d, e, list, now))
  {
    var i := LastSubmission(h);
    LastSubmissionAppend(h, e);
    SinceAppend(h, e, i);
    ApplySince(h[i], h[i + 1..], d, e, list, now);
  }

  lemma SinceAppend(h: seq<Event>, e: Event, i: nat)
    requires i < |h|
    ensures (h + [e])[i] == h[i] && (h + [e])[i + 1..] == h[i + 1..] + [e]
  {}

  // ---------------------------------------------------------------------------
  // The stored record agrees with the history in every run
  // ---------------------------------------------------------------------------

  predicate AgreesFor(s: State, records: seq<Record>, a: AccountId) {
    if a in s.data then Describes(HistoryOf(records, a), s.data[a]) else HistoryOf(records, a) == []
  }

  ghost predicate Agrees(s: State, records: seq<Record>) {
    forall a: AccountId :: AgreesFor(s, records, a)
  }

  lemma HistoryAppend(records: seq<Record>, r: Record, a: AccountId)
    ensures HistoryOf(records + [r], a) == HistoryOf(records, a) + (if r.account == a then [r.event] else [])
  {
    assert (records + [r])[..|records|] == records;
  }

  /** One operation on one account. */
  lemma OneAgrees(s: State, t: State, records: seq<Record>, a: AccountId, d: Data, e: Event)
    requires Agrees(s, records) && t.data == s.data[a := d]
    requires Describes(HistoryOf(records, a) + [e], d)
    ensures Agrees(t, records + [Record(a, e)])
  {
    forall b: AccountId ensures AgreesFor(t, records + [Record(a, e)], b) {
      HistoryAppend(records, Record(a, e), b);
      assert AgreesFor(s, records, b);
      if b != a {
        assert HistoryOf(records, b) + [] == HistoryOf(records, b);
      }
    }
  }

  lemma AppliedAgrees(s: State, t: State, records: seq<Record>, a: AccountId, e: Event, list: SanctionsList, now: nat)
    requires Agrees(s, records) && a in s.data && !e.Submitted?
    requires t.data == s.data[a := Apply(s.data[a], e, list, now)]
    ensures Agrees(t, records + [Record(a, e)])
  {
    assert AgreesFor(s, records, a);
    ApplyDescribed(HistoryOf(records, a), s.data[a], e, list, now);
    OneAgrees(s, t, records, a, Apply(s.data[a], e, list, now), e);
  }

  lemma SubmissionAgrees(s: State, caller: AccountId, a: AccountId, j: Jurisdiction, kyc: Kyc, now: nat, records: seq<Record>)
    requires Agrees(s, records)
    ensures var o := SubmitVerification(s, caller, a, j, kyc, now); Agrees(o.state, records + o.records)
  {
    var o := SubmitVerification(s, caller, a, j, kyc, now);
    if o.result.Ok? {
      var e := Submitted(kyc.risk, now, s.rules[j].retentionDays);
      var h := HistoryOf(records, a);
      LastSubmissionAppend(h, e);
      assert (h + [e])[|h| + 1..] == [];
      OneAgrees(s, o.state, records, a, o.state.data[a], e);
    } else {
      assert records + [] == records;
    }
  }

  lemma AmlAgrees(s: State, caller: AccountId, a: AccountId, passed: bool, f: RiskFactors, records: seq<Record>)
    requires Agrees(s, records)
    ensures var o := UpdateAml(s, caller, a, passed, f); Agrees(o.state, records + o.records)
  {
    var o := UpdateAml(s, caller, a, passed, f);
    if o.result.Ok? {
      AppliedAgrees(s, o.state, records, a, Aml(passed, f), UnList, 0);
    } else {
      assert records + [] == records;
    }
  }

  lemma SanctionsAgrees(s: State, caller: AccountId, a: AccountId, passed: bool, list: SanctionsList, records: seq<Record>)
    requires Agrees(s, records)
    ensures var o := UpdateSanctions(s, caller, a, passed, list); Agrees(o.state, records + o.records)
  {
    var o := UpdateSanctions(s, caller, a, passed, list);
    if o.result.Ok? {
      AppliedAgrees(s, o.state, records, a, Sanctions(passed), list, 0);
    } else {
      assert records + [] == records;
    }
  }

  lemma {:induction false} BatchAmlAgrees(s: State, caller: AccountId, accounts: seq<AccountId>, factors: seq<RiskFactors>,
      records: seq<Record>)
    requires Agrees(s, records) && |accounts| == |factors| && IsVerifier(s, caller)
    ensures var o := BatchAml(s, caller, accounts, factors); Agrees(o.state, records + o.records)
    decreases |accounts|
  {
    if accounts == [] {
      assert records + [] == records;
    } else {
      var n := |accounts| - 1;
      var o := BatchAml(s, caller, accounts[..n], factors[..n]);
      BatchAmlAgrees(s, caller, accounts[..n], factors[..n], records);
      if accounts[n] in o.state.data {
        var p := UpdateAml(o.state, caller, accounts[n], BatchPasses(factors[n]), factors[n]);
        AmlAgrees(o.state, caller, accounts[n], BatchPasses(factors[n]), factors[n], records + o.records);
        Associates(records, o.records, p.records);
      }
    }
  }

  lemma {:induction false} BatchSanctionsAgrees(s: State, caller: AccountId, accounts: seq<AccountId>, list: SanctionsList,
      results: seq<bool>, records: seq<Record>)
    requires Agrees(s, records) && |accounts| == |results|
    ensures var o := BatchSanctions(s, caller, accounts, list, results); Agrees(o.state, records + o.records)
    decreases |accounts|
  {
    if accounts == [] {
      assert records + [] == records;
    } else {
      var n := |accounts| - 1;
      var o := BatchSanctions(s, caller, accounts[..n], list, results[..n]);
      BatchSanctionsAgrees(s, caller, accounts[..n], list, results[..n], records);
      if o.result.Ok? {
        var p := UpdateSanctions(o.state, caller, accounts[n], results[n], list);
        SanctionsAgrees(o.state, caller, accounts[n], results[n], list, records + o.records);
        Associates(records, o.records, p.records);
      }
    }
  }

  lemma SameDataAgrees(s: State, t: State, records: seq<Record>)
    requires Agrees(s, records) && t.data == s.data
    ensures Agrees(t, records + [])
  {
    assert records + [] == records;
    forall a: AccountId ensures AgreesFor(t, records, a) {
      assert AgreesFor(s, records, a);
    }
  }

  lemma ProcessAgrees(s: State, caller: AccountId, id: nat, kyc: Kyc, now: nat, records: seq<Record>)
    requires Agrees(s, records)
    ensures var o := ProcessRequest(s, caller, id, kyc, now); Agrees(o.state, records + o.records)
  {
    if IsVerifier(s, caller) && id in s.requests && s.requests[id].status == Pending {
      var o := SubmitVerification(s, caller, s.requests[id].account, s.requests[id].jurisdiction, kyc, now);
      SubmissionAgrees(s, caller, s.requests[id].account, s.requests[id].jurisdiction, kyc, now, records);
      SameDataAgrees(o.state, ProcessRequest(s, caller, id, kyc, now).state, records + o.records);
      assert (records + o.records) + [] == records + o.records;
    } else {
      assert records + [] == records;
    }
  }

  /** Revocation, consent and deletion. */
  lemma PersonalAgrees(s: State, call: Call, caller: AccountId, now: nat, records: seq<Record>)
    requires Agrees(s, records) && (call.RevokeCall? || call.SetConsent? || call.Delete?)
    ensures var o := Step(s, call, caller, now); Agrees(o.state, records + o.records)
  {
    var o := Step(s, call, caller, now);
    if o.result.Ok? {
      match call
      case RevokeCall(a) => AppliedAgrees(s, o.state, records, a, Revoked, UnList, now);
      case SetConsent(a, c) => AppliedAgrees(s, o.state, records, a, Consent(c), UnList, now);
      case Delete(a) => AppliedAgrees(s, o.state, records, a, Deleted, UnList, now);
    } else {
      assert records + [] == records;
    }
  }

  lemma StepAgrees(s: State, call: Call, caller: AccountId, now: nat, records: seq<Record>)
    requires Agrees(s, records)
    ensures var o := Step(s, call, caller, now); Agrees(o.state, records + o.records)
  {
    match call
    case Submit(a, j, kyc) => SubmissionAgrees(s, caller, a, j, kyc, now, records);
    case Screen(a, passed, f) => AmlAgrees(s, caller, a, passed, f, records);
    case ScreenSanctions(a, passed, list) => SanctionsAgrees(s, caller, a, passed, list, records);
    case RevokeCall(_) => PersonalAgrees(s, call, caller, now, records);
    case SetConsent(_, _) => PersonalAgrees(s, call, caller, now, records);
    case Delete(_) => PersonalAgrees(s, call, caller, now, records);
    case Process(id, kyc) => ProcessAgrees(s, caller, id, kyc, now, records);
    case ScreenMany(accounts, factorsList) =>
      if IsVerifier(s, caller) && |accounts| == |factorsList| {
        BatchAmlAgrees(s, caller, accounts, factorsList, records);
      } else {
        SameDataAgrees(s, s, records);
      }
    case ScreenManySanctions(accounts, list, results) =>
      if IsVerifier(s, caller) && |accounts| == |results| {
        BatchSanctionsAgrees(s, caller, accounts, list, results, records);
      } else {
        SameDataAgrees(s, s, records);
      }
    case _ => SameDataAgrees(s, Step(s, call, caller, now).state, records);
  }

  lemma {:induction false} RunsAgree(owner: AccountId, txs: seq<Transaction>)
    ensures var o := Run(Initial(owner), txs); Agrees(o.state, o.records)
    decreases |txs|
  {
    if txs != [] {
      var before := Run(Initial(owner), txs[..|txs| - 1]);
      var tx := txs[|txs| - 1];
      RunsAgree(owner, txs[..|txs| - 1]);
      StepAgrees(before.state, tx.call, tx.caller, tx.now, before.records);
      assert before.records + [] == before.records;
    }
  }

  /** In every reachable state, at any time, an account is compliant exactly when its history says so. */
  lemma CompliantIffHistory(owner: AccountId, txs: seq<Transaction>, a: AccountId, now: nat)
    ensures var o := Run(Initial(owner), txs);
      IsCompliant(o.state, a, now) <==> CompliantByHistory(HistoryOf(o.records, a), now)
  {
    var o := Run(Initial(owner), txs);
    RunsAgree(owner, txs);
    assert AgreesFor(o.state, o.records, a);
    if a in o.state.data {
      DescribedCompliance(HistoryOf(o.records, a), o.state.data[a], now);
    }
  }

  // ---------------------------------------------------------------------------
  // The way back
  // ---------------------------------------------------------------------------

  predicate Submits(records: seq<Record>, a: AccountId) {
    exists r :: r in records && r.account == a && r.event.Submitted?
  }

  predicate InGoodStanding(s: State, a: AccountId) {
    a in s.data && s.data[a].status == Verified
  }

  lemma {:induction false} BatchAmlKeepsOut(s: State, caller: AccountId, accounts: seq<AccountId>, factors: seq<RiskFactors>,
      a: AccountId)
    requires |accounts| == |factors| && IsVerifier(s, caller) && !InGoodStanding(s, a)
    ensures !InGoodStanding(BatchAml(s, caller, accounts, factors).state, a)
    decreases |accounts|
  {
    if accounts != [] {
      var n := |accounts| - 1;
      BatchAmlKeepsOut(s, caller, accounts[..n], factors[..n], a);
    }
  }

  lemma {:induction false} BatchSanctionsKeepsOut(s: State, caller: AccountId, accounts: seq<AccountId>, list: SanctionsList,
      results: seq<bool>, a: AccountId)
    requires |accounts| == |results| && !InGoodStanding(s, a)
    ensures !InGoodStanding(BatchSanctions(s, caller, accounts, list, results).state, a)
    decreases |accounts|
  {
    if accounts != [] {
      var n := |accounts| - 1;
      BatchSanctionsKeepsOut(s, caller, accounts[..n], list, results[..n], a);
    }
  }

  lemma SubmissionRecorded(s: State, caller: AccountId, a: AccountId, j: Jurisdiction, kyc: Kyc, now: nat)
    ensures var o := SubmitVerification(s, caller, a, j, kyc, now);
      o.result.Ok? ==> Submits(o.records, a)
  {
    var o := SubmitVerification(s, caller, a, j, kyc, now);
    if o.result.Ok? {
      assert Record(a, Submitted(kyc.risk, now, s.rules[j].retentionDays)) in o.records;
    }
  }

  lemma StepKeepsOut(s: State, call: Call, caller: AccountId, now: nat, a: AccountId)
    requires !InGoodStanding(s, a)
    ensures var o := Step(s, call, caller, now); InGoodStanding(o.state, a) ==> Submits(o.records, a)
  {
    var o := Step(s, call, caller, now);
    match call
    case ScreenMany(accounts, factorsList) =>
      if IsVerifier(s, caller) && |accounts| == |factorsList| {
        BatchAmlKeepsOut(s, caller, accounts, factorsList, a);
      }
    case ScreenManySanctions(accounts, list, results) =>
      if IsVerifier(s, caller) && |accounts| == |results| {
        BatchSanctionsKeepsOut(s, caller, accounts, list, results, a);
      }
    case Submit(b, j, kyc) => SubmissionRecorded(s, caller, b, j, kyc, now);
    case Process(id, kyc) =>
      if id in s.requests {
        SubmissionRecorded(s, caller, s.requests[id].account, s.requests[id].jurisdiction, kyc, now);
      }
    case _ =>
  }

  /** An account that is rejected, expired or unknown becomes compliant only through a new accepted submission. */
  lemma {:induction false} OnlySubmissionRestores(s: State, txs: seq<Transaction>, a: AccountId, now: nat)
    requires !InGoodStanding(s, a)
    ensures IsCompliant(Run(s, txs).state, a, now) ==> Submits(Run(s, txs).records, a)
    ensures InGoodStanding(Run(s, txs).state, a) ==> Submits(Run(s, txs).records, a)
    decreases |txs|
  {
    if txs != [] {
      var before := Run(s, txs[..|txs| - 1]);
      var tx := txs[|txs| - 1];
      OnlySubmissionRestores(s, txs[..|txs| - 1], a, now);
      var o := Perform(before.state, tx);
      if InGoodStanding(before.state, a) {
        assert Submits(before.records + o.records, a);
      } else {
        StepKeepsOut(before.state, tx.call, tx.caller, tx.now, a);
      }
    }
  }

  // ---------------------------------------------------------------------------
  // Verification requests
  // ---------------------------------------------------------------------------

  /** A pending request is the one its account points to, and ids are below the counter. */
  predicate RequestsOk(s: State) {
    && (forall id :: id in s.requests ==> id < s.requestCounter)
    && (forall id :: id in s.requests && s.requests[id].status == Pending ==>
          s.requests[id].account in s.accountRequests && s.accountRequests[s.requests[id].account] == id)
  }

  predicate IsPending(s: State, id: nat) {
    id in s.requests && s.requests[id].status == Pending
  }

  predicate RequestEvolves(r: Request, q: Request) {
    q == r || (r.status == Pending && q == r.(status := Verified))
  }

  lemma {:induction false} BatchAmlKeepsRequests(s: State, caller: AccountId, accounts: seq<AccountId>, factors: seq<RiskFactors>)
    requires |accounts| == |factors| && IsVerifier(s, caller)
    ensures var t := BatchAml(s, caller, accounts, factors).state;
      t.requests == s.requests && t.requestCounter == s.requestCounter && t.accountRequests == s.accountRequests
    decreases |accounts|
  {
    if accounts != [] {
      BatchAmlKeepsRequests(s, caller, accounts[..|accounts| - 1], factors[..|accounts| - 1]);
    }
  }

  lemma {:induction false} BatchSanctionsKeepsRequests(s: State, caller: AccountId, accounts: seq<AccountId>,
      list: SanctionsList, results: seq<bool>)
    requires |accounts| == |results|
    ensures var t := BatchSanctions(s, caller, accounts, list, results).state;
      t.requests == s.requests && t.requestCounter == s.requestCounter && t.accountRequests == s.accountRequests
    decreases |accounts|
  {
    if accounts != [] {
      BatchSanctionsKeepsRequests(s, caller, accounts[..|accounts| - 1], list, results[..|accounts| - 1]);
    }
  }

  predicate RequestsEvolve(s: State, t: State) {
    forall id :: id in s.requests ==> id in t.requests && RequestEvolves(s.requests[id], t.requests[id])
  }

  lemma CreateKeepsRequests(s: State, caller: AccountId, j: Jurisdiction, documentHash: bytes, biometricHash: bytes, now: nat)
    requires RequestsOk(s)
    ensures var t := CreateRequest(s, caller, j, documentHash, biometricHash, now).state; RequestsOk(t) && RequestsEvolve(s, t)
  {}

  lemma ProcessKeepsRequests(s: State, caller: AccountId, id: nat, kyc: Kyc, now: nat)
    requires RequestsOk(s)
    ensures var t := ProcessRequest(s, caller, id, kyc, now).state; RequestsOk(t) && RequestsEvolve(s, t)
  {
    if id in s.requests {
      var o := SubmitVerification(s, caller, s.requests[id].account, s.requests[id].jurisdiction, kyc, now);
      assert o.state.requests == s.requests && o.state.requestCounter == s.requestCounter;
      assert o.state.accountRequests == s.accountRequests;
    }
  }

  lemma StepKeepsRequests(s: State, call: Call, caller: AccountId, now: nat)
    requires RequestsOk(s)
    ensures var t := Step(s, call, caller, now).state; RequestsOk(t) && RequestsEvolve(s, t)
  {
    match call
    case Create(j, documentHash, biometricHash) => CreateKeepsRequests(s, caller, j, documentHash, biometricHash, now);
    case Process(id, kyc) => ProcessKeepsRequests(s, caller, id, kyc, now);
    case ScreenMany(accounts, factorsList) =>
      if IsVerifier(s, caller) && |accounts| == |factorsList| {
        BatchAmlKeepsRequests(s, caller, accounts, factorsList);
      }
    case ScreenManySanctions(accounts, list, results) =>
      if IsVerifier(s, caller) && |accounts| == |results| {
        BatchSanctionsKeepsRequests(s, caller, accounts, list, results);
      }
    case _ => OtherCallsKeepRequests(s, call, caller, now);
  }

  lemma OtherCallsKeepRequests(s: State, call: Call, caller: AccountId, now: nat)
    requires !call.Create? && !call.Process? && !call.ScreenMany? && !call.ScreenManySanctions?
    ensures var t := Step(s, call, caller, now).state;
      t.requests == s.requests && t.requestCounter == s.requestCounter && t.accountRequests == s.accountRequests
  {}

  /** In every reachable state an account has at most one pending request, whatever was processed before. */
  lemma {:induction false} AtMostOnePending(owner: AccountId, txs: seq<Transaction>)
    ensures var s := Run(Initial(owner), txs).state;
      && RequestsOk(s)
      && forall i, j :: IsPending(s, i) && IsPending(s, j) && s.requests[i].account == s.requests[j].account ==> i == j
    decreases |txs|
  {
    if txs != [] {
      var before := Run(Initial(owner), txs[..|txs| - 1]);
      var tx := txs[|txs| - 1];
      AtMostOnePending(owner, txs[..|txs| - 1]);
      StepKeepsRequests(before.state, tx.call, tx.caller, tx.now);
    }
  }

  /** A processed request stays as it is: it is processed at most once. */
  lemma {:induction false} ProcessedOnce(s: State, txs: seq<Transaction>, id: nat)
    requires RequestsOk(s) && id in s.requests
    ensures var t := Run(s, txs).state;
      RequestsOk(t) && id in t.requests && (s.requests[id].status != Pending ==> t.requests[id] == s.requests[id])
    decreases |txs|
  {
    if txs != [] {
      var before := Run(s, txs[..|txs| - 1]);
      var tx := txs[|txs| - 1];
      ProcessedOnce(s, txs[..|txs| - 1], id);
      StepKeepsRequests(before.state, tx.call, tx.caller, tx.now);
    }
  }

  /** After a successful deletion the account is not compliant, then or later, without a new accepted submission. */
  lemma DeletionIsFinal(s: State, caller: AccountId, a: AccountId, now: nat, txs: seq<Transaction>, later: nat)
    requires RequestDeletion(s, caller, a, now).result.Ok?
    ensures !IsCompliant(s, a, now)
    ensures var after := Run(RequestDeletion(s, caller, a, now).state, txs);
      IsCompliant(after.state, a, later) ==> Submits(after.records, a)
  {
    OnlySubmissionRestores(RequestDeletion(s, caller, a, now).state, txs, a, later);
  }

  // ---------------------------------------------------------------------------
  // Verification levels
  // ---------------------------------------------------------------------------

  predicate IsStrongDocument(d: DocumentType) {
    d.Passport? || d.CorporateDocument?
  }

  /** The rank of a biometric method: none, single, iris, several. */
  function Strength(b: BiometricMethod): nat {
    if b.NoBiometric? then 0 else if b.IrisScan? then 2 else if b.MultiFactor? then 3 else 1
  }

  /** A stronger document or method, or a lower risk score, never lowers the level. */
  lemma LevelMonotone(d: DocumentType, b: BiometricMethod, score: nat, d': DocumentType, b': BiometricMethod, score': nat)
    requires IsStrongDocument(d) ==> IsStrongDocument(d')
    requires Strength(b) <= Strength(b') && score' <= score
    ensures Level(d, b, score) <= Level(d', b', score') <= 5
  {}

  /** What reaches level three, the default minimum of the US, the EU and the UK. */
  predicate ReachesThree(kyc: Kyc) {
    if kyc.score < 20 then true
    else if kyc.score <= 80 then IsStrongDocument(kyc.document) || !kyc.biometric.NoBiometric?
    else kyc.biometric.MultiFactor? || (IsStrongDocument(kyc.document) && kyc.biometric.IrisScan?)
  }

  /** What reaches level four, the default minimum of Singapore and the UAE. */
  predicate ReachesFour(kyc: Kyc) {
    if kyc.score < 20 then IsStrongDocument(kyc.document) || !kyc.biometric.NoBiometric?
    else if kyc.score <= 80 then
      kyc.biometric.IrisScan? || kyc.biometric.MultiFactor? || (IsStrongDocument(kyc.document) && !kyc.biometric.NoBiometric?)
    else IsStrongDocument(kyc.document) && kyc.biometric.MultiFactor?
  }

  /** Which submissions the default rules accept, by document, biometric method and risk score. */
  lemma DefaultRulesAcceptIff(s: State, caller: AccountId, a: AccountId, j: Jurisdiction, kyc: Kyc, now: nat)
    requires s.rules == DefaultRules() && IsVerifier(s, caller)
    ensures SubmitVerification(s, caller, a, j, kyc, now).result.Ok? <==>
      kyc.score <= 100 && (match j
                           case Singapore => ReachesFour(kyc)
                           case UAE => ReachesFour(kyc)
                           case Other => false
                           case _ => ReachesThree(kyc))
  {
    LevelThresholds(kyc);
  }

  lemma LevelThresholds(kyc: Kyc)
    ensures Level(kyc.document, kyc.biometric, kyc.score) >= 3 <==> ReachesThree(kyc)
    ensures Level(kyc.document, kyc.biometric, kyc.score) >= 4 <==> ReachesFour(kyc)
  {}

  // ---------------------------------------------------------------------------
  // The biometric flag of the rules
  // ---------------------------------------------------------------------------

  /** The two states differ at most in the biometric flags of their rules. */
  predicate SameButFlags(s: State, t: State) {
    && t == s.(rules := t.rules) && t.rules.Keys == s.rules.Keys
    && forall j :: j in s.rules ==> t.rules[j] == s.rules[j].(requiresBiometric := t.rules[j].requiresBiometric)
  }

  predicate SameOutcome(o: Outcome, p: Outcome) {
    SameButFlags(o.state, p.state) && p.result == o.result && p.records == o.records
  }

  lemma SubmissionIgnoresFlag(s: State, t: State, caller: AccountId, a: AccountId, j: Jurisdiction, kyc: Kyc, now: nat)
    requires SameButFlags(s, t)
    ensures SameOutcome(SubmitVerification(s, caller, a, j, kyc, now), SubmitVerification(t, caller, a, j, kyc, now))
  {
    if j in s.rules {
      assert t.rules[j] == s.rules[j].(requiresBiometric := t.rules[j].requiresBiometric);
    }
  }

  lemma {:induction false} BatchAmlIgnoresFlag(s: State, t: State, caller: AccountId, accounts: seq<AccountId>,
      factors: seq<RiskFactors>)
    requires SameButFlags(s, t) && |accounts| == |factors| && IsVerifier(s, caller)
    ensures SameOutcome(BatchAml(s, caller, accounts, factors), BatchAml(t, caller, accounts, factors))
    decreases |accounts|
  {
    if accounts != [] {
      var n := |accounts| - 1;
      BatchAmlIgnoresFlag(s, t, caller, accounts[..n], factors[..n]);
    }
  }

  lemma {:induction false} BatchSanctionsIgnoresFlag(s: State, t: State, caller: AccountId, accounts: seq<AccountId>,
      list: SanctionsList, results: seq<bool>)
    requires SameButFlags(s, t) && |accounts| == |results|
    ensures SameOutcome(BatchSanctions(s, caller, accounts, list, results), BatchSanctions(t, caller, accounts, list, results))
    decreases |accounts|
  {
    if accounts != [] {
      var n := |accounts| - 1;
      BatchSanctionsIgnoresFlag(s, t, caller, accounts[..n], list, results[..n]);
    }
  }

  lemma ScreeningIgnoresFlag(s: State, t: State, caller: AccountId, a: AccountId, passed: bool, f: RiskFactors)
    requires SameButFlags(s, t)
    ensures SameOutcome(UpdateAml(s, caller, a, passed, f), UpdateAml(t, caller, a, passed, f))
  {}

  lemma RulesIgnoreFlag(s: State, t: State, caller: AccountId, j: Jurisdiction, rules: Rules, now: nat)
    requires SameButFlags(s, t)
    ensures SameOutcome(Step(s, UpdateRules(j, rules), caller, now), Step(t, UpdateRules(j, rules), caller, now))
  {}

  lemma SanctionsIgnoreFlag(s: State, t: State, caller: AccountId, a: AccountId, passed: bool, list: SanctionsList)
    requires SameButFlags(s, t)
    ensures SameOutcome(UpdateSanctions(s, caller, a, passed, list), UpdateSanctions(t, caller, a, passed, list))
  {}

  lemma PersonalIgnoresFlag(s: State, t: State, caller: AccountId, a: AccountId, c: ConsentStatus, now: nat)
    requires SameButFlags(s, t)
    ensures SameOutcome(UpdateConsent(s, caller, a, c, now), UpdateConsent(t, caller, a, c, now))
    ensures SameOutcome(RequestDeletion(s, caller, a, now), RequestDeletion(t, caller, a, now))
    ensures SameOutcome(Revoke(s, caller, a), Revoke(t, caller, a))
  {}

  lemma RequestIgnoresFlag(s: State, t: State, caller: AccountId, j: Jurisdiction, documentHash: bytes, biometricHash: bytes,
      now: nat)
    requires SameButFlags(s, t)
    ensures SameOutcome(CreateRequest(s, caller, j, documentHash, biometricHash, now),
                        CreateRequest(t, caller, j, documentHash, biometricHash, now))
  {}

  lemma ProcessIgnoresFlag(s: State, t: State, caller: AccountId, id: nat, kyc: Kyc, now: nat)
    requires SameButFlags(s, t)
    ensures SameOutcome(ProcessRequest(s, caller, id, kyc, now), ProcessRequest(t, caller, id, kyc, now))
  {
    if id in s.requests {
      SubmissionIgnoresFlag(s, t, caller, s.requests[id].account, s.requests[id].jurisdiction, kyc, now);
    }
  }

  lemma BatchIgnoresFlag(s: State, t: State, call: Call, caller: AccountId, now: nat)
    requires SameButFlags(s, t) && (call.ScreenMany? || call.ScreenManySanctions?)
    ensures SameOutcome(Step(s, call, caller, now), Step(t, call, caller, now))
  {
    match call
    case ScreenMany(accounts, factorsList) =>
      if IsVerifier(s, caller) && |accounts| == |factorsList| {
        BatchAmlIgnoresFlag(s, t, caller, accounts, factorsList);
      }
    case ScreenManySanctions(accounts, list, results) =>
      if IsVerifier(s, caller) && |accounts| == |results| {
        BatchSanctionsIgnoresFlag(s, t, caller, accounts, list, results);
      }
  }

  lemma OwnerIgnoresFlag(s: State, t: State, call: Call, caller: AccountId, now: nat)
    requires SameButFlags(s, t) && (call.AddVerifier? || call.RegisterProvider?)
    ensures SameOutcome(Step(s, call, caller, now), Step(t, call, caller, now))
  {}

  lemma StepIgnoresFlag(s: State, t: State, call: Call, caller: AccountId, now: nat)
    requires SameButFlags(s, t)
    ensures SameOutcome(Step(s, call, caller, now), Step(t, call, caller, now))
  {
    match call
    case AddVerifier(_) => OwnerIgnoresFlag(s, t, call, caller, now);
    case RegisterProvider(_, _) => OwnerIgnoresFlag(s, t, call, caller, now);
    case UpdateRules(j, rules) => RulesIgnoreFlag(s, t, caller, j, rules, now);
    case Submit(a, j, kyc) => SubmissionIgnoresFlag(s, t, caller, a, j, kyc, now);
    case Screen(a, passed, f) => ScreeningIgnoresFlag(s, t, caller, a, passed, f);
    case ScreenSanctions(a, passed, list) => SanctionsIgnoreFlag(s, t, caller, a, passed, list);
    case RevokeCall(a) => PersonalIgnoresFlag(s, t, caller, a, NotGiven, now);
    case SetConsent(a, c) => PersonalIgnoresFlag(s, t, caller, a, c, now);
    case Delete(a) => PersonalIgnoresFlag(s, t, caller, a, NotGiven, now);
    case Create(j, documentHash, biometricHash) => RequestIgnoresFlag(s, t, caller, j, documentHash, biometricHash, now);
    case Process(id, kyc) => ProcessIgnoresFlag(s, t, caller, id, kyc, now);
    case _ => BatchIgnoresFlag(s, t, call, caller, now);
  }

  /** Two contracts that differ only in biometric flags answer every run alike and end alike but for those flags. */
  lemma {:induction false} BiometricFlagNeverRead(s: State, t: State, txs: seq<Transaction>)
    requires SameButFlags(s, t)
    ensures SameOutcome(Run(s, txs), Run(t, txs))
    decreases |txs|
  {
    if txs != [] {
      var tx := txs[|txs| - 1];
      BiometricFlagNeverRead(s, t, txs[..|txs| - 1]);
      StepIgnoresFlag(Run(s, txs[..|txs| - 1]).state, Run(t, txs[..|txs| - 1]).state, tx.call, tx.caller, tx.now);
    }
  }

  /**
   * Under any rules: a submission without a biometric method is accepted exactly
   * when its document and its score alone reach the minimum level of the
   * jurisdiction, whether or not the rules ask for a biometric check.
   */
  lemma BiometricFlagNotEnforced(s: State, caller: AccountId, a: AccountId, j: Jurisdiction, kyc: Kyc, now: nat)
    requires IsVerifier(s, caller) && j in s.rules && kyc.biometric.NoBiometric?
    ensures SubmitVerification(s, caller, a, j, kyc, now).result.Ok? <==>
      (&& kyc.score <= 100
       && s.rules[j].minimumLevel <= (if IsStrongDocument(kyc.document) then 3 else 2)
                                     + (if kyc.score < 20 then 1 else if kyc.score > 80 then -2 else 0))
  {
    LevelWithoutBiometric(kyc);
  }

  lemma LevelWithoutBiometric(kyc: Kyc)
    requires kyc.biometric.NoBiometric?
    ensures Level(kyc.document, kyc.biometric, kyc.score) == (if IsStrongDocument(kyc.document) then 3 else 2)
                                                             + (if kyc.score < 20 then 1 else if kyc.score > 80 then -2 else 0)
  {}

  predicate AcceptsWithoutBiometric(s: State, caller: AccountId, a: AccountId, j: Jurisdiction, kyc: Kyc, now: nat) {
    kyc.biometric.NoBiometric? && SubmitVerification(s, caller, a, j, kyc, now).result.Ok?
  }

  /** The rules keep every submission without a biometric method out exactly with a minimum level of at least five. */
  lemma BiometricEnforcedIff(s: State, caller: AccountId, a: AccountId, j: Jurisdiction, now: nat)
    requires IsVerifier(s, caller) && j in s.rules
    ensures (forall kyc :: !AcceptsWithoutBiometric(s, caller, a, j, kyc, now)) <==> s.rules[j].minimumLevel >= 5
  {
    var best := Kyc([], Low, Passport, NoBiometric, 0);
    BiometricFlagNotEnforced(s, caller, a, j, best, now);
    assert AcceptsWithoutBiometric(s, caller, a, j, best, now) <==> s.rules[j].minimumLevel <= 4;
    forall kyc | AcceptsWithoutBiometric(s, caller, a, j, kyc, now) ensures s.rules[j].minimumLevel <= 4 {
      BiometricFlagNotEnforced(s, caller, a, j, kyc, now);
    }
  }

  /** Under the default rules of Singapore and the UAE that is a strong document and a score under 20. */
  lemma DefaultRulesWithoutBiometric(s: State, caller: AccountId, a: AccountId, kyc: Kyc, now: nat)
    requires s.rules == DefaultRules() && IsVerifier(s, caller) && kyc.biometric.NoBiometric?
    ensures s.rules[Singapore].requiresBiometric && s.rules[UAE].requiresBiometric
    ensures SubmitVerification(s, caller, a, Singapore, kyc, now).result.Ok? <==> IsStrongDocument(kyc.document) && kyc.score < 20
    ensures SubmitVerification(s, caller, a, UAE, kyc, now).result.Ok? <==> IsStrongDocument(kyc.document) && kyc.score < 20
  {
    BiometricFlagNotEnforced(s, caller, a, Singapore, kyc, now);
    BiometricFlagNotEnforced(s, caller, a, UAE, kyc, now);
  }

  /** A submission for Singapore that is accepted without a biometric method. */
  lemma AcceptedWithoutBiometric()
    ensures SubmitVerification(Initial(1), 1, 2, Singapore, Kyc([], Low, Passport, NoBiometric, 0), 0).result.Ok?
  {
    DefaultRulesWithoutBiometric(Initial(1), 1, 2, Kyc([], Low, Passport, NoBiometric, 0), 0);
  }

  // ---------------------------------------------------------------------------
  // A prohibited risk level that is lifted
  // ---------------------------------------------------------------------------

  /** An account submitted as prohibited is compliant exactly when it qualifies otherwise and a screening softened the level. */
  lemma ProhibitedCompliantIff(h: seq<Event>, now: nat)
    requires LastSubmission(h) < |h| && h[LastSubmission(h)].risk == Prohibited
    ensures var i := LastSubmission(h);
      CompliantByHistory(h, now) <==> Softened(h[i + 1..]) && Qualifies(h[i].(risk := Low), h[i + 1..], now)
  {
    var i := LastSubmission(h);
    QualifiesWhenSoftened(h[i], h[i + 1..], now);
  }

  /**
   * Over every run: an account whose latest accepted submission said prohibited
   * is compliant exactly when it qualifies otherwise and a later screening
   * softened the level.
   */
  lemma ProhibitedRunsCompliantIff(owner: AccountId, txs: seq<Transaction>, a: AccountId, now: nat)
    requires var h := HistoryOf(Run(Initial(owner), txs).records, a);
      LastSubmission(h) < |h| && h[LastSubmission(h)].risk == Prohibited
    ensures var o := Run(Initial(owner), txs);
      var h := HistoryOf(o.records, a);
      var i := LastSubmission(h);
      IsCompliant(o.state, a, now) <==> Softened(h[i + 1..]) && Qualifies(h[i].(risk := Low), h[i + 1..], now)
  {
    CompliantIffHistory(owner, txs, a, now);
    ProhibitedCompliantIff(HistoryOf(Run(Initial(owner), txs).records, a), now);
  }

  predicate Softened(since: seq<Event>) {
    exists e :: e in since && Softens(e)
  }

  lemma QualifiesWhenSoftened(sub: Event, since: seq<Event>, now: nat)
    requires sub.Submitted? && sub.risk == Prohibited
    ensures Qualifies(sub, since, now) <==> Softened(since) && Qualifies(sub.(risk := Low), since, now)
  {}

  /** One account, submitted as prohibited at time 0, then screened with one risk factor. */
  function LiftingRun(): seq<Transaction> {
    var kyc := Kyc([], Prohibited, Passport, NoBiometric, 0);
    [Transaction(Submit(2, US, kyc), 1, 0, true),
     Transaction(Screen(2, true, NO_FACTORS.(pepStatus := true)), 1, 0, true),
     Transaction(ScreenSanctions(2, true, UnList), 1, 0, true),
     Transaction(SetConsent(2, Given), 2, 0, true)]
  }

  lemma RunAppend(s: State, txs: seq<Transaction>, tx: Transaction)
    ensures Run(s, txs + [tx]).state == Perform(Run(s, txs).state, tx).state
  {
    assert (txs + [tx])[..|txs|] == txs;
  }

  /** A run at whose end an account that was submitted as prohibited is compliant. */
  lemma ProhibitedBecomesCompliant()
    ensures IsCompliant(Run(Initial(1), LiftingRun()).state, 2, 0)
  {
    var txs := LiftingRun();
    var s0 := Initial(1);
    assert txs == ([] + [txs[0]]) + [txs[1]] + [txs[2]] + [txs[3]];
    RunAppend(s0, [], txs[0]);
    RunAppend(s0, [] + [txs[0]], txs[1]);
    RunAppend(s0, ([] + [txs[0]]) + [txs[1]], txs[2]);
    RunAppend(s0, ([] + [txs[0]]) + [txs[1]] + [txs[2]], txs[3]);
    var kyc := Kyc([], Prohibited, Passport, NoBiometric, 0);
    var d0 := Data(Verified, US, Prohibited, 0, YEAR, kyc, false, false, NO_FACTORS, UnList, NotGiven, 0, 2555 * DAY);
    var s1, s2 := Perform(s0, txs[0]).state, Perform(Perform(s0, txs[0]).state, txs[1]).state;
    assert s1.data == map[2 := d0] && s1.verifiers == s0.verifiers;
    assert s2.data[2] == AmlData(d0, true, NO_FACTORS.(pepStatus := true)) && s2.verifiers == s0.verifiers;
    assert s2.data[2].riskLevel == Medium && s2.data[2].status == Verified;
  }

  // ---------------------------------------------------------------------------
  // The contract
  // ---------------------------------------------------------------------------

  class ComplianceRegistryContract {
    var owner: AccountId
    var verifiers: map<AccountId, bool>
    var jurisdictionRules: map<Jurisdiction, Rules>
    var complianceData: map<AccountId, Data>
    var verificationRequests: map<nat, Request>
    var requestCounter: nat
    var accountRequests: map<AccountId, nat>

    function Value(): State
      reads this
    {
      State(owner, verifiers, jurisdictionRules, complianceData, verificationRequests, requestCounter, accountRequests)
    }

    constructor (caller: AccountId)
      ensures Value() == Initial(caller)
    {
      owner := caller;
      verifiers := map[caller := true];
      jurisdictionRules := DefaultRules();
      complianceData := map[];
      verificationRequests := map[];
      requestCounter := 0;
      accountRequests := map[];
    }

    method EnsureVerifier(caller: AccountId) returns (ok: bool)
      ensures ok == IsVerifier(Value(), caller)
    {
      ok := if caller in verifiers then verifiers[caller] else false;
    }

    method CalculateVerificationLevel(document: DocumentType, biometric: BiometricMethod, score: nat) returns (level: nat)
      ensures level == Level(document, biometric, score)
    {
      level := 1;
      match document {
        case Passport => level := level + 2;
        case CorporateDocument => level := level + 2;
        case _ => level := level + 1;
      }
      match biometric {
        case NoBiometric =>
        case IrisScan => level := level + 2;
        case MultiFactor => level := level + 3;
        case _ => level := level + 1;
      }
      if score < 20 {
        level := level + 1;
      } else if score > 80 {
        level := SaturatingSub(level, 2);
      }
      level := Min(level, 5);
    }

    method SubmitKyc(caller: AccountId, account: AccountId, j: Jurisdiction, kyc: Kyc, now: nat) returns (r: Result<nat, Error>)
      modifies this
      ensures var o := SubmitVerification(old(Value()), caller, account, j, kyc, now); Value() == o.state && r == o.result
    {
      var allowed := EnsureVerifier(caller);
      if !allowed {
        return Err(NotAuthorized);
      }
      if kyc.score > 100 {
        return Err(InvalidRiskScore);
      }
      if j !in jurisdictionRules {
        return Err(JurisdictionNotSupported);
      }
      var rules := jurisdictionRules[j];
      var level := CalculateVerificationLevel(kyc.document, kyc.biometric, kyc.score);
      if level < rules.minimumLevel {
        return Err(Error.NotVerified);
      }
      var expiry := now + YEAR;
      var retentionUntil := now + rules.retentionDays * DAY;
      complianceData := complianceData[account := Data(Verified, j, kyc.risk, now, expiry, kyc, false, false, NO_FACTORS, UnList,
                                                       NotGiven, 0, retentionUntil)];
      return Ok(0);
    }

    method UpdateAmlStatus(caller: AccountId, account: AccountId, passed: bool, f: RiskFactors) returns (r: Result<nat, Error>)
      modifies this
      ensures var o := UpdateAml(old(Value()), caller, account, passed, f); Value() == o.state && r == o.result
    {
      var allowed := EnsureVerifier(caller);
      if !allowed {
        return Err(NotAuthorized);
      }
      if account !in complianceData {
        return Err(Error.NotVerified);
      }
      var data := complianceData[account].(amlChecked := passed, factors := f);
      var riskCount := FactorCount(f);
      if !passed || riskCount >= 3 {
        data := data.(status := Rejected);
        data := data.(riskLevel := Prohibited);
      } else if riskCount >= 2 {
        data := data.(riskLevel := High);
      } else if riskCount >= 1 {
        data := data.(riskLevel := Medium);
      }
      complianceData := complianceData[account := data];
      return Ok(0);
    }

    method UpdateSanctionsStatus(caller: AccountId, account: AccountId, passed: bool, list: SanctionsList)
        returns (r: Result<nat, Error>)
      modifies this
      ensures var o := UpdateSanctions(old(Value()), caller, account, passed, list); Value() == o.state && r == o.result
    {
      var allowed := EnsureVerifier(caller);
      if !allowed {
        return Err(NotAuthorized);
      }
      if account !in complianceData {
        return Err(Error.NotVerified);
      }
      var data := complianceData[account].(sanctionsChecked := passed, sanctionsList := list);
      if !passed {
        data := data.(status := Rejected);
        data := data.(riskLevel := Prohibited);
      }
      complianceData := complianceData[account := data];
      return Ok(0);
    }

    method RevokeVerification(caller: AccountId, account: AccountId) returns (r: Result<nat, Error>)
      modifies this
      ensures var o := Revoke(old(Value()), caller, account); Value() == o.state && r == o.result
    {
      var allowed := EnsureVerifier(caller);
      if !allowed {
        return Err(NotAuthorized);
      }
      if account !in complianceData {
        return Err(Error.NotVerified);
      }
      complianceData := complianceData[account := complianceData[account].(status := Rejected)];
      return Ok(0);
    }

    method SetConsentStatus(caller: AccountId, account: AccountId, consent: ConsentStatus, now: nat)
        returns (r: Result<nat, Error>)
      modifies this
      ensures var o := UpdateConsent(old(Value()), caller, account, consent, now); Value() == o.state && r == o.result
    {
      var allowed := EnsureVerifier(caller);
      if caller != account && !allowed {
        return Err(NotAuthorized);
      }
      if account !in complianceData {
        return Err(Error.NotVerified);
      }
      complianceData := complianceData[account := complianceData[account].(consent := consent, consentAt := now)];
      return Ok(0);
    }

    method CheckDataRetention(account: AccountId, now: nat) returns (expired: bool)
      ensures expired <==> account in complianceData && now > complianceData[account].retainUntil
    {
      expired := account in complianceData && now > complianceData[account].retainUntil;
    }

    method RequestDataDeletion(caller: AccountId, account: AccountId, now: nat) returns (r: Result<nat, Error>)
      modifies this
      ensures var o := RequestDeletion(old(Value()), caller, account, now); Value() == o.state && r == o.result
    {
      if caller != account {
        return Err(NotAuthorized);
      }
      var expired := CheckDataRetention(account, now);
      if !expired {
        return Err(DataRetentionExpired);
      }
      if complianceData[account].consent != Withdrawn {
        return Err(ConsentNotGiven);
      }
      complianceData := complianceData[account := complianceData[account].(status := Expired)];
      return Ok(0);
    }

    method CreateVerificationRequest(caller: AccountId, j: Jurisdiction, documentHash: bytes, biometricHash: bytes, now: nat)
        returns (r: Result<nat, Error>)
      modifies this
      ensures var o := CreateRequest(old(Value()), caller, j, documentHash, biometricHash, now); Value() == o.state && r == o.result
    {
      if caller in accountRequests {
        var existing := accountRequests[caller];
        if existing in verificationRequests && verificationRequests[existing].status == Pending {
          return Err(AlreadyVerified);
        }
      }
      var id := requestCounter;
      requestCounter := requestCounter + 1;
      verificationRequests := verificationRequests[id := Request(caller, j, documentHash, biometricHash, now, Pending)];
      accountRequests := accountRequests[caller := id];
      return Ok(id);
    }

    method ProcessVerificationRequest(caller: AccountId, id: nat, kyc: Kyc, now: nat) returns (r: Result<nat, Error>)
      modifies this
      ensures var o := ProcessRequest(old(Value()), caller, id, kyc, now); Value() == o.state && r == o.result
    {
      var allowed := EnsureVerifier(caller);
      if !allowed {
        return Err(NotAuthorized);
      }
      if id !in verificationRequests {
        return Err(Error.NotVerified);
      }
      var request := verificationRequests[id];
      if request.status != Pending {
        return Err(AlreadyVerified);
      }
      r := SubmitKyc(caller, request.account, request.jurisdiction, kyc, now);
      if r.Ok? {
        verificationRequests := verificationRequests[id := request.(status := Verified)];
      }
    }

    /** The answers are computed for every account, also for those without data. */
    method BatchAmlCheck(caller: AccountId, accounts: seq<AccountId>, factors: seq<RiskFactors>)
        returns (r: Result<seq<bool>, Error>)
      modifies this
      ensures var o := Step(old(Value()), ScreenMany(accounts, factors), caller, 0);
        Value() == o.state && (r.Ok? <==> o.result.Ok?) && (r.Err? ==> r.error == o.result.error)
      ensures r.Ok? ==> |r.value| == |factors| && forall i :: 0 <= i < |factors| ==> r.value[i] == BatchPasses(factors[i])
    {
      var allowed := EnsureVerifier(caller);
      if !allowed {
        return Err(NotAuthorized);
      }
      if |accounts| != |factors| {
        return Err(Error.NotVerified);
      }
      var results := ScreenFactors(caller, accounts, factors);
      return Ok(results);
    }

    method ScreenFactors(caller: AccountId, accounts: seq<AccountId>, factors: seq<RiskFactors>) returns (results: seq<bool>)
      requires |accounts| == |factors| && IsVerifier(Value(), caller)
      modifies this
      ensures Value() == BatchAml(old(Value()), caller, accounts, factors).state
      ensures |results| == |factors| && forall i :: 0 <= i < |factors| ==> results[i] == BatchPasses(factors[i])
    {
      results := [];
      ghost var start := Value();
      ghost var o := Outcome(start, Ok(0), []);
      for i := 0 to |accounts|
        invariant |results| == i && forall k :: 0 <= k < i ==> results[k] == BatchPasses(factors[k])
        invariant o == BatchAml(start, caller, accounts[..i], factors[..i]) && Value() == o.state
      {
        BatchAmlStep(start, caller, accounts, factors, i);
        var passed := FactorCount(factors[i]) < 3 && factors[i].sourceOfFundsVerified;
        results := results + [passed];
        if accounts[i] in complianceData {
          var updated := UpdateAmlStatus(caller, accounts[i], passed, factors[i]);
          assert updated.Ok?;
        }
        o := BatchAml(start, caller, accounts[..i + 1], factors[..i + 1]);
      }
      assert accounts[..|accounts|] == accounts && factors[..|factors|] == factors;
    }

    method BatchSanctionsCheck(caller: AccountId, accounts: seq<AccountId>, list: SanctionsList, results: seq<bool>)
        returns (r: Result<nat, Error>)
      modifies this
      ensures var o := Step(old(Value()), ScreenManySanctions(accounts, list, results), caller, 0);
        Value() == o.state && r == o.result
    {
      var allowed := EnsureVerifier(caller);
      if !allowed {
        return Err(NotAuthorized);
      }
      if |accounts| != |results| {
        return Err(Error.NotVerified);
      }
      r := ScreenEach(caller, accounts, list, results);
    }

    method ScreenEach(caller: AccountId, accounts: seq<AccountId>, list: SanctionsList, results: seq<bool>)
        returns (r: Result<nat, Error>)
      requires |accounts| == |results|
      modifies this
      ensures var o := BatchSanctions(old(Value()), caller, accounts, list, results); Value() == o.state && r == o.result
    {
      ghost var start := Value();
      ghost var o := Outcome(start, Ok(0), []);
      for i := 0 to |accounts|
        invariant o == BatchSanctions(start, caller, accounts[..i], list, results[..i])
        invariant Value() == o.state && o.result == Ok(0)
      {
        BatchStep(start, caller, accounts, list, results, i);
        var updated := UpdateSanctionsStatus(caller, accounts[i], results[i], list);
        if updated.Err? {
          BatchStops(start, caller, accounts, list, results, i + 1);
          return updated;
        }
        o := BatchSanctions(start, caller, accounts[..i + 1], list, results[..i + 1]);
      }
      assert accounts[..|accounts|] == accounts && results[..|results|] == results;
      return Ok(0);
    }

    method IsAccountCompliant(account: AccountId, now: nat) returns (compliant: bool)
      ensures compliant == IsCompliant(Value(), account, now)
    {
      if account !in complianceData {
        return false;
      }
      var data := complianceData[account];
      return data.status == Verified && data.expiresAt > now && data.riskLevel != Prohibited && data.amlChecked
             && data.sanctionsChecked && data.consent == Given && now <= data.retainUntil;
    }
  }

  lemma BatchAmlStep(s: State, caller: AccountId, accounts: seq<AccountId>, factors: seq<RiskFactors>, i: nat)
    requires |accounts| == |factors| && i < |accounts| && IsVerifier(s, caller)
    ensures var o, t := BatchAml(s, caller, accounts[..i], factors[..i]), BatchAml(s, caller, accounts[..i + 1], factors[..i + 1]);
      && IsVerifier(o.state, caller)
      && t.state == (if accounts[i] !in o.state.data then o.state
                     else UpdateAml(o.state, caller, accounts[i], BatchPasses(factors[i]), factors[i]).state)
  {
    assert accounts[..i + 1][..i] == accounts[..i] && factors[..i + 1][..i] == factors[..i];
  }

  lemma BatchStep(s: State, caller: AccountId, accounts: seq<AccountId>, list: SanctionsList, results: seq<bool>, i: nat)
    requires |accounts| == |results| && i < |accounts|
    requires BatchSanctions(s, caller, accounts[..i], list, results[..i]).result.Ok?
    ensures var o := BatchSanctions(s, caller, accounts[..i], list, results[..i]);
      var p := UpdateSanctions(o.state, caller, accounts[i], results[i], list);
      BatchSanctions(s, caller, accounts[..i + 1], list, results[..i + 1]) == Outcome(p.state, p.result, o.records + p.records)
  {
    assert accounts[..i + 1][..i] == accounts[..i] && results[..i + 1][..i] == results[..i];
  }

  /** A batch that failed stays failed however many accounts follow. */
  lemma {:induction false} BatchStops(s: State, caller: AccountId, accounts: seq<AccountId>, list: SanctionsList,
      results: seq<bool>, i: nat)
    requires |accounts| == |results| && i <= |accounts|
    requires BatchSanctions(s, caller, accounts[..i], list, results[..i]).result.Err?
    ensures var o := BatchSanctions(s, caller, accounts[..i], list, results[..i]);
      BatchSanctions(s, caller, accounts, list, results) == o
    decreases |accounts|
  {
    var n := |accounts| - 1;
    if i == |accounts| {
      assert accounts[..i] == accounts && results[..i] == results;
    } else {
      assert accounts[..n][..i] == accounts[..i] && results[..n][..i] == results[..i];
      BatchStops(s, caller, accounts[..n], list, results[..n], i);
    }
  }
}

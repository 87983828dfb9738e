# Meridian: models and proofs

Dafny models of the stateful and algorithmic core of the Meridian repository, with proofs of
the properties that span several of its functions. Verify with `dafny verify dfyconfig.toml`.

- **Sessions and tokens** (`Tokens`, `Flows`, `AuthServices`, `TokenLifetimes`, `Lockout`,
  `Recovery`, `RecoveryLifetimes`): the auth
  service keeps sessions and token ids in two separate structures. The main theorem is that
  they agree in every state of every run from the empty service. Hash map searches are any choice the code could make, clock readings are
  inputs, and an overflow may strike at either id allocation of a pair.
- **Webhook delivery** (`Webhooks`, `WebhookLease`, `WebhookProgress`): a step system in which every database call
  of every worker is one atomic step. Line 230 of the source lacks a comma between two
  parameters; the evident intent is modelled.
- **Rate limiting** (`RateLimit`, `RateLimitExact`): the process-local store and the Redis script, related over
  whole runs.
- **Pagination** (`Base64`, `Base64Format`, `Base64Changes`, `Cursors`, `CursorLayout`, `CursorChanges`,
  `Pagination`): the cursor codec, its checksum as written
  (no reduction modulo 255, and the two sums overlap), and the walk along the cursors.
- **Commitments** (`MerkleTrees`, `MerkleProofs`, `LeaderboardProofs`, `EventProofs`,
  `StateRoots`, `Scale`, `ErrorChain`, `AuditChain`): four implementations of one hash tree, the
  audit hash chain and the error log chain. Where digests are 32 bytes, collisions exist, so
  binding is stated for the inputs that are actually hashed; text digests use an injective hash,
  and `MerkleProofs.CollisionFreeExists` and `AuditChain.CollisionFreeExists` exhibit one.
- **Compliance contracts** (`ZkCompliance`, `ZkDecisions`, `ComplianceRegistry`,
  `RegistryDecisions`): messages as state
  transformers; the proof backend is an arbitrary function, and the host may or may not undo
  the writes of a message that returns an error.
- **Emergency transfers** (`EmergencyTransfer`, `TransferTrail`): the reducer and its transition matrix. The
  doubled `EXPIRE` case at lines 317 to 326 is read as one.
- **Money** (`Amounts`): decimal text, checked arithmetic and fees.

Each class method is proved against a function on values, and the theorems are about those
functions: what a run can never do, and, with the conditions written out on their own, what
each operation answers, stores and leaves in place, and for how long; `Wrappers`, `ByteStrings` and `Digests` hold what the modules share.

## Findings

- A login that fails on the second token id, or on the session id, leaves an active access id
  that no session holds: `Flows.LoginCoherentIff` says exactly when, and
  `Flows.LoginMayLeaveOrphan` gives a state. No run from the empty service gets there, because
  ids are handed out in pairs: `Flows.RunsCoherent`.
- The lockout bound fails at the last second of a 64-bit clock: `Lockout.LockoutBoundIff`.
- A worker that re-reads its row late takes a later worker's token for its own and can fail
  that worker's delivery, so that a third worker starts while the second is still inside its
  lease: `WebhookLease.LateRereadBreaksSeparation`. The exact limits are the shortest retry
  delay without replays, which the defaults exceed, and zero with them:
  `WebhookLease.LeaseAgainstDelayIff`, `WebhookLease.LeaseAloneSeparatesIff`. The comment at
  line 159 of the source calls the token fresh; the code never compares it with its claim.
- A cursor for a subject of 65536 bytes or more does not decode to itself:
  `Cursors.RoundTripIff`. A walk skips items when a page ends between equal keys:
  `Pagination.WalkCompleteIff`.
- Three kinds of changes of one character of a cursor's text go unnoticed:
  `CursorChanges.OneCharacterUnnoticedIff`.
- The leaderboard service returns the hashed leaf, which the verifiers hash again:
  `LeaderboardProofs.ComputedLeafVerifiesIff`.
- A recovery request is not always idempotent once a session has several records:
  `Recovery.RequestIdempotentIff`, with a run in `Recovery.TwoTokensForOneSession`.
- The documentation of `verify_and_store_proof` says that unverifiable proofs are stored as
  rejected. That path returns an error, so the host may undo it, and a check that cannot run
  leaves the proof pending: `ZkCompliance.FailedSubmissionStoredIff` and
  `ZkCompliance.RejectionMayBeMissing`.
- A passed screening with one or two risk factors lifts a prohibited risk level:
  `ComplianceRegistry.ProhibitedRunsCompliantIff`, with a run in
  `ComplianceRegistry.ProhibitedBecomesCompliant`.
- The rule `requires_biometric` is stored, and no decision reads it:
  `ComplianceRegistry.BiometricFlagNeverRead`. `ComplianceRegistry.BiometricFlagNotEnforced`
  says what is accepted instead, `ComplianceRegistry.BiometricEnforcedIff` which rules have the
  effect all the same, and `ComplianceRegistry.AcceptedWithoutBiometric` gives a submission.
- `1.+5` is accepted as 1.05, and `+1.5` is accepted: `Amounts.AcceptedIff` gives all accepted
  texts, and `Amounts.AcceptedPlainIff` those that are plain decimals.

## Model

| member | source | states |
|---|---|---|
| `Tokens.IssueKeepsWf` | meridian-api/src/auth/tokens.rs:179-204 | issuing a pair keeps every issued id in exactly one of the active-access, active-refresh and revoked sets, also when an id counter overflow cuts it short |
| `Tokens.RevokedAllKeepsWf` | meridian-api/src/auth/tokens.rs:316-339 | revoking a subject leaves it no active id, leaves every other subject’s active ids alone, and keeps the partition of the issued ids |
| `Tokens.RevokeKeepsWf` | meridian-api/src/auth/tokens.rs:308-312 | revoking one id keeps that partition exactly when the id was ever issued |
| `Tokens.RotatedKeepsWf` | meridian-api/src/auth/tokens.rs:248-305 | retiring a refresh token and its paired access token keeps the partition and hands out no id |
| `Tokens.OperationKeepsWfIff` | meridian-api/src/auth/tokens.rs:179-352 | issuing, revoking, sweeping and refreshing keep the partition and the pairing, except exactly the revocation of an id that was never issued |
| `Tokens.RefreshAllOrNothing` | meridian-api/src/auth/tokens.rs:248-305 | every failure but replay detection leaves every field of the store as it was; a live token fails exactly when fewer than two ids are left; replay is reported exactly for revoked ids |
| `Tokens.RefreshRotates` | meridian-api/src/auth/tokens.rs:248-305 | a successful rotation retires exactly the presented token and its access token and activates exactly two fresh ids of the same subject, and the new access token verifies unless its lifetime is zero |
| `Tokens.VerifyExactly` | meridian-api/src/auth/tokens.rs:207-224 | a token verifies exactly when its id is an active access id, it names the subject the id was issued to, and it has not expired |
| `Tokens.TokenStore.NextTokenId` | meridian-api/src/auth/tokens.rs:164-169 | the counter moves on by one, or the call fails and nothing moves when it would overflow |
| `Tokens.TokenStore.IssuePair` | meridian-api/src/auth/tokens.rs:179-204 | the store after issuing, with the exact partial state when the second id cannot be had |
| `Tokens.TokenStore.VerifyAccess` | meridian-api/src/auth/tokens.rs:207-224 | the answer of the verification function on the current store, nothing written |
| `Tokens.TokenStore.Revoke` | meridian-api/src/auth/tokens.rs:308-312 | the store after revoking one id |
| `Tokens.TokenStore.RevokeAllForSubject` | meridian-api/src/auth/tokens.rs:316-339 | the two sweeps over the active sets revoke exactly the subject’s ids |
| `Tokens.TokenStore.RevokeAllAccessForSubject` | meridian-api/src/auth/tokens.rs:341-352 | the sweep over the active access ids revokes exactly the subject’s |
| `Tokens.TokenStore.Snapshot` | meridian-api/src/auth/tokens.rs:402-411 | the snapshot is the store’s value |
| `Tokens.TokenStore.Restore` | meridian-api/src/auth/tokens.rs:414-421 | restoring brings back exactly the snapshot’s value |
| `Tokens.TokenStore.Refresh` | meridian-api/src/auth/tokens.rs:248-305 | the in-place rotation with its rollback ends in the state and reply of the refresh function |
| `Flows.CoherentMeans` | meridian-api/src/auth/flows.rs:153-476 | what agreement gives: the active ids are exactly the ids held by non-superseded sessions, one session per id, every issued id in exactly one set |
| `Flows.VerifiesIffLive` | meridian-api/src/auth/flows.rs:372-375 | in every state in agreement a token verifies exactly when it is unexpired and its id is the access id of a live session of the subject it names |
| `Flows.RunsVerifyLive` | meridian-api/src/auth/flows.rs:153-476 | so it does in every state of every run from the empty service |
| `Flows.LoginCoherentIff` | meridian-api/src/auth/flows.rs:153-236 | login keeps sessions and store in agreement except exactly when an id counter overflows after the first token id was handed out |
| `Flows.LoginMayLeaveOrphan` | meridian-api/src/auth/flows.rs:209-220 | a state in agreement, with one token id left, from which the next login breaks the agreement |
| `Flows.LogoutCoherent` | meridian-api/src/auth/flows.rs:255-290 | logout of any session id keeps agreement |
| `Flows.SweepFindsNothing` | meridian-api/src/auth/flows.rs:314-367 | once a subject’s live sessions are revoked, the sweep over the store that follows finds nothing |
| `Flows.LogoutAllCoherent` | meridian-api/src/auth/flows.rs:314-367 | logging out everywhere keeps agreement and leaves the subject no live session and no active id |
| `Flows.ReplayCoherent` | meridian-api/src/auth/flows.rs:400-476 | superseding all sessions of a subject while revoking all its ids keeps agreement |
| `Flows.RefreshSuccessMoves` | meridian-api/src/auth/flows.rs:400-476 | whichever session the search may look at, a refresh that succeeds moves the session that holds the presented id to the two next ids |
| `Flows.RefreshFailureKeeps` | meridian-api/src/auth/flows.rs:400-476 | a refresh that fails for another reason than replay changes nothing |
| `Flows.RefreshCoherent` | meridian-api/src/auth/flows.rs:400-476 | with any token presented a refresh keeps sessions and store in agreement |
| `Flows.RefreshIsolates` | meridian-api/src/auth/flows.rs:400-476 | refreshing one session leaves every other session and its pair active and retires exactly the old pair |
| `Flows.ReplayEndsSubject` | meridian-api/src/auth/flows.rs:400-476 | a replayed token ends all sessions of the subject it names and none of another subject |
| `Flows.CallCoherent` | meridian-api/src/auth/flows.rs:153-476 | every call keeps agreement exactly when it is not a login cut short by an overflow |
| `Flows.PathsCoherentIff` | meridian-api/src/auth/flows.rs:153-476 | from any state in agreement, all states of a run agree exactly as long as no login was cut short by an overflow |
| `Flows.RunsCoherent` | meridian-api/src/auth/flows.rs:114-476 | in every state of every run from the empty service sessions and store agree, and no call is such a login: token ids leave the counter in pairs, the first one odd, and no session without a pair, so neither counter can run out in between |
| `TokenLifetimes.StoreAnswers` | meridian-api/src/auth/tokens.rs:207-305 | which answer the store gives to any access or refresh token, each refusal exactly, by what it holds under the token’s id |
| `TokenLifetimes.SweepKeepsBooks` | meridian-api/src/auth/tokens.rs:316-339 | a sweep over a subject takes the pairings of its refresh ids and forgets nothing else |
| `TokenLifetimes.ReturnedPairServes` | meridian-api/src/auth/flows.rs:153-476 | whatever happened since a login or refresh at `now` returned a pair, the pair is revoked as a whole, or its access token verifies exactly before `now` plus the access lifetime and its refresh token refreshes exactly before `now` plus the refresh lifetime while two ids are left, both capped at the last second; later it is expired |
| `TokenLifetimes.ReturnedPairHeld` | meridian-api/src/auth/flows.rs:153-476 | right after the call a live session holds the pair |
| `TokenLifetimes.CallEndsExactly` | meridian-api/src/auth/flows.rs:153-490 | every call leaves a live session exactly as it was, unless it logs it out, renews it with its own unexpired token, or replays an id of its subject that no session holds |
| `TokenLifetimes.ServesUntilEnded` | meridian-api/src/auth/flows.rs:153-490 | in every run, as long as no call has ended the session, the returned pair serves exactly for its lifetimes |
| `TokenLifetimes.RefreshSucceedsIff` | meridian-api/src/auth/flows.rs:400-476 | a refresh succeeds exactly with the id held by a live session of the subject named, unexpired, while two ids are left, and on that session |
| `TokenLifetimes.ReplayReportedIff` | meridian-api/src/auth/flows.rs:400-476 | a replay is reported exactly for a revoked id that no session holds while the subject has a live session |
| `TokenLifetimes.HolderAnswers` | meridian-api/src/auth/flows.rs:400-476 | which refusal a refresh gets when a session holds the presented id |
| `TokenLifetimes.NoHolderAnswers` | meridian-api/src/auth/flows.rs:400-476 | and when none does: a replay or an unknown token if the subject has a live session, else superseded or not found |
| `TokenLifetimes.SubjectRefused` | meridian-api/src/auth/flows.rs:400-410 | a token without a subject is refused and changes nothing |
| `TokenLifetimes.LogoutAllCounts` | meridian-api/src/auth/flows.rs:314-367 | logging out everywhere tells how many live sessions that ended, in 32 bits |
| `AuthServices.AuthService.Login` | meridian-api/src/auth/flows.rs:153-236 | the mutable service after a login, through validation, lockout gate, failure record, issuance and session creation |
| `AuthServices.AuthService.NoteFailure` | meridian-api/src/auth/flows.rs:238-244 | one more failure is recorded for the subject |
| `AuthServices.AuthService.Logout` | meridian-api/src/auth/flows.rs:255-290 | the in-place logout; its rollback branch is proved unreachable |
| `AuthServices.AuthService.LogoutForSubject` | meridian-api/src/auth/flows.rs:294-305 | a session of another subject is refused without a write |
| `AuthServices.AuthService.EndSessions` | meridian-api/src/auth/flows.rs:314-367 | the loop revokes exactly the ids of the listed sessions |
| `AuthServices.AuthService.LogoutAll` | meridian-api/src/auth/flows.rs:314-367 | the in-place logout of all sessions and its count; its rollback branch is proved unreachable |
| `AuthServices.AuthService.VerifyToken` | meridian-api/src/auth/flows.rs:372-375 | the subject of a token that verifies, or the verification error |
| `AuthServices.AuthService.RefreshSession` | meridian-api/src/auth/flows.rs:400-476 | the in-place refresh for any session the hash map search may find |
| `AuthServices.AuthService.RefreshSessionForSubject` | meridian-api/src/auth/flows.rs:479-490 | a token of another subject is refused without a write |
| `Lockout.FailuresWithinBudget` | meridian-api/src/auth/flows.rs:179-244 | failed checks in a period shorter than the lockout never exceed what the attempt record still allows |
| `Lockout.LockoutBoundIff` | meridian-api/src/auth/flows.rs:179-244 | for clocks up to a limit, such a period without a success holds at most the allowed failures, exactly when the limit is below the last second of the 64-bit clock |
| `Lockout.SaturationBreaksBound` | meridian-api/src/auth/flows.rs:179-244 | at that very last second the saturating lock time is already over, and one failure too many gets through, in a run from the empty service |
| `Lockout.InputRefused` | meridian-api/src/auth/flows.rs:153-178 | a subject that is empty or longer than 256 bytes, or an amount out of range, is refused, each with its error, without a trace |
| `Lockout.LogoutAnswers` | meridian-api/src/auth/flows.rs:255-305 | which answers the logouts give |
| `Lockout.LetInBelowLimit` | meridian-api/src/auth/flows.rs:153-236 | after fewer failures than allowed, a login with the password succeeds at any time, with a new live session and nothing counted any more |
| `Lockout.LockStarts` | meridian-api/src/auth/flows.rs:179-198 | after the last allowed failure the next attempt, with or without the password, starts a lock until its time plus the lockout |
| `Lockout.LockEnds` | meridian-api/src/auth/flows.rs:179-236 | until then every attempt is told the seconds left and changes nothing; from then on the password decides again and a failure counts as the first |
| `Recovery.CompletionSucceedsIff` | meridian-api/src/auth/recovery.rs:235-331 | completion succeeds exactly for a usable token with its own subject and session, unexpired, while two token ids are left |
| `Recovery.CompletionAllOrNothing` | meridian-api/src/auth/recovery.rs:235-331 | on any failure the token store is untouched and the recovery records change only by dropping an expired token; success consumes exactly one token and one request |
| `Recovery.CompletionLeavesOnePair` | meridian-api/src/auth/recovery.rs:235-331 | afterwards the subject has exactly the fresh access and refresh token, and other subjects are unchanged |
| `Recovery.RequestIdempotentIff` | meridian-api/src/auth/recovery.rs:154-223 | a request is answered without a write, whichever record the search settles on, exactly when the session has records and all are pending, unexpired and of this subject |
| `Recovery.TwoTokensForOneSession` | meridian-api/src/auth/recovery.rs:154-223 | a run from the empty service, with a cancellation, at whose end one session has two usable tokens |
| `Recovery.PresentedExpiryDecides` | meridian-api/src/auth/recovery.rs:235-270 | for a usable token it is the expiry presented, not the one issued, that decides |
| `Recovery.RunKeepsWf` | meridian-api/src/auth/recovery.rs:154-349 | in every run usable tokens belong to pending requests, used ones stay used, and none is both |
| `Recovery.RedeemedAtMostOnce` | meridian-api/src/auth/recovery.rs:235-331 | in every run a redeemed recovery token is never redeemed again |
| `RecoveryLifetimes.RequestAnswers` | meridian-api/src/auth/recovery.rs:154-223 | which answer a request gets by the record found: a new token exactly with no record, a cancelled one, or an expired one of the subject; the standing token for a pending one; and each refusal exactly |
| `RecoveryLifetimes.NewTokenIsUsable` | meridian-api/src/auth/recovery.rs:190-223 | a new token names the subject and session, expires the lifetime after the request, capped at the last second, and is usable, with its request on record |
| `RecoveryLifetimes.EventEndsExactly` | meridian-api/src/auth/recovery.rs:154-349 | a usable token stays usable exactly until a completion redeems it or finds it expired, or a cancellation settles on its request |
| `RecoveryLifetimes.RecoveryTokenServes` | meridian-api/src/auth/recovery.rs:154-349 | in every run a newly issued token that no event has ended completes exactly before the request’s time plus the lifetime while two token ids are left, and is expired later |
| `RecoveryLifetimes.CompletionRefused` | meridian-api/src/auth/recovery.rs:235-331 | which refusal a completion gets, exactly |
| `RecoveryLifetimes.CompletionIssues` | meridian-api/src/auth/recovery.rs:270-331 | the pair a completion returns is issued at its time with the store’s lifetimes, and its tokens serve exactly so long |
| `RecoveryLifetimes.CancellationExactly` | meridian-api/src/auth/recovery.rs:334-349 | a cancellation succeeds exactly when the session has a pending request, of the owner if one is named, and cancels one such request with its token and nothing else |
| `Recovery.RecoveryService.NextId` | meridian-api/src/auth/recovery.rs:141-145 | ids grow by one; overflow is a failure that writes nothing |
| `Recovery.RecoveryService.RequestRecovery` | meridian-api/src/auth/recovery.rs:154-223 | the in-place request for any record the search may find |
| `Recovery.RecoveryService.CompleteRecovery` | meridian-api/src/auth/recovery.rs:235-331 | the in-place completion with its two rollbacks |
| `Recovery.RecoveryService.Restore` | meridian-api/src/auth/recovery.rs:380-388 | restoring brings back every field of the snapshot |
| `Recovery.RecoveryService.CancelRecovery` | meridian-api/src/auth/recovery.rs:334-349 | the in-place cancellation |
| `Webhooks.ProcessedOnce` | lib/webhooks/processor.ts:89-312 | under any interleaving of workers, replays, clock readings and database failures at most one worker replies processed, a processed row never changes, and retries never pass the limit |
| `Webhooks.DlqExactly` | lib/webhooks/processor.ts:228-312 | while claims have distinct times, the row is dead-lettered exactly on the failure after the last allowed retry since creation or replay, and before that the stored retry count is the number of failures |
| `Webhooks.HandlersSeparated` | lib/webhooks/processor.ts:112-184 | with distinct claim times and re-reads that return the worker’s own claim, of two workers in the handler at once the older claim is at least a lease old |
| `WebhookLease.LateRereadBreaksSeparation` | lib/webhooks/processor.ts:159-184 | without the second assumption this fails for every lease longer than a retry delay, even without replays: the interleaving is given |
| `WebhookLease.LeaseAloneSeparatesIff` | lib/webhooks/processor.ts:112-184 | where dead-lettered events are replayed, and for any shortest delay, unchecked re-reads leave handlers separated exactly when the lease is zero |
| `WebhookLease.LeaseAgainstDelayIff` | lib/webhooks/processor.ts:112-297 | without replays unchecked re-reads leave handlers separated exactly when the lease is no longer than the shortest retry delay, or than one tick |
| `WebhookProgress.DeliveryReplies` | lib/webhooks/processor.ts:89-312 | the reply of a delivery that runs alone, in every case, and the row it leaves: processed exactly when the row is pending, due for a retry, or held under a lease that is over, and the handler succeeds |
| `WebhookProgress.StepReplies` | lib/webhooks/processor.ts:89-312 | amid any others a worker replies with success of any kind exactly when its own conditional write found the row as expected, and writes nothing else |
| `WebhookProgress.EventsGetThrough` | lib/webhooks/processor.ts:89-312 | in every state of every run an unsettled event is processed by a fresh worker that runs alone exactly from the due time of its row on, whatever workers have stalled or crashed |
| `WebhookProgress.EveryEventCanFinish` | lib/webhooks/processor.ts:89-312 | so from every such state some later time lets some worker finish it |
| `WebhookProgress.ReplayReopens` | lib/webhooks/processor.ts:375-410 | a dead-lettered event that is replayed is open at once, with no retries counted |
| `WebhookLease.RetryDelayStep` | lib/webhooks/processor.ts:32-40 | the first delay is the initial one, and each later one the multiplier times the one before, up to the cap |
| `WebhookLease.RetryDelayGrows` | lib/webhooks/processor.ts:32-40 | delays before jitter never shrink from one retry to the next and stay between the initial delay and the cap |
| `WebhookLease.AloneDelivers` | lib/webhooks/processor.ts:89-312 | one uninterrupted delivery in the step system ends with the row and reply of the straight-line reading |
| `WebhookLease.WebhookEvent.Claim` | lib/webhooks/processor.ts:131-147 | the conditional claim changes the row exactly when it is claimable |
| `WebhookLease.WebhookEvent.Finalize` | lib/webhooks/processor.ts:176-184 | the row becomes processed exactly when the token still owns it |
| `WebhookLease.WebhookEvent.Fail` | lib/webhooks/processor.ts:283-297 | a retry is scheduled exactly when the token still owns the row |
| `WebhookLease.WebhookEvent.DeadLetter` | lib/webhooks/processor.ts:250-261 | the row is dead-lettered exactly when the token still owns it |
| `WebhookLease.WebhookEvent.Replay` | lib/webhooks/processor.ts:387-410 | a dead-lettered row goes back to pending with no retries counted, any other stays |
| `WebhookLease.WebhookEvent.HandleFailure` | lib/webhooks/processor.ts:228-312 | retry or dead letter, by the retry count read |
| `WebhookLease.WebhookEvent.Process` | lib/webhooks/processor.ts:89-205 | one delivery at one clock reading, from skip and retry-later through claim, handler and outcome |
| `RateLimit.HitAgrees` | meridian-api/src/rate-limit/rate-limit.store.ts:52-145 | if the list and the sorted set hold the same hits, one hit gets the same answer from both and leaves them the same; key expiry never shows |
| `RateLimit.ScriptAnswers` | meridian-api/src/rate-limit/rate-limit.store.ts:111-131 | the script always has an answer |
| `RateLimit.StoresAgree` | meridian-api/src/rate-limit/rate-limit.store.ts:52-177 | on every run with time that never goes back, a fixed window per key and distinct members, and any limits, both stores answer alike |
| `RateLimit.WindowBound` | meridian-api/src/rate-limit/rate-limit.store.ts:52-87 | no interval of one window length holds more allowed hits on a key than its limit |
| `RateLimit.ScriptWindowBound` | meridian-api/src/rate-limit/rate-limit.store.ts:111-177 | the same bound for the answers of the Redis store |
| `RateLimitExact.LocalAnswersExactly` | meridian-api/src/rate-limit/rate-limit.store.ts:52-87 | on every run in time order every answer of the local store follows from its key’s history: allowed exactly while fewer hits than the limit were allowed within the window, with their count, what remains, and the second at which the oldest of them, or the hit itself, leaves the window |
| `RateLimitExact.ScriptAnswersExactly` | meridian-api/src/rate-limit/rate-limit.store.ts:111-177 | the same for the answers of the Redis store |
| `RateLimit.MemoryRateLimitStore.DropOld` | meridian-api/src/rate-limit/rate-limit.store.ts:61-61 | the filter keeps exactly the hits still in the window, in order |
| `RateLimit.MemoryRateLimitStore.Hit` | meridian-api/src/rate-limit/rate-limit.store.ts:52-87 | the local store’s answer and its new entries for the key |
| `RateLimit.RedisRateLimitStore.Hit` | meridian-api/src/rate-limit/rate-limit.store.ts:111-177 | the script’s commands one by one give an answer and a set that the script’s specification allows |
| `RateLimit.RedisRateLimitStore.Oldest` | meridian-api/src/rate-limit/rate-limit.store.ts:120-125 | the range query finds the smallest score |
| `Base64.RoundTrip` | meridian-api/src/pagination.rs:413-483 | decoding undoes encoding for all byte strings, as in section 4 of RFC 4648 |
| `Base64.ChunkRoundTrip` | meridian-api/src/pagination.rs:416-479 | the symbols of one to three bytes are in the alphabet and give the bytes back |
| `Base64.EncodeChunk` | meridian-api/src/pagination.rs:417-437 | four symbols with padding for a chunk |
| `Base64.EncodeLoop` | meridian-api/src/pagination.rs:413-440 | the loop over chunks of three computes the encoding |
| `Base64.TrimLoop` | meridian-api/src/pagination.rs:444-444 | all trailing padding and nothing else is removed |
| `Base64.DecodeChunk` | meridian-api/src/pagination.rs:451-479 | the bytes of a chunk of up to four symbols, or a refusal exactly when one is not in the alphabet |
| `Base64.DecodeLoop` | meridian-api/src/pagination.rs:443-483 | the loop over chunks of four computes the decoding, refusals included |
| `Cursors.Fletcher16` | meridian-api/src/pagination.rs:393-404 | the loop over wrapping 16-bit sums and the overlapping fold compute the checksum |
| `Cursors.ChecksumLowByte` | meridian-api/src/pagination.rs:393-404 | although the sums overlap under the bitwise or, the low byte is the byte sum modulo 256 |
| `Cursors.ChecksumDetects` | meridian-api/src/pagination.rs:393-404 | replacing one byte by a different one always changes the checksum |
| `Cursors.RoundTripIff` | meridian-api/src/pagination.rs:79-152 | decoding undoes encoding for exactly the cursors whose subject is under 65536 bytes; the length field is truncated |
| `Cursors.StringRoundTripIff` | meridian-api/src/pagination.rs:486-494 | the same through the Base64 text |
| `Cursors.OneByteChangeDetected` | meridian-api/src/pagination.rs:79-152 | changing any one byte of any encoded cursor makes decoding report a checksum mismatch |
| `Base64Format.Alphabet` | meridian-api/src/pagination.rs:410-483 | the alphabet of RFC 4648 in its order; no other character has a value |
| `Base64Format.SymbolsCarryBits` | meridian-api/src/pagination.rs:416-437 | the bits of a chunk, high bits first, six to a symbol, with zeros after them |
| `Base64Format.EncodedLength` | meridian-api/src/pagination.rs:413-440 | four characters for every three bytes or part of them |
| `CursorLayout.ChecksumBits` | meridian-api/src/pagination.rs:393-404 | every bit of the checksum: the byte sum’s, or in the high byte also that of the sum of the prefix sums |
| `CursorLayout.EncodeLayout` | meridian-api/src/pagination.rs:79-103 | length, subject, timestamp, id and checksum at their places, high bytes first |
| `CursorLayout.DecodeReads` | meridian-api/src/pagination.rs:112-152 | for every byte string the refusal it gets, or the cursor read from it |
| `Base64Changes.SymbolChange` | meridian-api/src/pagination.rs:443-483 | exchanging one symbol for another changes at most two neighbouring bytes, their sum modulo 256 among them, or nothing, exactly when it is the last symbol of a last chunk that is not full and only dropped bits differ |
| `Base64Changes.DropSymbol` | meridian-api/src/pagination.rs:443-483 | without its last symbol a text loses its last byte, or the two bits of it that were in that symbol |
| `CursorChanges.PairChangeDetected` | meridian-api/src/pagination.rs:79-152 | a change of two neighbouring bytes of a cursor that changes their sum modulo 256 is a checksum mismatch, also where it reaches into the checksum |
| `CursorChanges.SymbolExchanged` | meridian-api/src/pagination.rs:393-494 | another symbol anywhere in a cursor’s text is a checksum mismatch, except exactly where only dropped bits differ |
| `CursorChanges.LengthenedAcceptedIff` | meridian-api/src/pagination.rs:79-152 | a cursor with a byte added decodes to the same cursor exactly when the checksum read one byte later happens to fit |
| `CursorChanges.OneCharacterUnnoticedIff` | meridian-api/src/pagination.rs:79-152 | of all changes of one character of a cursor’s text, padding included, exactly three kinds go unnoticed: dropped bits, a last symbol without kept bits padded away, and a symbol in the first padding place whose byte fits the checksum; all others are refused |
| `Pagination.PageFrom` | meridian-api/src/pagination.rs:327-382 | the items, cursor and flags of an accepted page, by its start position |
| `Pagination.PageSizes` | meridian-api/src/pagination.rs:173-182 | twenty by default, at most a hundred |
| `Pagination.OtherScopeRefused` | meridian-api/src/pagination.rs:156-164 | a cursor of another subject is refused with both subjects named, and no other call is |
| `Pagination.KeyOrder` | meridian-api/src/pagination.rs:345-354 | keys are ordered by time and then by id |
| `Pagination.CursorLeadsOn` | meridian-api/src/pagination.rs:343-361 | in a sorted list a page’s cursor never leads back, and leads to the very next item exactly when that item’s key differs from the last one delivered |
| `Pagination.PageOfBelow` | meridian-api/src/pagination.rs:343-382 | apart from the total, a page computed with a cursor is the first page of the items below it |
| `Pagination.PageIgnoresAbove` | meridian-api/src/pagination.rs:343-382 | so two lists that agree below the cursor give the same page |
| `Pagination.WalkCompleteIff` | meridian-api/src/pagination.rs:327-382 | following the cursors delivers the whole list exactly when no page ends between two equal keys |
| `Pagination.WalkVisitsAll` | meridian-api/src/pagination.rs:327-382 | with strictly descending keys every item arrives once, in order, in the ceiling of count over page size pages, one for the empty list |
| `Pagination.WalkIgnoresAbove` | meridian-api/src/pagination.rs:327-382 | a walk depends only on what lies below its first cursor |
| `Pagination.ChangesAboveDoNotMatter` | meridian-api/src/pagination.rs:327-382 | lists that agree below each cursor between fetches give the pages that the first list would have given |
| `Pagination.EditKeepsBelow` | meridian-api/src/pagination.rs:345-354 | inserting or removing an item at or above a key changes nothing below it |
| `Pagination.EditsDoNotMatter` | meridian-api/src/pagination.rs:327-382 | any insertions and removals at or above the current cursor, between any fetches, leave what the walk delivers as it was |
| `Pagination.EditedWalkVisitsAll` | meridian-api/src/pagination.rs:327-382 | under such edits the walk delivers every item of the first list once and in order, and nothing else |
| `MerkleTrees.NextLevel` | meridian-web/lib/merkle-proof.ts:41-49 | one level is built by pairing neighbours, an odd last node with itself |
| `MerkleTrees.RootOfHalves` | meridian-web/lib/merkle-proof.ts:41-49 | over two full halves the root is the node of their roots, left and right in order |
| `MerkleTrees.LastDoubled` | meridian-web/lib/merkle-proof.ts:41-49 | an odd level has the root of the level with its last node doubled |
| `MerkleTrees.PathReaches` | meridian-web/lib/merkle-proof.ts:52-69 | every node reaches the root by hashing with the siblings of its own path |
| `MerkleTrees.PathLength` | meridian-web/lib/merkle-proof.ts:52-69 | a path is as long as there are levels above the leaves |
| `MerkleTrees.LevelsIsLogarithm` | meridian-web/lib/merkle-proof.ts:40-49 | that number is the binary logarithm of the leaf count rounded up |
| `MerkleTrees.RootBinds` | meridian-web/lib/merkle-proof.ts:30-50 | levels of equal length with equal roots are equal unless two hashed pairs collide |
| `MerkleProofs.Completeness` | meridian-web/lib/merkle-proof.ts:30-87 | the generated proof of a non-empty leaf is accepted and has one sibling per level |
| `MerkleProofs.ProofBindsLeaf` | meridian-web/lib/merkle-proof.ts:52-87 | the proof generated for a position accepts the leaf at that position and nothing else, although the verifier tries both sides |
| `MerkleProofs.ProvableIff` | meridian-web/lib/merkle-proof.ts:71-87 | over leaves without separators some proof of a text is accepted exactly when it is a leaf or the text of an inner node, which the hash does not separate |
| `MerkleProofs.ProvableIffMember` | meridian-web/lib/merkle-proof.ts:71-87 | for texts without separators that is exactly membership |
| `MerkleProofs.RootBindsLeaves` | meridian-web/lib/merkle-proof.ts:30-50 | two leaf lists of the same length with the same root are the same list |
| `MerkleProofs.PaddingAmbiguity` | meridian-web/lib/merkle-proof.ts:43-46 | the lengths must agree: repeating the last of three leaves keeps the root |
| `MerkleProofs.BuildMerkleTree` | meridian-web/lib/merkle-proof.ts:30-50 | root and layers, empty for no leaves |
| `MerkleProofs.GenerateProof` | meridian-web/lib/merkle-proof.ts:52-69 | the siblings of the index’s path, none for an index outside the leaves |
| `MerkleProofs.BothOrders` | meridian-web/lib/merkle-proof.ts:77-84 | after one sibling the candidates are those that either order can reach |
| `MerkleProofs.VerifyProof` | meridian-web/lib/merkle-proof.ts:71-87 | the doubling list of candidates contains the root exactly when some choice of sides leads to it |
| `LeaderboardProofs.ComputeMerkleRoot` | meridian-api/src/leaderboard/leaderboard-proof.service.ts:282-299 | the same root as the web library’s tree, empty text for no leaves |
| `LeaderboardProofs.ComputeProof` | meridian-api/src/leaderboard/leaderboard-proof.service.ts:301-341 | the same siblings and root as the web library’s, with the leaf already hashed |
| `LeaderboardProofs.ComputedLeafVerifiesIff` | meridian-api/src/leaderboard/leaderboard-proof.service.ts:312-340 | the raw leaf verifies; the returned, hashed leaf verifies only if the digest is its own digest |
| `EventProofs.LevelWithSibling` | meridian-api/src/events/events.service.ts:320-334 | the nested loop builds the next level and records exactly one sibling, that of the current index |
| `EventProofs.ChainHashesInOrder` | meridian-api/src/events/events.service.ts:305-308 | the leaves are the recorded non-empty chain hashes in order |
| `EventProofs.AnchorChoice` | meridian-api/src/events/events.service.ts:341-341 | the anchor is the entry’s own state root, else the first entry’s, else none |
| `EventProofs.BuildMerkleProof` | meridian-api/src/events/events.service.ts:305-350 | the same siblings and root over the non-empty chain hashes; an anchored root replaces the computed one and is reported as unverified when they differ |
| `EventProofs.VerifiedResultAccepted` | meridian-api/src/events/events.service.ts:305-373 | a result that reports itself verified is accepted by the verifier |
| `StateRoots.ComputeRoot` | meridian-contracts/contracts/zk-compliance/state_root.rs:5-19 | the loop over pairs computes the tree root, 32 zero bytes for no entries |
| `StateRoots.RootBindsEntries` | meridian-contracts/contracts/zk-compliance/state_root.rs:5-25 | equal roots of equally long entry lists mean equal lists unless two of the strings hashed collide |
| `Scale.CompactModes` | meridian-contracts/scripts/verify_property_token_error_chain.py:39-53 | the four modes byte by byte: one, two or four bytes that hold the number and the mode, or a byte that tells how many bytes of the number follow, the highest of them not zero |
| `Scale.U64Bytes` | meridian-contracts/scripts/verify_property_token_error_chain.py:56-59 | eight bytes, lowest first, exactly for the 64-bit numbers |
| `Scale.TextBytes` | meridian-contracts/scripts/verify_property_token_error_chain.py:70-82 | a text is its length and its bytes, a context its size and its pairs, the first error standing |
| `Scale.ItemsInOrder` | meridian-contracts/scripts/verify_property_token_error_chain.py:75-82 | each further pair adds its key and its value; what is no pair is malformed, and the first error stands |
| `Scale.CompactRoundTrip` | meridian-contracts/scripts/verify_property_token_error_chain.py:39-53 | an encoded integer can be read back, and its first byte gives its length, in all four modes |
| `Scale.CompactPrefixFree` | meridian-contracts/scripts/verify_property_token_error_chain.py:39-53 | compact integers are prefix-free across the four modes |
| `Scale.U64PrefixFree` | meridian-contracts/scripts/verify_property_token_error_chain.py:56-59 | fixed-width integers are told apart and delimit themselves |
| `Scale.TextPrefixFree` | meridian-contracts/scripts/verify_property_token_error_chain.py:70-72 | encoded strings are prefix-free |
| `Scale.EncodeContext` | meridian-contracts/scripts/verify_property_token_error_chain.py:75-82 | the loop appends the pairs after their count and fails with the first malformed pair’s error |
| `Scale.ContextPrefixFree` | meridian-contracts/scripts/verify_property_token_error_chain.py:75-82 | encoded contexts are prefix-free |
| `ErrorChain.PayloadLayout` | meridian-contracts/scripts/verify_property_token_error_chain.py:94-107 | the payload holds the seven fields in order, the account and the predecessor’s digest as 32 raw bytes, and fails exactly when one of them does |
| `ErrorChain.PayloadInjective` | meridian-contracts/scripts/verify_property_token_error_chain.py:94-107 | entries with the same payload agree in every hashed field |
| `ErrorChain.VerifyEntries` | meridian-contracts/scripts/verify_property_token_error_chain.py:110-143 | the two loops give the verdict or the first error |
| `ErrorChain.VerifiedIffConsistent` | meridian-contracts/scripts/verify_property_token_error_chain.py:110-143 | a log is accepted exactly when every entry names its predecessor’s digest, carries its own payload’s digest, and every state root given is the accumulated one |
| `ErrorChain.LinksVerdict` | meridian-contracts/scripts/verify_property_token_error_chain.py:110-129 | what is reported at the first entry that is not as it should be: an error for a digest of another length or a payload that cannot be encoded, else a refusal |
| `ErrorChain.RootsVerdict` | meridian-contracts/scripts/verify_property_token_error_chain.py:131-143 | and at the first wrong state root |
| `ErrorChain.ComputeStateRoot` | meridian-contracts/scripts/verify_property_token_error_chain.py:31-36 | the loop accumulates the root of the digests |
| `ErrorChain.RootBindsHashes` | meridian-contracts/scripts/verify_property_token_error_chain.py:31-36 | digest lists with the same root are equal, given equal lengths or no digest of all zeros, unless two inputs collide |
| `ErrorChain.RootBindsLog` | meridian-contracts/scripts/verify_property_token_error_chain.py:94-143 | two logs with verified links and the same final root hold the same entries in every field but the optional state root |
| `ErrorChain.SealedLogVerifies` | meridian-contracts/scripts/verify_property_token_error_chain.py:146-172 | every log whose chain fields are filled in one entry after another is accepted |
| `AuditChain.AppendKeepsValidIff` | meridian-api/src/audit/audit.service.ts:105-144 | appending keeps the chain valid exactly when the predecessor that was read is still the last event |
| `AuditChain.SerializedLogsVerify` | meridian-api/src/audit/audit.service.ts:105-144 | logs written by calls that do not overlap always verify, with other audit rows in between |
| `AuditChain.OverlappingCallsDetected` | meridian-api/src/audit/audit.service.ts:105-144 | two overlapping calls leave a chain that does not verify, but for a digest equal to its predecessor |
| `AuditChain.LastHashBinds` | meridian-api/src/events/events.service.ts:277-303 | two valid chains with the same last digest are the same, lengths included |
| `AuditChain.TamperingReported` | meridian-api/src/events/events.service.ts:277-303 | a log that keeps the last digest of a valid one verifies exactly when it is the same chain |
| `AuditChain.AuditRepository.LogContractEvent` | meridian-api/src/audit/audit.service.ts:105-144 | the row appended after the latest contract event, and that validity is kept |
| `AuditChain.AuditRepository.VerifyHashChain` | meridian-api/src/events/events.service.ts:277-303 | the verdict, and the id of the first row that breaks the chain |
| `ZkCompliance.RunsKeepInv` | meridian-contracts/contracts/zk-compliance/lib.rs:267-375 | in every reachable state ids are 1 to the counter, successes and failures are the numbers of verified and rejected proofs and add up to the total, and the audit trail counts submissions and decisions |
| `ZkCompliance.VerifiedWasAccepted` | meridian-contracts/contracts/zk-compliance/lib.rs:313-375 | no proof is verified unless the backend accepted it: in every run each verified proof was accepted by the very transaction that decided it, an approved verifier’s review of it or its account’s own submission, under the key registered for its type and active at that moment |
| `ZkCompliance.StepVerifies` | meridian-contracts/contracts/zk-compliance/lib.rs:1290-1337 | a proof that a message stores as verified, newly submitted or reviewed, is accepted by that message under the key active before it |
| `ZkCompliance.FailedSubmissionStoredIff` | meridian-contracts/contracts/zk-compliance/lib.rs:1286-1337 | a submission that fails verification is stored as rejected exactly when the check came to a verdict and its writes stay, pending exactly when the check could not run and they stay, and not at all exactly when they are undone |
| `ZkCompliance.RejectionMayBeMissing` | meridian-contracts/contracts/zk-compliance/lib.rs:1286-1337 | on the empty contract every submission fails, whatever its inputs: undone it leaves nothing, and kept it is rejected or pending by whether the backend is built in |
| `ZkCompliance.StepKeeps` | meridian-contracts/contracts/zk-compliance/lib.rs:267-375 | every message keeps these counts, also when it returns an error and its writes stay |
| `ZkCompliance.StepEvolves` | meridian-contracts/contracts/zk-compliance/lib.rs:313-375 | a stored proof changes status only by an approved verifier’s review of it while pending, and to verified only under an active key with which the backend accepts it |
| `ZkCompliance.RunsEvolve` | meridian-contracts/contracts/zk-compliance/lib.rs:267-507 | over any run decisions are final, submitted content never changes, and a key version is never reused for other bytes nor reactivated |
| `ZkCompliance.ValidMeansAccepted` | meridian-contracts/contracts/zk-compliance/lib.rs:525-547 | in every run an account reported valid holds a proof of the type that was accepted, during the run, under the key then active for the type |
| `ZkCompliance.SubmissionShadows` | meridian-contracts/contracts/zk-compliance/lib.rs:267-305 | a new submission makes the account invalid for the type until it is verified itself |
| `ZkCompliance.ValidityStands` | meridian-contracts/contracts/zk-compliance/lib.rs:525-547 | nothing but the account’s own new submission of the type, or time, ends validity |
| `ZkDecisions.OneVerdict` | meridian-contracts/contracts/zk-compliance/lib.rs:1221-1270 | every check ends in exactly one of three ways: accepted, refuted, or not carried out |
| `ZkDecisions.ReviewDecides` | meridian-contracts/contracts/zk-compliance/lib.rs:313-375 | an approved verifier’s review of a pending proof: verified exactly when it approves and the backend accepts under the active key, rejected exactly when it declines or the check says no, pending with the reason exactly when the check cannot be carried out; and what is booked |
| `ZkDecisions.ReviewRefused` | meridian-contracts/contracts/zk-compliance/lib.rs:313-330 | every other review is refused for its reason and changes nothing |
| `ZkDecisions.SubmissionDecides` | meridian-contracts/contracts/zk-compliance/lib.rs:1290-1337 | a submission with its check is stored for 365 days and verified, with its number as answer, exactly when the backend accepts; else rejected or pending, with an error |
| `ZkDecisions.SubmissionStores` | meridian-contracts/contracts/zk-compliance/lib.rs:267-310 | a submission is stored as pending under the account’s next number for 365 days |
| `ZkDecisions.ReviewMakesValid` | meridian-contracts/contracts/zk-compliance/lib.rs:313-547 | an accepted review of an account’s latest proof of a type makes it valid exactly until that proof’s expiry |
| `ZkDecisions.SubmissionMakesValid` | meridian-contracts/contracts/zk-compliance/lib.rs:525-1337 | an accepted submission makes its account valid for exactly 365 days |
| `ZkDecisions.StaysValid` | meridian-contracts/contracts/zk-compliance/lib.rs:267-873 | over every run that follows, exactly until then, unless the account submits another proof of the type |
| `ZkDecisions.VerifierTable` | meridian-contracts/contracts/zk-compliance/lib.rs:813-825 | only the owner changes the verifier table, only the entry named, and keys likewise are closed to others |
| `ZkDecisions.KeyTable` | meridian-contracts/contracts/zk-compliance/lib.rs:427-466 | the owner’s key is stored as active under the next version exactly when it fits |
| `ZkDecisions.KeyRetired` | meridian-contracts/contracts/zk-compliance/lib.rs:491-507 | a deactivated key is kept and accepts no proof of its type |
| `ZkDecisions.AuditEntries` | meridian-contracts/contracts/zk-compliance/lib.rs:845-873 | an audit entry is appended for the account itself or by a verifier, and by nobody else |
| `ZkCompliance.ZkComplianceContract.NextProofId` | meridian-contracts/contracts/zk-compliance/lib.rs:1340-1345 | the counter moves on by one for the account |
| `ZkCompliance.ZkComplianceContract.LogAuditEvent` | meridian-contracts/contracts/zk-compliance/lib.rs:1365-1377 | the entry is appended to the account’s trail |
| `ZkCompliance.ZkComplianceContract.SubmitZkProof` | meridian-contracts/contracts/zk-compliance/lib.rs:267-305 | the storage after a submission |
| `ZkCompliance.ZkComplianceContract.PerformZkVerification` | meridian-contracts/contracts/zk-compliance/lib.rs:1221-1270 | the verdict of the backend or the first failing precondition; a build without the backend rejects |
| `ZkCompliance.ZkComplianceContract.VerifyZkProof` | meridian-contracts/contracts/zk-compliance/lib.rs:313-375 | storage and result of a review |
| `ZkCompliance.ZkComplianceContract.VerifyAndStoreProof` | meridian-contracts/contracts/zk-compliance/lib.rs:1290-1337 | storage and result, including what is left stored when an error is returned |
| `ZkCompliance.ZkComplianceContract.SetVerificationKey` | meridian-contracts/contracts/zk-compliance/lib.rs:427-466 | the new key record with the next version, or the refusal |
| `ZkCompliance.ZkComplianceContract.DeactivateVerificationKey` | meridian-contracts/contracts/zk-compliance/lib.rs:491-507 | the record is kept and made inactive |
| `ZkCompliance.ZkComplianceContract.SetApprovedVerifier` | meridian-contracts/contracts/zk-compliance/lib.rs:813-825 | the owner alone changes the verifier table |
| `ZkCompliance.ZkComplianceContract.CreatePrivacyPreservingAudit` | meridian-contracts/contracts/zk-compliance/lib.rs:845-873 | only the account or a verifier appends, with the placeholder status |
| `ZkCompliance.ZkComplianceContract.IsZkProofValid` | meridian-contracts/contracts/zk-compliance/lib.rs:525-547 | the reverse scan answers whether the latest proof of the type is verified and unexpired |
| `ComplianceRegistry.CompliantIffHistory` | meridian-contracts/contracts/compliance_registry/lib.rs:509-830 | in every reachable state, at any time, an account is compliant exactly when its history of accepted operations says so |
| `ComplianceRegistry.RunsAgree` | meridian-contracts/contracts/compliance_registry/lib.rs:509-1080 | in every run the stored record of every account is the one its history describes |
| `ComplianceRegistry.StepAgrees` | meridian-contracts/contracts/compliance_registry/lib.rs:509-1080 | every message keeps record and history in agreement, batches and failed batches included |
| `ComplianceRegistry.ApplySince` | meridian-contracts/contracts/compliance_registry/lib.rs:664-830 | one accepted screening, revocation, consent or deletion changes the record as the history predicate demands |
| `ComplianceRegistry.OnlySubmissionRestores` | meridian-contracts/contracts/compliance_registry/lib.rs:509-830 | a rejected, expired or unknown account becomes compliant only through a new accepted submission |
| `ComplianceRegistry.AtMostOnePending` | meridian-contracts/contracts/compliance_registry/lib.rs:891-988 | in every reachable state an account has at most one pending verification request |
| `ComplianceRegistry.ProcessedOnce` | meridian-contracts/contracts/compliance_registry/lib.rs:948-988 | a processed request never changes again |
| `ComplianceRegistry.LevelMonotone` | meridian-contracts/contracts/compliance_registry/lib.rs:584-620 | a stronger document or biometric method, or a lower risk score, never lowers the level, which is at most five |
| `ComplianceRegistry.DefaultRulesAcceptIff` | meridian-contracts/contracts/compliance_registry/lib.rs:432-541 | which documents, biometric methods and risk scores the default rules of each jurisdiction accept |
| `ComplianceRegistry.BiometricFlagNeverRead` | meridian-contracts/contracts/compliance_registry/lib.rs:520-534 | two contracts that differ in nothing but biometric flags answer every run alike and end alike but for those flags |
| `ComplianceRegistry.BiometricFlagNotEnforced` | meridian-contracts/contracts/compliance_registry/lib.rs:509-541 | under any rules a submission without a biometric method is accepted exactly when its document and score alone reach the minimum level |
| `ComplianceRegistry.BiometricEnforcedIff` | meridian-contracts/contracts/compliance_registry/lib.rs:509-541 | rules keep all such submissions out exactly with a minimum level of at least five |
| `ComplianceRegistry.DefaultRulesWithoutBiometric` | meridian-contracts/contracts/compliance_registry/lib.rs:470-541 | where the default rules ask for a biometric check, a submission without one is accepted exactly for a strong document and a score under 20 |
| `ComplianceRegistry.AcceptedWithoutBiometric` | meridian-contracts/contracts/compliance_registry/lib.rs:470-541 | one such submission |
| `ComplianceRegistry.ProhibitedCompliantIff` | meridian-contracts/contracts/compliance_registry/lib.rs:664-700 | an account submitted as prohibited is compliant exactly when it qualifies otherwise and a passed screening with one or two factors followed |
| `ComplianceRegistry.ProhibitedRunsCompliantIff` | meridian-contracts/contracts/compliance_registry/lib.rs:664-700 | the same in every state that a run reaches, for an account whose latest accepted submission said prohibited |
| `ComplianceRegistry.ProhibitedBecomesCompliant` | meridian-contracts/contracts/compliance_registry/lib.rs:664-700 | a run at whose end such an account is compliant |
| `RegistryDecisions.UnauthorisedIff` | meridian-contracts/contracts/compliance_registry/lib.rs:505-1080 | a caller is turned away as unauthorised exactly when it is neither the owner, a verifier nor the account that the message is for, and then nothing changes |
| `RegistryDecisions.RunsAcceptIff` | meridian-contracts/contracts/compliance_registry/lib.rs:505-1080 | in every reachable state a message is accepted exactly when its caller may send it and it fits the state |
| `RegistryDecisions.AcceptedAnswer` | meridian-contracts/contracts/compliance_registry/lib.rs:505-1080 | an accepted message answers nothing but that, and a new request its number |
| `RegistryDecisions.RecordsAreEntitled` | meridian-contracts/contracts/compliance_registry/lib.rs:505-1080 | in every run every recorded operation was written by a transaction whose caller was entitled to it in the state before: submissions, screenings, sanctions results and revocations by a verifier, consent by the account or a verifier, deletion by the account after retention with consent withdrawn |
| `RegistryDecisions.VerifiersExactly` | meridian-contracts/contracts/compliance_registry/lib.rs:499-504 | in every run the verifiers are the owner and those whom the owner added or registered for identity or all services |
| `RegistryDecisions.SubmissionStores` | meridian-contracts/contracts/compliance_registry/lib.rs:509-581 | an accepted submission stores a verified record for 365 days and the retention period, unchecked and without consent |
| `RegistryDecisions.ScreeningStores` | meridian-contracts/contracts/compliance_registry/lib.rs:664-700 | an accepted screening: status and risk level by the number of raised factors, the rest of the record as it was |
| `RegistryDecisions.SanctionsStore` | meridian-contracts/contracts/compliance_registry/lib.rs:704-728 | an accepted sanctions result |
| `RegistryDecisions.PersonalStore` | meridian-contracts/contracts/compliance_registry/lib.rs:732-830 | an accepted revocation, consent change and deletion |
| `RegistryDecisions.ProcessingStores` | meridian-contracts/contracts/compliance_registry/lib.rs:948-988 | processing a request is its account’s submission and marks the request |
| `RegistryDecisions.CreationStores` | meridian-contracts/contracts/compliance_registry/lib.rs:891-937 | a request is stored as pending under the next number |
| `RegistryDecisions.RefusedKeeps` | meridian-contracts/contracts/compliance_registry/lib.rs:505-1080 | a refused message changes nothing and records nothing, but for a batch of sanctions results that stops at an unknown account |
| `RegistryDecisions.RequestsNumbered` | meridian-contracts/contracts/compliance_registry/lib.rs:891-937 | in every reachable state the requests are numbered from zero without a gap |
| `RegistryDecisions.BatchIsScreenings` | meridian-contracts/contracts/compliance_registry/lib.rs:1030-1059 | a batch screening does what the single screenings of its known accounts do, passed with fewer than three factors and verified funds |
| `RegistryDecisions.BatchIsResults` | meridian-contracts/contracts/compliance_registry/lib.rs:1063-1080 | a batch of sanctions results over known accounts does what the single results do |
| `RegistryDecisions.BatchStopsAt` | meridian-contracts/contracts/compliance_registry/lib.rs:1063-1080 | with an unknown account it does what its part before the first one does, and reports an error |
| `RegistryDecisions.RulesAtFirst` | meridian-contracts/contracts/compliance_registry/lib.rs:404-497 | a new contract: the five jurisdictions with their levels, retention periods and flags, the owner as verifier, and nothing stored |
| `RegistryDecisions.RulesStore` | meridian-contracts/contracts/compliance_registry/lib.rs:872-881 | the owner’s rules replace those of the jurisdiction and of no other |
| `RegistryDecisions.OnboardingMakesCompliant` | meridian-contracts/contracts/compliance_registry/lib.rs:509-778 | from any state, submission, screening, sanctions result and consent make the account compliant exactly for 365 days and the retention period, unless three factors were raised or nothing lifted a prohibited risk |
| `ComplianceRegistry.ComplianceRegistryContract.SubmitKyc` | meridian-contracts/contracts/compliance_registry/lib.rs:509-581 | storage and result of a submission, with the order of refusals |
| `ComplianceRegistry.ComplianceRegistryContract.UpdateAmlStatus` | meridian-contracts/contracts/compliance_registry/lib.rs:664-700 | storage and result of a screening; a passed one with one or two factors replaces even a prohibited risk level |
| `ComplianceRegistry.ComplianceRegistryContract.UpdateSanctionsStatus` | meridian-contracts/contracts/compliance_registry/lib.rs:704-728 | storage and result of a sanctions screening |
| `ComplianceRegistry.ComplianceRegistryContract.RevokeVerification` | meridian-contracts/contracts/compliance_registry/lib.rs:732-749 | storage and result of a revocation |
| `ComplianceRegistry.ComplianceRegistryContract.SetConsentStatus` | meridian-contracts/contracts/compliance_registry/lib.rs:753-778 | storage and result of a consent change |
| `ComplianceRegistry.DeletionIsFinal` | meridian-contracts/contracts/compliance_registry/lib.rs:782-830 | a deletion that succeeds finds the account not compliant, and it is not compliant in any later run without a new accepted submission |
| `ComplianceRegistry.ComplianceRegistryContract.RequestDataDeletion` | meridian-contracts/contracts/compliance_registry/lib.rs:793-830 | only the account, only after retention, only with consent withdrawn |
| `ComplianceRegistry.ComplianceRegistryContract.CreateVerificationRequest` | meridian-contracts/contracts/compliance_registry/lib.rs:891-937 | storage and result of a new request |
| `ComplianceRegistry.ComplianceRegistryContract.ProcessVerificationRequest` | meridian-contracts/contracts/compliance_registry/lib.rs:948-988 | storage and result of processing a request |
| `ComplianceRegistry.ComplianceRegistryContract.BatchAmlCheck` | meridian-contracts/contracts/compliance_registry/lib.rs:1030-1059 | the loop skips unknown accounts and answers for all |
| `ComplianceRegistry.ComplianceRegistryContract.BatchSanctionsCheck` | meridian-contracts/contracts/compliance_registry/lib.rs:1063-1080 | the loop stops at the first unknown account, keeping earlier updates |
| `ComplianceRegistry.ComplianceRegistryContract.IsAccountCompliant` | meridian-contracts/contracts/compliance_registry/lib.rs:624-638 | the compliance predicate on the stored record |
| `EmergencyTransfer.SuccessesJustified` | meridian-web/hooks/useEmergencyTransfer.ts:199-466 | in every run of the reducer each recorded success follows, within its review, exactly one confirmation with the same configuration and key and a standing acknowledgement, with no other success; the transaction hash is set exactly in the succeeded phase |
| `EmergencyTransfer.ReduceKeepsInv` | meridian-web/hooks/useEmergencyTransfer.ts:199-466 | every action but the raw append keeps that |
| `EmergencyTransfer.SuccessesAreSeparated` | meridian-web/hooks/useEmergencyTransfer.ts:199-466 | between two successes of a trail a new review was started |
| `EmergencyTransfer.TrailGrowsUnlessWiped` | meridian-web/hooks/useEmergencyTransfer.ts:199-466 | the trail only grows, by at most one event, except exactly on reset and on a dismissal with no reviewed configuration |
| `TransferTrail.ActionRecords` | meridian-web/hooks/useEmergencyTransfer.ts:199-466 | an action that does not take effect changes nothing, one that does adds exactly its event, and only a reset or a dismissal without a review drops the trail |
| `TransferTrail.ActionLeads` | meridian-web/hooks/useEmergencyTransfer.ts:199-466 | where each action that takes effect leads, and what it shows and keeps |
| `TransferTrail.TrailTellsState` | meridian-web/hooks/useEmergencyTransfer.ts:199-466 | in every run the latest event tells the phase, and the events since the latest start of a review tell its configuration, acknowledgement and confirmation |
| `TransferTrail.StepsSucceed` | meridian-web/hooks/useEmergencyTransfer.ts:199-300 | from any state review, acknowledgement, confirmation, submission and its success lead to the succeeded phase with the hash, and record these five steps |
| `Amounts.DigitsDenoteStroops` | meridian-api/src/amount.rs:133-170 | the result for every text of digits with one point: refusals by length and size, else exactly the denoted stroops |
| `Amounts.WholeDenotesStroops` | meridian-api/src/amount.rs:133-144 | the result for every text of digits without a point |
| `Amounts.StroopsExact` | meridian-api/src/amount.rs:133-170 | those stroops are the denoted decimal number of XLM with no rounding |
| `Amounts.RoundTrip` | meridian-api/src/amount.rs:133-215 | printing and parsing gives every amount back |
| `Amounts.PlainTextResult` | meridian-api/src/amount.rs:133-144 | the result for every text without a point |
| `Amounts.PointedTextResult` | meridian-api/src/amount.rs:145-167 | the result for every text with one point: which texts are refused and why, and the exact stroops of all others |
| `Amounts.ManyPointsResult` | meridian-api/src/amount.rs:168-169 | every text with more than one point is refused |
| `Amounts.AcceptedIff` | meridian-api/src/amount.rs:133-170 | the accepted texts exactly: optional plus sign and digits, none needed before a point, at most seven characters after it, in range; and the stroops each denotes |
| `Amounts.AcceptedPlainIff` | meridian-api/src/amount.rs:133-170 | an accepted text is a plain decimal exactly when it holds no plus sign |
| `Amounts.SignInFraction` | meridian-api/src/amount.rs:145-164 | a plus sign at the start of the fraction is accepted and counts as a zero digit |
| `Amounts.SignInWhole` | meridian-api/src/amount.rs:145-164 | a plus sign at the start of the whole part is accepted and ignored |
| `Amounts.SignInFractionAccepted` | meridian-api/src/amount.rs:158-160 | the text 1.+5 is accepted as 1.05 |
| `Amounts.SignInWholeAccepted` | meridian-api/src/amount.rs:153-155 | the text +1.5 is accepted |
| `Amounts.AddThenSub` | meridian-api/src/amount.rs:220-236 | addition is accepted exactly within range, and subtracting what was added restores the balance |
| `Amounts.SubThenAdd` | meridian-api/src/amount.rs:220-236 | subtraction is accepted exactly when something is left, and adding it back restores the balance |
| `Amounts.PercentIsBasisPoints` | meridian-api/src/amount.rs:266-295 | a percentage is the same fee as a hundred times as many basis points, errors included |
| `Amounts.FeeIff` | meridian-api/src/amount.rs:266-279 | a fee in range is the product rounded down, refused exactly when that is zero, and never more than the amount |
| `Amounts.RatesRefused` | meridian-api/src/amount.rs:266-295 | a rate of zero or above the whole is refused |
| `Amounts.SubRefused` | meridian-api/src/amount.rs:230-236 | why a subtraction is refused |
| `Amounts.PrintedShape` | meridian-api/src/amount.rs:212-215 | what is printed: the whole part without leading zeros, a point and seven digits |
| `Amounts.FeesSplit` | meridian-api/src/amount.rs:266-279 | charging two amounts together costs what charging them apart costs, or one stroop more |

## Left out

- HandlersSeparated: assumes that each re-read returns the worker's own claim and that claim times are distinct, because without them the statement is false of the code; LeaseAgainstDelayIff and LeaseAloneSeparatesIff say for which leases.
- DlqExactly: assumes that claims have distinct times, because compare-and-set by `updatedAt` cannot tell two claims of the same millisecond apart; other writes of the row may share any times.
- EveryEventCanFinish: says that an event can be finished from every state, not that it must be while other workers go on interfering.
- LeaseAgainstDelayIff: looks at runs in which claims have distinct times, for the same reason.
- ScriptWindowBound: takes the Redis server's clock for key expiry to be the caller's `nowMs`.
- OneCharacterUnnoticedIff: is stated for cursors that decode at all, which RoundTripIff says are those with a subject under 65536 bytes; characters added or taken away are not covered.
- VerifiedResultAccepted: goes one way, because a wrong anchored root may still be reached with the siblings on other sides.
- ProvableIff: is stated for leaves without the separator, as recorded chain hashes are; the binding of single generated proofs and of whole lists needs no such assumption.
- RootBindsLog: leaves the optional state root of an entry open, because it is not hashed.
- LastHashBinds: leaves row ids and state roots open, because they are not hashed.
- Deleted webhook rows, the `not_found` replies, and the text of error messages.
- One clock reading serves each auth call; the code reads the clock more than once.
- The `previous_id` and `balance_stroops` fields of tokens, and the `other_sessions_revoked` count of a completed recovery, which counts active tokens of all subjects.
- The lock around the local rate limit store, and the counters `incrWithTtl` and `getNumber`.
- Random jitter on retry delays: a delay is any number.
- UTF-8 well-formedness is a parameter of cursor decoding; strings are their bytes.
- SHA-256, BLAKE2b and the 32-bit FNV pair behind `simpleHash`, which is not collision free; hexadecimal and JSON text around digests; the `:` ambiguity inside an audit payload.
- `closeEpoch` and `rebuildEpochAccumulator` as database records; they store the root that `ComputeMerkleRoot` computes. The polling cursor of `pollContractEvents`.
- The contracts' 32- and 64-bit counters and timestamps do not overflow in the model; events, privacy preferences, dashboards, certificates, consent by proof type, the compliance summary refreshed after a review, and the registry's audit log and encrypted data hashes.
- Groth16 key and proof decoding, public input reduction, and the stateless `verify_zk_proof_data`.
- The hook around the emergency transfer reducer, whose retry path dispatches a success from the confirmed phase that the reducer ignores; event ids and timestamps.
- `Amount` accessors and operators that only rename another operation.
- React components, controllers, mail, uploads, HTTP delivery, signatures and encryption; `auth/validation.rs`, `multisig.rs` and `integrity.rs`, which would only add easy members.

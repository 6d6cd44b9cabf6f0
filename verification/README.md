# A verified model of the OAuth 2.0 server's stateful core

This Dafny project models the parts of the server whose correctness rests on more than one function, and proves what
their code and documentation promise, for every input, run or interleaving. `dafny verify dfyconfig.toml` checks all of
it.

| file | models |
|---|---|
| `Prelude.dfy`, `Scopes.dfy` | options, clamping, rounding; scope strings as sets of words |
| `Limits.dfy`, `Delegation.dfy` | the explicit-stack depth guard; the `act` chain of token exchange |
| `Store.dfy`, `Grants.dfy` | the rows and storage statements; each request as a program over storage calls |
| `Interleaving.dfy` | any number of requests, each suspended between two storage calls with the rows it read earlier |
| `Families.dfy` | the same requests handled as wholes: token families; and exactly what breaks when they are not |
| `Lineage.dfy` | what every issued row looks like and which family it is in, under every interleaving |
| `Admission.dfy`, `Refusals.dfy` | when each grant issues, what the token is, which error is answered; what a refusal leaves |
| `Effects.dfy` | what the revocation, device, authorization and administrative endpoints leave of the store |
| `TokenEndpoint.dfy` | the handlers as methods over a mutable store, each proved equal to its request program |
| `CircuitBreakers.dfy` | the circuit breaker and concurrency limiter, and the breaker's refinement of its history |
| `ResilienceMiddleware.dfy` | the middleware driving both, as an interleaved system and as a class |
| `RateLimiting.dfy` | the token bucket with its sweep |
| `ReplayGuards.dfy` | the DPoP replay store, the jti guard, and the two validators that rest on them |
| `KeySets.dfy` | signing-key rotation and the two static-PEM fallbacks |
| `Search.dfy` | LIKE escaping against substring search |
| `DpopNonce.dfy` | the stateless time-bucketed nonce |

**Modelling choices.** Time is an explicit nondecreasing value. Random identifiers are fresh: a row, code or token
carries its own number. Hashes, signatures, the PKCE digest and lower-casing are function parameters; what a JWT carries
is a field of the token value. Storage calls, and calls into the breaker and limiter, are atomic steps, since each is one
statement or a lock body that never suspends. `issued` in `Store` is a history beside the token table that no operation
reads; the theorems on derivation trees speak about it and about the rows. In the resilience system `history`, `acquired`
and `released` are such records too. The document store offers the same claim, revoke and approve operations as the SQL
store (`storage/mongo.py:376-398`, `452-464`, `483-501`) and is covered by the same functions.

**Two grains.** Single use of codes, attenuation, refresh chains and delegation hold under every interleaving. The two
family laws, one live row and permanent death, hold when each request is handled as a whole. They can fail between
storage calls, since a refresh reads, revokes and issues separately and a redemption claims and issues separately.
Exactly when is proved for both: `Families.OneLiveBetweenCalls` and `Families.DeathBetweenCalls`. Schedules that break
them start from every state in which a refresh or a redemption would succeed: `Families.TwoRefreshesSplitFamily` and
`Families.ReplayedCodeRevives`. The same holds of denying a device code: `Effects.DeniedNeverRedeemed` for whole requests,
`Effects.DenialBetweenCalls` for exactly when it holds between storage calls.

**Where the code and its comments differ**, the code is modelled:
- A comment in the refresh branch says `resource` is taken at face value (`routes/token.py:650-656`); the code below it
  refuses a resource outside the old audience.
- A comment in the JWKS route calls the PEM fallback reachable after rotation and pruning (`routes/wellknown.py:238-243`);
  `KeySets.FallbacksUnreachable` shows it is not once a PEM was seeded.
- Re-exchanging one's own token drops the whole earlier chain, as the body of the exchange branch does, rather than
  keeping it unnested.
- A jwt-bearer request reads the wall clock twice, at decoding and when sizing the guard entry. The at-most-once law
  therefore compares the second decoding with the first enforcing; `JwtBearer.TwoReadingsBreakIt` and
  `JwtBearer.StraddlingTheExpiryBreaksIt` are attempts around the expiry that both pass.

## Model

| member | source | states |
|---|---|---|
| `Limits.CheckDepth` | `src/oauth2_server/services/limits.py:48-68` | The explicit-stack walk terminates on every parsed value and accepts exactly the values whose recursively defined container depth is at most the limit |
| `Limits.VisitTop` | `src/oauth2_server/services/limits.py:57-68` | One pop of the stack and one push of the children keep the question asked of the whole stack and make the stack smaller; a container that is too deep answers it |
| `Limits.FitsUnfolds` | `src/oauth2_server/services/limits.py:60-68` | A container fits exactly when its own depth is within the limit and all its children fit one level down |
| `Delegation.BuildActOnChain` | `src/oauth2_server/routes/token.py:955-958` | One exchange, read on chains of actors: a different client goes in front of the chain, the same client starts over |
| `Delegation.NextActOnChain` | `src/oauth2_server/routes/token.py:955-962` | The depth guard refuses exactly the chains longer than ten |
| `Delegation.ActIsLongestSuffix` | `src/oauth2_server/routes/token.py:955-962` | For every exchange history the `act` claim is the reverse of the longest suffix of exchanging clients with no two neighbours equal, at most ten long; the last exchange is refused exactly when that suffix is longer |
| `Delegation.RefusedExactlyWhenTooDeep` | `src/oauth2_server/routes/token.py:959-962` | A history contains a refused exchange if and only if some prefix of it needs an eleventh level |
| `Delegation.LongestSuffixUnique` | `src/oauth2_server/routes/token.py:955-958` | The longest stutter-free suffix is unique, so the chain is a function of the history |
| `Scopes.WordsAreMaximalRuns` | `src/oauth2_server/services/auth.py:32-33` | The words of a scope are exactly its maximal runs of non-space characters |
| `Scopes.SubsetIsWordwise` | `src/oauth2_server/services/auth.py:32-33` | A scope is within another if and only if each of its words stands in the other |
| `Store.AccessLookupIsFirst` | `src/oauth2_server/storage/sql.py:397-409` | The access-token lookup answers with the first row that carries the value |
| `Store.RefreshLookupIsFirst` | `src/oauth2_server/storage/sql.py:411-423` | The refresh-token lookup answers with the first row that carries the value |
| `Store.UserCodeLookupIsFirst` | `src/oauth2_server/storage/sql.py:606-623` | The user-code lookup answers with the first row that carries the code |
| `Store.CodeClaimedOnce` | `src/oauth2_server/storage/sql.py:570-576` | The conditional claim succeeds exactly on an existing unused code, spends that code and changes nothing else, and after it no claim of that code succeeds |
| `Store.DeviceClaimedOnce` | `src/oauth2_server/storage/sql.py:645-654` | The same for device codes |
| `Interleaving.RevocationIsFinal` | `src/oauth2_server/storage/sql.py:439-470` | Under every schedule from every state no token row disappears, no column but the revoked flag and the user link ever changes, and a revoked row stays revoked |
| `Interleaving.DeletionIsFinal` | `src/oauth2_server/storage/sql.py:317-324` | Whatever runs after a user is deleted, each token the user had is revoked and unlinked for good; the deletion touches no other token |
| `TokenEndpoint.Storage.MarkAuthorizationCodeUsed` | `src/oauth2_server/storage/sql.py:570-576` | The statement on the mutable store equals the claim on values |
| `TokenEndpoint.Storage.MarkDeviceAuthorizationUsed` | `src/oauth2_server/storage/sql.py:645-654` | The statement on the mutable store equals the claim on values |
| `TokenEndpoint.Storage.RevokeTokenValue` | `src/oauth2_server/storage/sql.py:439-446` | Revokes every row whose access or refresh token is the given value, nothing else |
| `TokenEndpoint.Storage.RevokeTokenFamily` | `src/oauth2_server/storage/sql.py:448-454` | Revokes every row of the family, nothing else |
| `TokenEndpoint.Storage.ApproveDeviceAuthorization` | `src/oauth2_server/storage/sql.py:625-633` | Approval sets the user, so an approved row always has one |
| `TokenEndpoint.Storage.DenyDeviceAuthorization` | `src/oauth2_server/storage/sql.py:635-643` | Denial clears approval |
| `Grants.AudienceRoundTrip` | `src/oauth2_server/models.py:246-265` | The one-or-many `aud` encoding loses nothing: what was chosen at issue is what a refresh reads back, and so for `cnf` and `act` |
| `Grants.EffectiveScope` | `src/oauth2_server/routes/token.py:642-648` | Refused if and only if a requested scope exceeds the allowed one; what is granted is within it |
| `Grants.TypedCodeIsRecognised` | `src/oauth2_server/routes/device.py:48-52` | A generated user code is recognised with blanks around it, in any letter case, with or without its hyphen |
| `Refusals.RefusalLeavesStoreAlone` | `src/oauth2_server/routes/token.py:440-709` | For every request and store, a refusal changes the store if and only if it replays a spent code or revoked refresh token into a family with a live row, or burns a code whose bound key it cannot prove; then it revokes just that family or spends just that code |
| `Refusals.CodeRefusal` | `src/oauth2_server/routes/token.py:446-552` | The code branch: what each refusal leaves of the store, and that replays and key mismatches are refused |
| `Refusals.RefreshRefusal` | `src/oauth2_server/routes/token.py:617-709` | The refresh branch: every refusal but a replay leaves the refresh token and its family as they were |
| `Admission.CodeIssuedExactly` | `src/oauth2_server/routes/token.py:440-573` | A code leads to a token if and only if it is the client's, unexpired, unused, redeemed with its redirect URI, with a verifier of allowed length whose digest is its challenge, with its details unaltered and with the key it may be bound to; the token is the consenting user's with the consented scope, resource and details, in the code's family; the code is spent and nothing else changes |
| `Admission.RefreshIssuedExactly` | `src/oauth2_server/routes/token.py:610-728` | A refresh token leads to a token if and only if its row is the client's, live and young enough, scope and resource are within the grant, and a public client proves the bound key; the old row is revoked, and user, family, binding and audience are kept |
| `Admission.DeviceIssuedExactly` | `src/oauth2_server/routes/token.py:760-838` | A device code leads to a token if and only if it is the client's, unexpired, approved, neither denied nor used, and not polled too fast; the token is the approving user's, in a family of its own |
| `Admission.ExchangeIssuedExactly` | `src/oauth2_server/routes/token.py:871-983` | A token is exchanged if and only if a confidential client may, the token is stored, unrevoked and unexpired, the scope is within its scope, the chain is at most ten deep and the resource is valid; what the new token carries |
| `Admission.DirectIssuedExactly` | `src/oauth2_server/routes/token.py:378-426` | The client_credentials and jwt-bearer grants issue if and only if a confidential client may, within its registered scope, with valid details and resource; what the token carries |
| `Admission.DevicePollAnswers` | `src/oauth2_server/routes/token.py:775-816` | Each answer a polling device acts on, if and only if its code is in the matching state |
| `Admission.CodeErrors` | `src/oauth2_server/routes/token.py:440-552` | Which error each failing condition of a redemption is answered with |
| `Admission.RefreshErrors` | `src/oauth2_server/routes/token.py:610-709` | Which error each failing condition of a refresh is answered with |
| `Admission.ExchangeErrors` | `src/oauth2_server/routes/token.py:880-975` | Which error each failing condition of an exchange is answered with |
| `Admission.DirectErrors` | `src/oauth2_server/routes/token.py:378-415` | Which error each failing condition of a direct grant is answered with |
| `Effects.RevokedExactly` | `src/oauth2_server/routes/introspect.py:276-303` | Revocation is always acknowledged; a token unknown or another client's leaves everything as it is, one in a family takes exactly the family along, one without goes alone |
| `Effects.FamilylessGoesAlone` | `src/oauth2_server/routes/introspect.py:290-299` | In every reachable store, revoking a token without a family revokes that one row and changes nothing else |
| `Effects.RowRevokedExactly` | `src/oauth2_server/routes/admin/tokens.py:85-100` | The administrative revocation of a row revokes the rows that carry its token and no others |
| `Effects.UserRevokedExactly` | `src/oauth2_server/storage/sql.py:456-462` | Revoking by user revokes exactly that user's tokens |
| `Effects.ClientRevokedExactly` | `src/oauth2_server/storage/sql.py:464-470` | Revoking by client revokes exactly that client's tokens |
| `Effects.CodeSavedExactly` | `src/oauth2_server/services/auth.py:41-75` | An authorization adds one unused code with what was consented to, for the code lifetime, in a family no other code has |
| `Effects.DeviceSavedExactly` | `src/oauth2_server/routes/device.py:55-88` | A device authorization is saved if and only if the client may, within its registered scope, under a user code nobody has; it is pending for ten minutes |
| `Effects.DeviceDecidedExactly` | `src/oauth2_server/routes/device.py:150-182` | A logged-in user decides a pending unexpired code: approving approves it in that user's name, denying denies it; everything else is refused and changes nothing |
| `Effects.DeniedNeverRedeemed` | `src/oauth2_server/routes/token.py:800-807` | With whole requests a device code once denied and unused stays so, and no token ever comes of it |
| `Effects.DenialBetweenCalls` | `src/oauth2_server/routes/device.py:162-180` | Between storage calls a denial is final under every schedule to come if and only if no suspended request is about to claim or to approve that code |
| `TokenEndpoint.IssueToken` | `src/oauth2_server/services/tokens.py:78-139` | Issuing appends the row and record, and gives the answer, of the request program of the interleaved system |
| `TokenEndpoint.AuthorizationCode` | `src/oauth2_server/routes/token.py:440-525` | The authorization_code branch, early returns and storage calls in source order, ends in the state and answer of the request program the interleaving theorems are about |
| `TokenEndpoint.RefreshToken` | `src/oauth2_server/routes/token.py:610-728` | The same for the refresh_token branch |
| `TokenEndpoint.DeviceCode` | `src/oauth2_server/routes/token.py:760-838` | The same for the device_code branch |
| `TokenEndpoint.TokenExchange` | `src/oauth2_server/routes/token.py:871-983` | The same for the token-exchange branch, calling the depth walk |
| `TokenEndpoint.RevokeHandler` | `src/oauth2_server/routes/introspect.py:276-303` | The same for token revocation: access token first, then refresh token, family if there is one |
| `TokenEndpoint.DeviceVerify` | `src/oauth2_server/routes/device.py:150-182` | The same for approving and denying a user code, missing and unnormalised ones included |
| `Interleaving.SingleIssuance` | `src/oauth2_server/routes/token.py:446-525` | Under every interleaving of the storage calls of any number of requests with stale snapshots, an authorization code or device code leads to at most one token; a device token is issued with a user and keeps it unless deletion unlinked and revoked it |
| `Interleaving.NotYetClaimed` | `src/oauth2_server/storage/sql.py:570-576` | A claim that changed a row proves that no token was issued from it and that no other request is about to issue one |
| `Interleaving.RunKeepsInv` | `src/oauth2_server/routes/token.py:440-983` | Every storage call of every request keeps the invariant on rows, suspended requests and claims, over whole runs |
| `Interleaving.Attenuation` | `src/oauth2_server/routes/token.py:642-728` | Under every interleaving and over every derivation tree of refreshes and exchanges: scope within every ancestor and within the root grant, the user that of the root unless deletion unlinked and revoked it; a root always exists |
| `Interleaving.RefreshChains` | `src/oauth2_server/routes/token.py:669-728` | In JWT mode along every refresh chain: the audience set never grows and never empties, `cnf` never changes, and a public client advanced a key-bound chain only with a proof from that key |
| `Interleaving.DelegationChains` | `src/oauth2_server/routes/token.py:923-983` | In JWT mode, in every reachable store, each `act` claim is the reversed longest stutter-free suffix of the clients that exchanged the token, at most ten deep, and absent if nobody did |
| `Interleaving.CodesStayBound` | `src/oauth2_server/routes/token.py:449-552` | Under every interleaving a code or device code is redeemed only by the client it was issued to, a code pre-bound to a key only with a proof from that key; in JWT mode the token carries the details the user consented to, and every token of every refresh chain starting there is bound to that key |
| `Lineage.RowsByOrigin` | `src/oauth2_server/services/tokens.py:78-126` | Under every interleaving: exactly code, device and refresh grants get a refresh token, no two rows share an access or refresh token, a row expires the access lifetime after its creation, and its family is that of its code, its own, that of the token it replaces, or none |
| `Lineage.ChainsStayInFamily` | `src/oauth2_server/routes/token.py:711-728` | Under every interleaving a refresh chain never leaves the family of the code, or of the first row of the device code, it starts from |
| `Lineage.ReplayReachesWholeChain` | `src/oauth2_server/routes/token.py:464-468` | With whole requests, once a spent code is replayed every token of every refresh chain that starts from it is revoked in every later state |
| `Interleaving.HandleIsASchedule` | `src/oauth2_server/routes/token.py:440-983` | Handling a request as a whole is the schedule that never switches |
| `Families.OneLiveRow` | `src/oauth2_server/routes/token.py:631-728` | With whole requests, in every reachable store each family has at most one unrevoked row, and it is the last one issued in the family |
| `Families.KillingKills` | `src/oauth2_server/routes/token.py:464-468` | Replaying a spent unexpired code, reusing a revoked refresh token or revoking a member leaves the family without a live row and unable to get one |
| `Families.DeathIsPermanent` | `src/oauth2_server/routes/introspect.py:290-299` | With whole requests, after any of those three no row of the family is live in any later state of any run |
| `Families.RunIsInterleaved` | `src/oauth2_server/routes/token.py:440-983` | Every run of whole requests is an interleaved run, so the interleaving theorems apply to it |
| `Families.StaleRequestRevives` | `src/oauth2_server/routes/token.py:520-728` | A refresh or redemption suspended before its revoke or save puts a live row into its family, dead or not, whatever ran meanwhile; it is the only live row if and only if the family had none but the one about to be revoked |
| `Families.OneLiveBetweenCalls` | `src/oauth2_server/routes/token.py:711-728` | Under every schedule a family keeps to at most one live row throughout if and only if no request reaches its save into the family while it has a live row |
| `Families.DeathBetweenCalls` | `src/oauth2_server/routes/token.py:464-728` | In every reachable state the death of a family is permanent under every schedule to come if and only if no suspended request is already about to revoke or save into it |
| `Families.ReplayedCodeRevives` | `src/oauth2_server/routes/token.py:520-573` | From every state in which a redemption would succeed, a replay between its claim and its save kills the family, and the save then puts a live row into the dead family |
| `Families.TwoRefreshesSplitFamily` | `src/oauth2_server/routes/token.py:711-728` | From every reachable state in which a refresh would succeed, two concurrent copies of it leave two live rows in the family: the one-live-row law fails between storage calls |
| `CircuitBreakers.CircuitBreaker.constructor` | `src/oauth2_server/services/resilience.py:54-72` | Every setting is clamped to at least one and the breaker starts closed |
| `CircuitBreakers.CircuitBreaker.State` | `src/oauth2_server/services/resilience.py:74-88` | Looking at an open breaker whose time is up makes it half-open with all counters of the period cleared |
| `CircuitBreakers.CircuitBreaker.Allow` | `src/oauth2_server/services/resilience.py:90-105` | Closed admits, open refuses, half-open admits while a probe slot is free |
| `CircuitBreakers.CircuitBreaker.Succeeded` | `src/oauth2_server/services/resilience.py:107-122` | The whole new state after a success in each phase |
| `CircuitBreakers.CircuitBreaker.Failed` | `src/oauth2_server/services/resilience.py:124-138` | The whole new state after a failure in each phase, including the look that may come first |
| `CircuitBreakers.CircuitBreaker.Trip` | `src/oauth2_server/services/resilience.py:140-146` | A trip clears the counters, stamps the time and adds one to the trips |
| `CircuitBreakers.CircuitBreaker.Close` | `src/oauth2_server/services/resilience.py:148-153` | Closing clears everything except the trips |
| `CircuitBreakers.ConcurrencyLimiter.Acquire` | `src/oauth2_server/services/resilience.py:167-173` | A permit exactly while fewer than the maximum are out; a refusal is counted |
| `CircuitBreakers.ConcurrencyLimiter.Free` | `src/oauth2_server/services/resilience.py:175-182` | A release never goes below zero |
| `BreakerHistory.CountsDecide` | `src/oauth2_server/services/resilience.py:124-138` | The failure counter reaches the threshold exactly when the log of outcomes ends in that many failures |
| `BreakerHistory.RunAgrees` | `src/oauth2_server/services/resilience.py:74-153` | Over every run the counters stand for whole logs: the breaker refines a machine that keeps the outcomes of each stay and no counters |
| `BreakerHistory.LogsAreOutcomes` | `src/oauth2_server/services/resilience.py:107-138` | The logs of all stays, one after the other, are exactly the recorded outcomes that did not meet OPEN, in order |
| `BreakerHistory.BreakerFollowsHistory` | `src/oauth2_server/services/resilience.py:74-153` | CLOSED ended exactly when its log first ended in failure_threshold failures; HALF_OPEN closed after exactly success_threshold successes without a failure, or reopened on its first failure; OPEN lasted at least open_secs; total_trips is the number of stays in OPEN; the logs are what was recorded outside OPEN |
| `BreakerHistory.OpenLasts` | `src/oauth2_server/services/resilience.py:74-88` | A stay in OPEN is followed by nothing before open_secs are over |
| `ResilienceMiddleware.PermitsAreConserved` | `src/oauth2_server/middleware_ratelimit.py:286-347` | Under every interleaving of requests, clock ticks and handler outcomes, in-flight is exactly the number of admitted unfinished requests and at most the maximum; a finished request gave back exactly what it took, one permit if it reached the handler |
| `ResilienceMiddleware.NoProbeSlotLost` | `src/oauth2_server/middleware_ratelimit.py:303-345` | While half-open, the slots in use are at most the limit and at most the unfinished probes of this very period, however late earlier probes finish |
| `ResilienceMiddleware.NextProbeIsAdmitted` | `src/oauth2_server/middleware_ratelimit.py:303-311` | While fewer probes of the period are unfinished than the limit and a permit is free, the next request is admitted as a probe |
| `ResilienceMiddleware.AdmittedExactly` | `src/oauth2_server/middleware_ratelimit.py:291-311` | Who is admitted: by phase, free permit and free probe slot, with what happens to permits, slots and the rejected count |
| `ResilienceMiddleware.OutcomeIsRecorded` | `src/oauth2_server/middleware_ratelimit.py:313-347` | From every reachable state, a request that runs on alone from its handler adds Success for a status below 500 and Failure otherwise, exactly when the breaker is closed, or the request is a probe and the breaker is not open; it gives back its permit |
| `ResilienceMiddleware.OpenRefusesArrivals` | `src/oauth2_server/middleware_ratelimit.py:291-294` | No request arriving within open_secs of any trip reaches the handler |
| `ResilienceMiddleware.TripsAreCountedOnce` | `src/oauth2_server/middleware_ratelimit.py:349-358` | Inside the middleware the breaker obeys its history; the exported counter never counts a trip twice or ahead of time, and every refusal by the breaker and every accounting brings it up to date |
| `ResilienceMiddleware.DoneStaysDone` | `src/oauth2_server/middleware_ratelimit.py:286-347` | A finished request makes no further call |
| `ResilienceMiddleware.SlotsFollowCircuit` | `src/oauth2_server/services/resilience.py:90-134` | What any one step may do to the slots in use and to the slot its request holds |
| `ResilienceMiddleware.Middleware.Admit` | `src/oauth2_server/middleware_ratelimit.py:291-311` | Everything before the handler, in source order, is the solo run of the request program from arrival to the handler or the refusal |
| `ResilienceMiddleware.Middleware.PassProbeGate` | `src/oauth2_server/middleware_ratelimit.py:303-311` | The half-open gate: admission takes a slot, refusal gives the permit back |
| `ResilienceMiddleware.Middleware.FinishReturned` | `src/oauth2_server/middleware_ratelimit.py:336-347` | After a response: permit back, then the outcome recorded when closed or for a probe, then the metrics |
| `ResilienceMiddleware.Middleware.FinishRaised` | `src/oauth2_server/middleware_ratelimit.py:320-338` | After an exception: a failure recorded when closed or for a probe, the metrics, then the permit back |
| `ResilienceMiddleware.Middleware.RecordMetrics` | `src/oauth2_server/middleware_ratelimit.py:349-358` | The exported counter grows by the trips not yet counted |
| `RateLimiting.MakeSettings` | `src/oauth2_server/services/limiter.py:93-100` | Clamped settings whose refill rate fills a whole bucket in a whole window |
| `RateLimiting.TokenBucketLimiter.CheckKey` | `src/oauth2_server/services/limiter.py:110-148` | The check, sweep included, equals the operation on values |
| `RateLimiting.TokenBucketLimiter.SweepExpired` | `src/oauth2_server/services/limiter.py:102-108` | Removes exactly the buckets idle for two windows |
| `RateLimiting.IdleIsFull` | `src/oauth2_server/services/limiter.py:25-33` | A bucket idle for two windows is indistinguishable from one that was never there |
| `RateLimiting.SweepingRefines` | `src/oauth2_server/services/limiter.py:97-148` | On every sequence of checks over any keys with nondecreasing time, every answer equals that of a limiter that never sweeps |
| `RateLimiting.AllowedAtMost` | `src/oauth2_server/services/limiter.py:102-148` | For every run, key and interval, at most max_tokens plus the refill of the interval are allowed |
| `RateLimiting.RetryAfterIsLeast` | `src/oauth2_server/services/limiter.py:136-148` | A refused check is allowed after k idle seconds if and only if k is at least its retry_after, whatever other keys do meanwhile |
| `RateLimiting.RemainingIsExact` | `src/oauth2_server/services/limiter.py:128-148` | After any check, remaining is the number of further checks of the key allowed at the same instant |
| `RateLimiting.FullAfterAWindow` | `src/oauth2_server/services/limiter.py:120-139` | A key not checked for a whole window, or never, has a full bucket: what reset_at announces |
| `RateLimiting.HeldExactly` | `src/oauth2_server/services/limiter.py:102-108` | After a check the table holds exactly the keys checked within the last two windows |
| `ReplayGuards.DpopReplayStore.CheckAndInsert` | `src/oauth2_server/services/dpop.py:121-128` | The store refuses a jti it still holds and otherwise remembers it for 660 seconds |
| `ReplayGuards.DpopReplayStore.SweepExpired` | `src/oauth2_server/services/dpop.py:116-119` | Removes exactly the expired entries |
| `ReplayGuards.JtiReplayGuard.ObserveJti` | `src/oauth2_server/services/client_assertion.py:77-96` | Seen, full or fresh, with the clamped lifetime |
| `ReplayGuards.JtiReplayGuard.SweepExpired` | `src/oauth2_server/services/client_assertion.py:72-75` | Removes exactly the expired entries |
| `ReplayGuards.KeysStandForPairs` | `src/oauth2_server/services/client_assertion.py:77-96` | Two pairs share a guard key if and only if they are equal, for namespaces without NUL |
| `ReplayGuards.KeysCollideOnNul` | `src/oauth2_server/services/client_assertion.py:77-96` | With a NUL in the namespace two different pairs can share a key |
| `ReplayGuards.GuardRefinesHistory` | `src/oauth2_server/services/client_assertion.py:72-96` | The guard refines an unbounded history: seen if and only if an accepted call for the key is alive, full if and only if not seen and as many live keys as room, and the keys it holds are exactly the live ones, so no live entry is evicted |
| `ReplayGuards.SeenExactlyWithinLifetime` | `src/oauth2_server/services/client_assertion.py:72-96` | After an accepted call the next call for its key is refused exactly while the lifetime lasts |
| `ReplayGuards.BlockedWhileAlive` | `src/oauth2_server/services/client_assertion.py:72-96` | An accepted call blocks its key for its whole lifetime whatever comes in between |
| `ReplayGuards.AnsweredExactly` | `src/oauth2_server/services/client_assertion.py:77-96` | Seen if and only if an earlier accepted attempt on the key is alive, full if and only if not and as many keys are alive as there is room for |
| `DpopProofs.ValidateTail` | `src/oauth2_server/services/dpop.py:280-305` | Window, nonce type and replay in that order; a proof refused earlier leaves the store alone |
| `DpopProofs.ValidatesExactly` | `src/oauth2_server/services/dpop.py:280-305` | A presentation validates if and only if its iat is within 300 seconds, its nonce is in order and its jti did not validate within the last 660 monotonic seconds |
| `DpopProofs.NoProofValidatesTwice` | `src/oauth2_server/services/dpop.py:280-303` | No proof (fixed jti and iat) validates twice in any run over the shared store, if the monotonic clock gains less than sixty seconds on the wall clock between the two presentations |
| `DpopProofs.ValidatesAgainExactlyAfterTtl` | `src/oauth2_server/services/dpop.py:116-128` | After a validation the next in-window presentation of the jti validates if and only if 660 monotonic seconds have passed |
| `DpopProofs.SixtySecondsOfDriftBreakIt` | `src/oauth2_server/services/dpop.py:35-41` | Sixty seconds of drift let one proof validate at both ends of its window |
| `JwtBearer.EnforceReplay` | `src/oauth2_server/services/jwt_bearer_grant.py:191-208` | The checks before the guard in order, then the guard in the issuer namespace; what they refuse leaves the guard alone |
| `JwtBearer.RedeemedExactly` | `src/oauth2_server/services/jwt_bearer_grant.py:191-208` | An assertion is redeemed if and only if trusted, unexpired when decoded, with iat at most a minute ahead, a jti, at most 300 seconds to live, no live acceptance of its key and room in the guard |
| `JwtBearer.ClientAssertionSeenExactly` | `src/oauth2_server/services/client_assertion.py:226-254` | A client assertion is refused as seen for exactly its remaining life, capped at 300 seconds |
| `JwtBearer.AliveUntilExpiry` | `src/oauth2_server/services/jwt_bearer_grant.py:195-200` | The clamp never bites: the guard remembers an assertion for exactly the life it has left when the guard is asked; whatever gets that far had not expired when it was decoded |
| `JwtBearer.NoAssertionRedeemedTwice` | `src/oauth2_server/services/jwt_bearer_grant.py:191-208` | No assertion is redeemed twice in any run shared with client assertions, if the monotonic clock advances no more than the wall clock from the first enforcing to the second decoding |
| `JwtBearer.OneReadingSuffices` | `src/oauth2_server/services/jwt_bearer_grant.py:191-208` | With one clock reading per request it is enough that the monotonic clock does not run ahead of the wall clock |
| `JwtBearer.SeenExactlyForItsLife` | `src/oauth2_server/services/jwt_bearer_grant.py:191-208` | With any clock readings, the next attempt that reaches the guard is refused as seen if and only if less monotonic time has passed than the assertion had left when the guard was first asked |
| `JwtBearer.TwoReadingsBreakIt` | `src/oauth2_server/services/jwt_bearer_grant.py:300-337` | With the two readings the code takes, a second attempt decoded before and enforced after the expiry is redeemed too |
| `JwtBearer.StraddlingTheExpiryBreaksIt` | `src/oauth2_server/services/jwt_bearer_grant.py:300-337` | So are two attempts that both straddle the expiry |
| `KeySets.SeedKeySet` | `src/oauth2_server/keys.py:152-178` | The startup set: an HS256 key, and an RS256 key exactly when a PEM is configured |
| `KeySets.KeySet.FindByKid` | `src/oauth2_server/keys.py:59-65` | The first active key with that kid |
| `KeySets.KeySet.CurrentKey` | `src/oauth2_server/keys.py:53-57` | The first active current key of that algorithm |
| `KeySets.KeySet.RotateKeys` | `src/oauth2_server/keys.py:78-88` | Retires every current key of the algorithm with the grace deadline, then appends the new key |
| `KeySets.KeySet.PruneExpired` | `src/oauth2_server/keys.py:90-97` | Keeps exactly the active keys in order and reports exactly the kids dropped |
| `KeySets.AlwaysOneCurrentKey` | `src/oauth2_server/keys.py:53-97` | In every run each algorithm ever seeded or rotated has exactly one current key, which never expires and is the one signing looks up at any time |
| `KeySets.CurrentIsTheLatest` | `src/oauth2_server/keys.py:53-88` | The current key of an algorithm is the one its last rotation brought, and before any rotation the seeded one with the configured secret or PEM and kid |
| `KeySets.PruningIsInvisible` | `src/oauth2_server/keys.py:90-97` | After any run every lookup at any time answers as if nothing had ever been pruned |
| `KeySets.FoundExactlyUntilGraceEnds` | `src/oauth2_server/keys.py:59-88` | With distinct kids a key is found unretired until the next rotation of its algorithm, and from then on exactly until the grace of that rotation is over |
| `KeySets.SeededKidMayBeTaken` | `src/oauth2_server/keys.py:152-178` | The PEM key is found by its own kid at seeding if and only if that kid is not configured to be the HS256 one |
| `KeySets.FallbacksUnreachable` | `src/oauth2_server/routes/logout.py:63-79` | Once a PEM is seeded, in every run and at every time, hint verification and key publication use only stored active RS256 keys, the current one published among them; neither falls back to the static PEM |
| `KeySets.HintMaterialsExactly` | `src/oauth2_server/routes/logout.py:63-79` | A hint is verified against the active RS256 key it names, else against all active RS256 keys, else, only if there is none, against the configured PEM |
| `KeySets.CurrentIsPublished` | `src/oauth2_server/routes/wellknown.py:235-254` | While a current RS256 key exists, the published set is that of the active RS256 keys and contains it |
| `Search.EscapeLikePerCharacter` | `src/oauth2_server/storage/sql.py:85-92` | The three passes put one backslash before each special character and touch nothing else |
| `Search.PatternMatchesSubstring` | `src/oauth2_server/storage/sql.py:211-221` | For every search string and text, LIKE with ESCAPE on the wrapped escaped string matches if and only if the text contains it |
| `Search.UnescapedWildcardsMatchMore` | `src/oauth2_server/storage/sql.py:85-92` | Without escaping the equivalence fails |
| `Search.StoresSelectAlike` | `src/oauth2_server/storage/mongo.py:267-272` | For any two searched fields both stores select the same rows in the same order with the same total |
| `Search.ClientAndUserListsAgree` | `src/oauth2_server/storage/mongo.py:350-355` | The client lists and the user lists of the two stores agree |
| `Search.SelectedBySearch` | `src/oauth2_server/storage/sql.py:211-240` | The list selects, once each and in table order, exactly the rows one of whose two fields contains the search string; the total counts them |
| `DpopNonce.UnpackPack` | `src/oauth2_server/services/dpop_nonce.py:87-90` | Big-endian unpacking undoes packing for every number that fits |
| `DpopNonce.PackUnpack` | `src/oauth2_server/services/dpop_nonce.py:112-113` | Packing undoes unpacking, so a bucket has one encoding |
| `DpopNonce.DecodeEncode` | `src/oauth2_server/services/dpop_nonce.py:87-100` | Lenient base64url decoding undoes encoding for every byte string of whole groups |
| `DpopNonce.NonceDecodes` | `src/oauth2_server/services/dpop_nonce.py:87-113` | A nonce has 32 characters and decodes to the bucket and tag it was made from |
| `DpopNonce.VerdictsCharacterized` | `src/oauth2_server/services/dpop_nonce.py:96-115` | Accepted are exactly the texts that decode to the bytes issued for this bucket or the one before, stale exactly those of any other bucket, the rest invalid |
| `DpopNonce.SignedExactly` | `src/oauth2_server/services/dpop_nonce.py:96-110` | A text is not invalid if and only if it decodes to eight bytes followed by the first sixteen bytes of their keyed hash |
| `DpopNonce.IssuedNonceWindow` | `src/oauth2_server/services/dpop_nonce.py:92-115` | An issued nonce is accepted exactly during its bucket and the next, and otherwise stale, never invalid |
| `DpopNonce.AcceptedForALifetime` | `src/oauth2_server/services/dpop_nonce.py:92-115` | For every lifetime: accepted at every second from t to t+L inclusive, stale from t+2L on |
| `DpopNonce.ChallengeLeadsThrough` | `src/oauth2_server/services/dpop_nonce.py:128-153` | A challenged client that retries with the nonce it was handed gets through for a lifetime and later is challenged again; a nonce is handed only to a proof that carried none or one this issuer signed |

## Left out

- JWT signing and verification, argon2, RSA key generation and HKDF: foreign cryptography, kept as parameters or as fields of values.
- HTTP, FastAPI, templates, sessions, metrics other than the trip counter, telemetry, audit and events: plumbing.
- Client authentication and the client registry: a request carries its authenticated client.
- The id_token minted after a code is redeemed: it can only fail after the token was issued and changes no row.
- Task cancellation in the middleware: handlers return a status or raise an ordinary exception, as its accounting assumes; exempt paths, which touch nothing, have no steps.
- Floating-point rounding in the breaker, limiter and guards: times and token counts are reals. Each breaker, limiter or guard call reads its clock once.
- TokenEndpoint.IssueToken: validated authorization details are named by the text they were parsed from; the JWT's issuer, timestamps and jti have no field of their own.
- TokenEndpoint.DeviceCode: the poll tracker's slow_down verdict is a flag of the request.
- TokenEndpoint.DeviceVerify: upper-casing is a parameter. A user code is given with the request that saves it; one already in the table is refused by its unique column.
- TokenEndpoint.AuthorizationCode: one instant for the whole request; the interleaved system reads the clock anew at every storage call.
- Interleaving.DeletionIsFinal: the SQL store only; the document store deletes the user and leaves the tokens untouched.
- DpopProofs.NoProofValidatesTwice: needs drift below sixty seconds, which the constants allow for; `DpopProofs.ValidatesAgainExactlyAfterTtl` gives the exact condition.
- JwtBearer.NoAssertionRedeemedTwice: needs its clock condition, without which it is false; `JwtBearer.SeenExactlyForItsLife` gives the exact condition.
- KeySets.FoundExactlyUntilGraceEnds: needs distinct kids; kids come from whole seconds, so two rotations of one algorithm in one second clash, as does a configured kid equal to the HS256 one.
- KeySets.KeySet.RotateKeys: keys are values in the list, so a caller that held a key object would not see it change; no caller does.
- Verification of access tokens by retired keys: the decoder falls back to the static secret by design, so expiry is stated on key-set lookups only.
- Search.StoresSelectAlike: one lower-casing function for both stores, whose results LIKE compares exactly; sorting and paging, which depend on text timestamps and tie order, are left out.
- DpopNonce.AcceptedForALifetime: the clock is within the 64-bit field; beyond it packing raises.
- Decoding the nonce secret, the parameter validators for resource and authorization details, PAR, the fixed-window limiter, the idempotency store, configuration, migrations and seeding: library parsing or easy members.
- Social login and JWKS fetching: network clients; the social circuit breaker is a weaker copy of the modelled one.

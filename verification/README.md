# Traefik gateway plugin: verified model

A Dafny model of a Traefik middleware that authorizes requests, stamps identity headers, limits
rates over Redis and serves everything from polled caches. `dafny verify dfyconfig.toml` checks
the whole project.

## What is modelled

| file | part of the gateway |
|---|---|
| `Text`, `Decimal`, `Bits` | byte strings, int64 in decimal, bit arithmetic |
| `Resp`, `RedisClient` | the RESP2 codec over a read cursor, and the self-healing connection |
| `RateLimit`, `Restarts`, `RemoteCheck`, `Keys` | the fixed-window limiter that many gateways run against one Redis, the same without its assumptions, a check over the real client, and what names a counter |
| `Authz`, `Permissions` | policies, bindings, wildcard, introspection lists |
| `Snapshot`, `Registry`, `Plans`, `Jwks`, `Rsa` | the polled caches with last-good semantics, and the keys in them |
| `Tokens`, `UserId`, `UserIdVector` | claims, roles and the numeric user id of a Keycloak token |
| `Headers`, `Gateway` | a request mutated in place and the whole request path, for both engines |
| `Mediation`, `EndToEnd`, `Noninterference`, `Cutover`, `CutoverExample`, `Admission` | what the request path guarantees |

State that the Go code changes in place is a class here, and each of its methods is proved against
a function of the old state; what the system promises is then proved about those functions.
Concurrency is a state machine over the single steps that locks or Redis make atomic: `RateLimit`
interleaves clock reads, INCRs and EXPIREs of any number of checks, `Jwks` interleaves lookups and
refreshes.

## Main results

- **Rate limit.** In every interleaving a window lets at most `limit` calls pass, exactly
  min(n, limit) if every reply is heard, and at most twice the limit passes in any closed interval
  one window long; for every limiter some run attains that (`RateLimit.WindowBound`,
  `ExactWhenHeard`, `BurstBound`, `BurstAttained`). Two assumptions are made of Redis: an INCR that
  lands does so before the window's end plus one second, which is what the extra TTL second covers,
  and the limiter's counters are not lost. `LateIncrRestartsCount` says exactly when a later INCR
  starts the count over. Without both assumptions a window lets at most `limit` calls pass for each
  start of its count, and one lost counter is enough to exceed `limit` (`Restarts.RestartBound`,
  `LossExceedsLimit`). Through the engines, one application, caller, endpoint and window admits at
  most `limit` requests and those whose check failed open (`Admission.AdmissionBound`), and a billed
  request that no gate refuses is forwarded if and only if its check failed or is among the first
  `limit` (`AdmittedIff`).
- **Redis client.** Over every run of lost, late, truncated and refused exchanges a call that is
  answered gets the reply to its own command, anything but a readable reply drops the connection,
  and dials stay two seconds apart after a failure (`RedisClient.RespRedis.Do`, `Run`). Underneath,
  commands and replies round-trip and never merge (`Resp.CommandRoundTrip`, `CommandStreamUnique`,
  `ReplyRoundTrip`, `TruncatedReply`). A limiter check over this client hears a count only from its
  own INCR (`RemoteCheck.RateLimiter.Check`).
- **Complete mediation.** The policy engine forwards if and only if the published snapshot, the
  token, the owner gate and the limiter allow it (`Mediation.PolicyForwardsIff`), with exact
  conditions for 401, 403 and 429 (`MatchedVerdictIff`, `MatchedOverLimitIff`); the identity a backend
  is told is earned end to end in both engines (`ForwardedIdentityIsEarned`,
  `LegacyForwardedIdentityIsEarned`), by a token that a key of the realm verified
  (`EndToEnd.IdentityIsVerified`). What is granted is said in the published lists alone
  (`Mediation.SnapshotAllowsMeaning`).
- **Admin is universal authority.** The wildcard test holds if and only if every permission string
  is granted (`Authz.WildcardIsUniversal`, `Mediation.WildcardMeansUniversal`).
- **Noninterference.** Copies of gateway-owned headers that a client sends change neither the
  answer nor the forwarded headers; no assumption on the configured names is needed
  (`Noninterference.OwnedHeadersDecideNothing`).
- **Cutover.** With the admin roles bound to `*`, the policy engine takes nothing away from anybody
  the legacy engine served, limiter on or off (`Cutover.CutoverTakesNothingAway`).
- **Introspection is enforcement** (`Mediation.IntrospectionIsEnforcement`).
- **Caches.** Registry answers are independent of Go's map order if and only if the active hosts
  are unambiguous (`Registry.OrderIndependentIff`); JWKS keys are always those of one whole document
  (`Jwks.KeysAreOneDocument`); the endpoint loop is the three-tier rule
  (`Snapshot.SnapshotCache.MatchEndpoint`).
- **Identity arithmetic.** User ids are always positive int64 and one changed byte of the subject
  changes them, up to one exact exception (`UserId.NumericUserIDIsPositive`,
  `OneByteChangesUserId`); RSA keys round-trip and are accepted exactly within bounds
  (`Rsa.KeyRoundTrip`, `AcceptedKey`).

## Where the code and its documentation differ

The model follows the code.

- `authz.go:12-16` promises the union of every policy bound to a role. The index maps a role to one
  policy, so of two live bindings only the last counts. `Authz.ReadingsAgreeIff` says when the two
  readings agree; `Authz.TwoLiveBindingsKeepOne` is an instance where they do not. Of two policies
  of one name, too, only the last is kept (`Authz.NameKeepsLastPolicy`).
- `policy.go:278-279` and the repository's `README.md:132-133` say that the legacy engine logs the
  policy engine's verdict. It differs in two ways: the log applies the permission implied by the
  admin access level, which the policy engine does not, and it leaves out the owner gate, which the
  policy engine has. `Cutover.ShadowAgreesIff` and `ShadowErrsIff` say exactly when the two differ
  and in which direction; `CutoverExample.AdminIsRefusedAfterAnAllowingLog` and
  `Cutover.ShadowDeniesWhatPolicyForwards` are the instances.
- The repository's `README.md:15` says that unregistered paths are forwarded without any header
  stamping. A request id is stamped on those that bring none (`plugin.go:243-257`), owned headers
  are stripped, and the application id is stamped (`plugin.go:319`, `policy.go:102-104`).
  `Mediation.UntouchedIff` says exactly which requests go through untouched.
- The repository's `README.md:89-90` has EXPIRE seed the TTL. That holds if and only if an EXPIRE of
  the window reaches Redis (`RateLimit.ExpiryIff`); a lost one is never sent again
  (`RateLimit.RepairableIff`, `LostAndUnheardLookAlike`).
- `jwks.go:16-17` guards re-fetches by a cooldown. A lookup keeps it from the last attempt it saw,
  and breaks it exactly when another refresh, on demand or in the background, is stamped between its
  read and its own stamp, less than a cooldown before the latter (`Jwks.CooldownIff`,
  `OverlappingLookupsBreakCooldown`, `BackgroundBreaksCooldown`).
- Counter names are isolated for separator-free ids only; `Keys.AppsShareIff` and
  `Keys.EndpointsShareIff` say exactly which ids can collide, for callers that the gateway can name
  (`Admission.CountedCallersAreNameable`, `NameableCallersOccur`).
- `redis_resp.go:266-270` panics on some bulk lengths, for instance -2; `Resp.CrashIff` says on
  which. The outcome is called `Crash`. No server that speaks the protocol provokes it
  (`Resp.ServerNeverCrashesReader`).
- `plugin.go:413` and `jwt.go:16-18` speak of tokens without `app_id` that pass. `jwt.go:106-109`
  rejects them all (`Tokens.AcceptedClaims`).

## Model

| member | source | states |
|---|---|---|
| Decimal.ParsePrint | jwt.go:224-243 | reading back a printed int64 gives that int64 for every int64, so formatting an id or a count and parsing it again are inverse |
| Decimal.PrintAlphabet | ratelimit.go:54 | a printed integer holds digits and at most a minus sign, so no separator can come from one |
| Decimal.PrintInjective | ratelimit.go:54 | different integers print differently |
| Decimal.PrintForm | ratelimit.go:54 | a number is printed in digits, with a minus if and only if it is negative and no leading zero |
| Decimal.ParseDigits | jwt.go:232-243 | digits, perhaps after one sign, are a number if and only if the value fits an int64 |
| Decimal.ParseOnlyDigits | jwt.go:232-243 | nothing else is |
| UserId.DeriveUserID | jwt.go:254-269 | the byte loop computes the FNV-1a 64 fold of the subject, cleared of its top bit, with 0 replaced by 1 |
| UserId.PositiveIntMeaning | jwt.go:232-243 | the id check accepts exactly the texts of 1 to 19 digits whose value lies in [1, 2^63-1] |
| UserId.NumericUserIDIsPositive | jwt.go:219-229 | for every claim and subject the stamped id is digits with a value in [1, 2^63-1], passes the id check itself, and deriving again changes nothing |
| UserId.MaskCommutes | jwt.go:259-264 | clearing the top bit after a hash step equals a 63-bit step on the cleared state |
| UserId.PrimeIsInvertible | jwt.go:255-263 | multiplication by the FNV prime loses nothing modulo 2^63 |
| UserId.Absorb63Injective | jwt.go:260-263 | a 63-bit step is injective in the state for one byte and in the byte for one state |
| UserId.OneByteChangesHash | jwt.go:254-264 | subjects of one length that differ in one place have different masked hashes |
| UserId.OneByteChangesUserId | jwt.go:254-269 | two such subjects share a user id if and only if their masked hashes are 0 and 1 |
| UserIdVector.SharedVector | jwt.go:249-253 | the nil UUID has the id 8950988243607919089, the vector that other derivations of the id must meet |
| Resp.WriteRespArgs | redis_resp.go:213-227 | the builder loop writes exactly the array-of-bulk-strings encoding of the arguments |
| Resp.CommandRoundTrip | redis_resp_test.go:88-122 | whatever bytes the arguments hold, CR and LF included, and whatever follows, the server-side decoder returns exactly the arguments and leaves the rest |
| Resp.CommandStreamUnique | redis_resp.go:213-227 | a byte stream encodes at most one list of commands |
| Resp.ReadRespReply | redis_resp.go:229-277 | every branch of the reader: the outcome, and how many bytes it consumes, are those of the parsing function on the bytes ahead, for every input |
| Resp.ReadReplyLine | redis_resp.go:236-243 | a line is taken up to the first LF; missing, malformed and well-formed lines are told apart |
| Resp.ReadBulk | redis_resp.go:259-273 | nil, short, wrongly ended and whole payloads, and the lengths that crash |
| Resp.Reader.ReadByte | redis_resp.go:230-233 | one byte, or an error at the end |
| Resp.Reader.ReadLine | redis_resp.go:236-239 | up to and including the next LF; without one everything is consumed |
| Resp.Reader.ReadFull | redis_resp.go:266-269 | exactly n bytes or an error |
| Resp.ReplyRoundTrip | redis_resp.go:229-277 | reading a stream that starts with an encoded status, error, int64, bulk or nil bulk gives that reply and stops exactly at its end |
| Resp.ReplyIsLocal | redis_resp.go:229-277 | a verdict other than running out of bytes depends only on the bytes consumed |
| Resp.TruncatedReply | redis_resp.go:229-277 | every proper prefix of a reply is an I/O error, never a shorter reply |
| Resp.StreamRoundTrip | redis_resp.go:229-277 | a stream of replies parses back reply by reply, in order, leaving what follows |
| Resp.BadlyEndedBulk | redis_resp.go:266-273 | a payload that CRLF does not follow is a protocol error, whatever comes instead |
| Resp.NotAReply | redis_resp.go:229-277 | so is a line that should hold a number and does not, and any other first byte |
| Resp.PingOnTheWire | redis_resp.go:213-227 | the bytes of one command |
| Resp.RepliesOnTheWire | redis_resp.go:229-277 | the bytes of the five kinds of reply and what each means |
| RedisClient.Connection.Deliver | redis_resp.go:193-207 | the server takes one command and answers it; what has arrived is a prefix of its output |
| RedisClient.RespRedis.RoundTrip | redis_resp.go:186-211 | on an aligned connection the outcome is this command's own reply, or an I/O error if not all of it arrived; a readable reply leaves the connection aligned |
| RedisClient.RespRedis.DropConn | redis_resp.go:118-123 | the connection is nil afterwards |
| RedisClient.RespRedis.DialAndHandshake | redis_resp.go:82-115 | AUTH, SELECT and PING are sent as configured; the first failure decides, an error reply included |
| RedisClient.HandshakeMeaning | redis_resp.go:82-115 | AUTH goes out exactly with a password, SELECT exactly for a database other than 0, and PING last |
| RedisClient.HandshakeDoneIff | redis_resp.go:82-115 | a handshake succeeds if and only if somebody listens and every command it sends is answered in whole and without an error |
| RedisClient.OwnReplyMeaning | redis_resp.go:186-211 | what a call hears of an exchange: its own reply if that arrived whole, and an I/O error otherwise |
| RedisClient.RespRedis.Connect | redis_resp.go:70-80 | before the retry time nothing is dialed; a failed dial leaves nil and sets the retry time to its end plus two seconds |
| RedisClient.RespRedis.Do | redis_resp.go:166-183 | the invariant of the client; which of backing off, failed dial or reply it is; the connection survives exactly a readable reply, which is then the reply to this command |
| RedisClient.RespRedis.Incr | redis_resp.go:279-289 | a count is an integer reply to this very INCR and nothing else is |
| RedisClient.RespRedis.Expire | redis_resp.go:291-300 | success is an integer reply to this very EXPIRE |
| RedisClient.DialRedis | redis_resp.go:53-67 | a new client dials once; an unreachable server is not an error but starts the backoff |
| RedisClient.Run | redis_resp.go:17-37 | over every run of calls, whatever was late, lost or refused: each answered call got its own reply, and no dial starts within two seconds after an earlier one failed |
| Resp.CrashIff | redis_resp.go:251-273 | the reader panics if and only if a whole bulk header parses to a number below -1, or too large for a slice of the runtime with the line end added |
| Resp.MinusTwoCrashes | redis_resp.go:259-270 | the header $-2 is such an input |
| Resp.NextOf | redis_resp.go:229-277 | one read of a part of a server's output is neither a panic nor a protocol error and leaves a part of its further output |
| Resp.NextReply | redis_resp.go:229-277 | the same for some server output |
| Resp.ServerNeverCrashesReader | redis_resp.go:229-277 | so is any number of reads, however much of the output has arrived |
| Keys.AnonymousRateLimitKey | helpers.go:50-62 | the key names the caller by device, else session, else address, else as unknown |
| Keys.CallerPrecedence | helpers.go:50-62 | a device counts before a session and a session before an address |
| Keys.CounterNames | policy.go:156-182 | the limiter key in full for each kind of caller |
| Keys.StoredNames | ratelimit.go:54 | the name of a counter and of a cached plan, written out |
| Keys.RateLimitKeyInjective | policy.go:156-182 | without a bar in application ids the limiter key determines the application, the kind of identity and the identity |
| Keys.RedisKeyInjective | ratelimit.go:54 | without a colon in endpoint ids the counter name determines the limiter key, the endpoint and the window |
| Keys.CountersAreIsolated | plugin.go:465-496 | with bar-free application ids and colon-free endpoint ids two requests share a counter if and only if they agree on application, kind of identity, identity, endpoint and window |
| Keys.OneAppIsIsolated | policy.go:156-182 | callers of one application never share a counter, whatever bytes ids hold |
| Keys.AppsShareIff | policy.go:156-182 | callers that the gateway can name, of two applications, can share a counter if and only if one application id continues the other with a bar and a device, a session or an address without leading blank |
| Keys.EndpointsShareIff | ratelimit.go:54 | callers that the gateway can name, of one application, can share a counter at two endpoints if and only if the window is one and one endpoint id ends in a colon and the other; otherwise no two applications' callers can either |
| Keys.BarInAppIdBreaksIsolation | policy.go:182 | a device of one application under the counter of a device of another |
| Keys.PlanCacheKeyInjective | identity.go:64 | with decimal user ids the plan-cache key determines application and user, whatever bytes application ids hold |
| RateLimit.Server.Incr | redis_resp.go:279-289 | INCR is atomic: an expired or missing counter restarts at 1 without expiry, a live one keeps its expiry |
| RateLimit.Server.Expire | redis_resp.go:291-300 | EXPIRE moves the expiry of a live counter and touches nothing else |
| RemoteCheck.RateLimiter.Incr | ratelimit.go:56-60 | over the real client: the count heard is the one the server drew for this INCR, and none is heard unless this very reply arrived whole |
| RemoteCheck.RateLimiter.Expire | ratelimit.go:67-70 | success is exactly an EXPIRE that the server applied and whose own reply arrived |
| RemoteCheck.RateLimiter.Check | ratelimit.go:42-87 | a check over the real client is the three machine steps of one call, with the fates its exchanges make, every error exit, and a result that follows from count and window alone |
| RateLimit.CheckMeaning | ratelimit.go:42-87 | one check alone errs exactly if the reply to its INCR is not heard, or its INCR started the count and the reply to the EXPIRE is not; otherwise it judges by the count it drew, and a started count gets its expiry |
| RateLimit.UnixMeaning | ratelimit.go:51-54 | the second of a window counts from 1970 |
| RateLimit.TtlMeaning | ratelimit.go:49-66 | a counter outlives its window by a second, and lives a second at least |
| RateLimit.CounterKeyInjective | ratelimit.go:51-54 | the windows of one limiter have different counters |
| RateLimit.StepKeepsInv | ratelimit.go:49-83 | every step of any call, by any gateway, keeps: landings are numbered consecutively in each window, a window's counter holds their number until window end plus one second, and verdicts match landings |
| RateLimit.RunKeepsInv | ratelimit.go:49-83 | so does every interleaving |
| RateLimit.ChargedCount | ratelimit.go:79-80 | of n landings in a window exactly min(n, limit) draw a count within the limit |
| RateLimit.WindowBound | ratelimit.go:41-87 | in every interleaving at most `limit` calls of a window are answered that they may pass; together with the calls that ended in an error or have not ended they are the first min(n, limit) landings |
| RateLimit.ExactWhenHeard | ratelimit.go:41-87 | if every landed call heard its replies, exactly min(n, limit) of n are answered that they may pass |
| RateLimit.CountIsPosition | ratelimit.go:56-60 | the count an INCR draws is its position among those of its window |
| RateLimit.KthAnswer | ratelimit.go:73-83 | the k-th request of a window is told that it may pass if and only if k is within the limit, with limit - k remaining or 0, the limit, and the end of the window |
| RateLimit.VerdictsOfOneWindow | ratelimit.go:73-83 | verdicts of one window name one reset time, ahead of each clock by at most a window; a denial reports 0 remaining and no two allowed calls are told the same number remaining |
| RateLimit.TwoWindows | ratelimit.go:51-52 | a stretch one window long meets at most two windows |
| RateLimit.BurstBound | README.md:88-92 | any closed interval one window long sees at most 2 * limit calls pass, in every interleaving |
| RateLimit.BurstAttained | README.md:88-92 | the bound is tight: for every limiter and every start some run lets exactly 2 * limit pass in one window's length |
| RateLimit.ExpiryIff | ratelimit.go:62-71 | in every interleaving and at any time a counter has an expiry if and only if it had one at the start or some EXPIRE of its window reached Redis, heard or not |
| RateLimit.RepairableIff | ratelimit.go:62-71 | a counter can still get an expiry if and only if it has one or a call that drew count 1 is about to send its EXPIRE |
| RateLimit.LostExpireIsNeverRepaired | ratelimit.go:62-71 | with neither, no continuation gives it one |
| RateLimit.LostAndUnheardLookAlike | ratelimit.go:67-70 | from every start a lost EXPIRE leaves a counter that never expires, and one that lands unheard ends the call in the same error with the expiry set |
| RateLimit.LateIncrRestartsCount | ratelimit.go:62-71 | after a first INCR and its EXPIRE the count starts over if and only if the next INCR comes window plus one second later |
| Restarts.PossibleKeepsInv | ratelimit.go:49-83 | without both assumptions every step keeps: a landing counts on from the last of its window or starts again from 1, and a counter that is there holds the last count |
| Restarts.ChargedPerStart | ratelimit.go:79-80 | the landings within the limit number at most the limit for each start of the count |
| Restarts.RestartBound | redis_resp.go:19-21 | however late INCRs land and whatever counters Redis loses, a window lets at most `limit` calls pass for each time its count started from 1 |
| Restarts.LossExceedsLimit | redis_resp.go:19-21 | for every limiter and start some run with one lost counter lets limit + 1 calls pass in one window |
| Authz.WildcardIsUniversal | authz.go:89-124 | the wildcard test holds if and only if every permission string is granted on the application |
| Authz.ActionMeaning | authz.go:62-74 | a statement names a permission if and only if it lists "*", the permission itself or, for any but "authenticated", the part of it up to some dot with a star |
| Authz.CoverMeaning | authz.go:77-86 | a statement reaches an application if and only if it lists "*", the application by its id, or "@home" where the application is the principal's own |
| Authz.GrantMeaning | authz.go:89-104 | a permission is granted if and only if none is asked for or some statement reaches the application and names it |
| Authz.HomeStaysHome | authz.go:83 | a principal is granted nothing on another application that no statement lists by "*" or by its id |
| Authz.PrefixNeverGrantsAuthenticated | authz.go:21-22 | "authenticated" is granted exactly by "*" or its own name, never by a resource prefix |
| Authz.NewPolicyIndex | authz.go:196-215 | the two loops build policies by name and the role map, dangling bindings skipped |
| Authz.RoleKeepsLastLive | authz.go:208-213 | a role maps to a policy if and only if its last non-dangling binding names it |
| Authz.NameKeepsLastPolicy | authz.go:201-207 | of published policies with one name exactly the last is kept |
| Authz.Principal.ResolveStatements | authz.go:167-188 | the loop leaves exactly the statements, bound roles and policies of the resolution function, and nothing without an index |
| Authz.ResolvedMembers | authz.go:167-188 | a statement, bound role or policy is the principal's exactly when one of its roles is bound to it, whatever the order and repetitions |
| Authz.BoundRolesInOrder | authz.go:175-187 | the bound roles are the principal's own in their order, without those that are not bound |
| Authz.EachPolicyOnce | authz.go:175-187 | a policy that several roles are bound to is taken once, and the statements are those of the policies taken, in order |
| Authz.EnforcementMeansSnapshot | authz.go:89-104 | a permission is granted if and only if some role's last live binding in the snapshot names a policy with a covering statement that matches |
| Authz.PublishedGrantsIff | authz.go:62-104 | the same in the published lists alone, with what a statement reaches and names written out |
| Authz.GrantsAreMonotoneInRoles | authz.go:12-16 | more roles never lose a grant; only the set of roles counts |
| Authz.EnforcementReadsLast | authz.go:208-213 | the last-binding reading is the one enforced |
| Authz.ReadingsAgreeIff | authz.go:12-16 | for distinct policy names, the union reading of the file comment and the last-binding reading agree on all policy contents if and only if every policy bound to the roles is some role's last live binding |
| Authz.UnionOverLists | authz.go:12-16 | with distinct policy names the union over names is the union over the published lists |
| Authz.TwoLiveBindingsKeepOne | authz.go:208-213 | a role bound to two policies is refused what the first grants and the union of both would grant |
| Permissions.SortStrings | registry.go:252-262 | a strictly sorted list of the same elements |
| Permissions.LessMeaning | registry.go:252-262 | the order is that of bytes at the first place where two strings differ, a proper prefix being smaller |
| Permissions.SortedListingUnique | authz.go:156-161 | a set of strings has exactly one strictly sorted listing |
| Permissions.PatternsOn | authz.go:144-152 | exactly the patterns of the statements that cover the application |
| Permissions.CollectPatterns | authz.go:144-152 | the nested loops collect exactly those patterns |
| Permissions.ListOf | authz.go:156-159 | map keys in any iteration order, once each |
| Permissions.PermissionsByApp | authz.go:135-164 | every application with a grant, and no other, is mapped to the strictly sorted list of its patterns |
| Permissions.ListingUnique | authz.go:135-164 | the listing does not depend on map iteration order |
| Permissions.IntrospectionAgrees | authz.go:89-104 | on an active application a non-empty permission is granted if and only if a listed pattern matches it |
| Permissions.ListedStarIsWildcard | authz.go:109-124 | the wildcard test holds if and only if "*" is listed |
| Snapshot.CompileSnapshot | snapshot.go:240-251 | the three nested loops list every endpoint with its application, in order |
| Snapshot.CompiledMembers | snapshot.go:240-251 | an endpoint is compiled if and only if a service of its application publishes it |
| Snapshot.CompiledInOrder | snapshot.go:240-251 | applications are compiled in the order in which they are published |
| Snapshot.ServicesInOrder | snapshot.go:240-251 | so are the services of one |
| Snapshot.SnapshotCache.Refresh | snapshot.go:208-264 | a failure changes nothing; success swaps endpoints, policies and version together |
| Snapshot.SnapshotCache.MatchEndpoint | snapshot.go:285-315 | the one-pass loop equals the three-tier rule on every endpoint list |
| Snapshot.ResolvedAppMeetsOwnOrShared | snapshot.go:274-284 | a resolved application meets an endpoint of the method whose pattern matches, its own whenever one does, else a shared one, never another application's, and none exactly when neither matches |
| Snapshot.UnresolvedMeetsAny | snapshot.go:280-284 | an unresolved request meets an endpoint if and only if any application has one that matches, and a shared one before others |
| Snapshot.FirstOfTierWins | snapshot.go:285-315 | of the endpoints of one tier the one published first wins |
| Snapshot.FirstWinsUnresolved | snapshot.go:285-315 | the same for an unresolved request |
| Snapshot.LastGoodMeaning | snapshot.go:208-264 | the last good snapshot is a good fetch with nothing but failures after it |
| Snapshot.RunPolls | snapshot.go:325-328 | after any run of polls the cache is the last good snapshot, whole, or as if nothing were published, and loaded exactly if one ever arrived |
| Snapshot.MatchedEndpointIsPublished | snapshot.go:240-315 | what a resolved application meets has the method, matches the path, and is published in that snapshot under it or a shared application |
| Tokens.Collect | jwt.go:160-172 | the non-empty strings of a JSON array, in order |
| Tokens.KeycloakRoleSets | jwt.go:159-185 | client roles of the authorized party and realm roles, apart |
| Tokens.KeycloakRoles | jwt.go:190-217 | both lists, client roles first, each role once |
| Tokens.DistinctMembers | jwt.go:187-204 | keeping first occurrences loses no non-empty role and repeats none |
| Tokens.DistinctGrows | jwt.go:187-204 | a name keeps the place where it first occurs |
| Tokens.RoleMeaning | jwt.go:159-185 | a client role is a non-empty string listed under the authorized party, a realm role one listed for the realm |
| Tokens.QualifyRoles | authz.go:219-237 | client roles prefixed by the authorized party and realm roles bare, each once |
| Tokens.HasAdminRole | jwt.go:130-137 | admin if and only if a role is among the configured admin roles |
| Tokens.RolesCorrespond | authz.go:217-237 | the role list holds exactly the client and realm roles, and the qualified list exactly the names these go by in bindings |
| Tokens.ParseKeycloakJWT | jwt.go:50-156 | every exit after the signature check, in order, and the claims it returns |
| Tokens.AcceptedClaims | jwt.go:39-49 | accepted claims carry a positive int64 id, a subject, an application and the issuer asked for, and a key of the realm verified the token |
| Tokens.AcceptedIff | jwt.go:50-109 | a bearer token is accepted if and only if a key of the realm verifies it, the realm issued it, and it names a subject and an application; only no credential is anonymous |
| Tokens.ClaimsMeaning | jwt.go:94-155 | each claim from the token's own: which claim gives the user id, an e-mail only if it is verified, both role lists, and the admin flag for an admin role held |
| Rsa.DecodeEncode | jwks.go:236-243 | unpadded base64url decoding inverts encoding on every byte string (section 5 of RFC 4648) |
| Rsa.AlphabetMeaning | jwks.go:236-243 | the alphabet is that of section 5 of RFC 4648 |
| Rsa.GroupMeaning | jwks.go:236-243 | four characters and three bytes are one 24-bit group, most significant first |
| Rsa.LineBreaksVanish | jwks.go:236-243 | line breaks inside a text do not count |
| Rsa.BigEndianToBytes | jwks.go:247-254 | the shortest big-endian form denotes its number |
| Rsa.BigEndianMeaning | jwks.go:247-254 | the first byte weighs most |
| Rsa.UsualExponent | jwks.go:247-254 | "AQAB" denotes 65537 |
| Rsa.ParseRSAJWK | jwks.go:232-259 | every check in order, and the exponent accumulated by the loop |
| Rsa.KeyRoundTrip | jwks.go:232-259 | every modulus of at least 1024 bits with an odd exponent in [3, 2^32) survives its encoding (section 6.3.1 of RFC 7518) |
| Rsa.AcceptedKey | jwks.go:232-259 | a key is accepted if and only if both texts decode, the exponent has 1 to 4 bytes, and the numbers denoted, which are the key, are in bounds |
| Jwks.CollectKeys | jwks.go:178-197 | the loop keeps exactly the usable signature keys |
| Jwks.UsableKeysMeaning | jwks.go:178-197 | a key is served for an id if and only if it is the last entry of that id in the document that is an RSA key, for signatures or anything, for RS256 or any algorithm, and well-formed |
| Jwks.InstalledMeaning | jwks.go:161-206 | a refresh installs the usable keys of the document, or of the one a document without keys names, which is followed once; nothing if a fetch that is needed fails or no key is usable |
| Jwks.JwksCache.StampAttempt | jwks.go:162-164 | the first locked step records the attempt and what its asker had seen |
| Jwks.JwksCache.FinishRefresh | jwks.go:166-206 | keys are swapped whole, or left alone on a failure, an unfollowed discovery document or no usable key |
| Jwks.JwksCache.Refresh | jwks.go:161-207 | both steps together |
| Jwks.JwksCache.KeyForKid | jwks.go:134-157 | with nothing in between: a key that is there is answered without a fetch; an unknown one is fetched if no attempt was made or the cooldown since the last is over, and is then what the document holds; otherwise nothing changes and there is none. It keeps the cooldown |
| Jwks.KeysAreInstalled | jwks.go:13-19 | in every interleaving of background and on-demand refreshes the keys are those of one fully parsed document, the last with any |
| Jwks.KeysAreOneDocument | jwks.go:13-19 | in every interleaving a key is served for an id if and only if it is the last usable one of that id in that document |
| Jwks.KeysNeverEmptied | jwks.go:13-15 | once keys are served, no later failure empties them |
| Jwks.StepKeepsInv | jwks.go:134-164 | every locked step keeps: attempts are in clock order and whoever asks for a fetch saw the cooldown over |
| Jwks.ClearIff | jwks.go:143-157 | in every reachable state a lookup that missed may go on to fetch exactly from a cooldown after the last attempt it saw |
| Jwks.OneFetchPerLookup | jwks.go:134-157 | a lookup fetches at most once |
| Jwks.CooldownIff | jwks.go:134-164 | in every run an on-demand attempt lies a cooldown after the last attempt its lookup saw, and comes too soon after its predecessor if and only if an attempt was stamped between that lookup's read and its stamp, less than a cooldown before |
| Jwks.CooldownKeptIff | jwks.go:16-17 | a run keeps the cooldown if and only if no lookup in it is overtaken so |
| Jwks.OverlappingLookupsBreakCooldown | jwks.go:135-164 | two overlapping lookups fetch at one instant, for every positive cooldown |
| Jwks.BackgroundBreaksCooldown | jwks.go:111-127 | one lookup and the background loop do so too |
| Registry.AppRegistryCache.Refresh | registry.go:174-243 | a failure keeps the last good tables; success installs the tables of some iteration order; what can be answered is active |
| Registry.CollectActive | registry.go:221-232 | active ids are the active applications and every application an active host names |
| Registry.AppRegistryCache.ResolveHost | registry.go:266-282 | exact entry first, then the first wildcard whose suffix matches; an answer is in the active set |
| Registry.AnswerComesFromActiveHost | registry.go:207-219 | exact entries beat wildcards, every answer comes from an active host, and there is none exactly when no active host covers the name |
| Registry.ActiveStatusMeaning | registry.go:207-232 | a status is active if and only if it reads "active" in letters of any case; "suspended" is not |
| Registry.ResolvedMeaning | registry.go:266-282 | in the published terms: an active host that is the name answers, else an active wildcard "*.x" such that the name ends in ".x", else nobody |
| Registry.UnambiguousIsOrderIndependent | registry.go:207-219 | with unambiguous active hosts all iteration orders answer alike |
| Registry.OrderIndependentIff | registry.go:207-219 | answers are independent of iteration order if and only if active hosts of one canonical form, and wildcards of which one covers the other, agree on the application |
| Registry.ActiveMembers | registry.go:221-232 | an active application is listed as active or named by an active host in every order, and with unambiguous hosts each of those is active |
| Registry.ActiveIsOrderIndependent | registry.go:226-261 | with unambiguous hosts the active set is the same in every iteration order |
| Registry.LastGoodMeaning | registry.go:174-243 | the last good snapshot is a good fetch with nothing but failures after it |
| Registry.RunPolls | registry.go:174-243 | after any run of polls the tables are those of the last good snapshot, and cold only if none ever arrived |
| Plans.PlanResolver.Resolve | identity.go:59-130 | a plan is the unexpired cached or the fresh answer about this user of this application, or the default, and only successes are cached |
| Gateway.StrippedMeaning | plugin.go:293-309 | the strip removes exactly the gateway-owned names |
| Headers.FirstPartMeaning | helpers.go:16-27 | the first part of a comma-separated list that is not blank counts |
| Headers.ClientIpMeaning | helpers.go:16-35 | the address is the first of the forwarded-for list, else the real-ip header, else the peer |
| Text.SpaceMeaning | helpers.go:16-35 | the blanks that trimming removes: tab, the four line ends and space |
| Gateway.GatewayPlugin.ServeHTTP | plugin.go:267-364 | the whole request path on a request mutated in place: preflight, strip, resolution, cold checks, dispatch |
| Gateway.GatewayPlugin.ResolveApp | plugin.go:311-339 | the host's application is stamped when known; in enforce mode 503 when cold, 403 when unknown |
| Gateway.GatewayPlugin.StripOwned | plugin.go:300-309 | the deletions leave the stripped map |
| Gateway.GatewayPlugin.ServeResolved | plugin.go:341-363 | snapshot cold check, introspection, then the engine selected |
| Gateway.GatewayPlugin.PrincipalFor | policy.go:77-87 | the principal is the resolution of the token's qualified roles |
| Gateway.GatewayPlugin.ServePolicy | policy.go:89-204 | stages 1 to 7 of the policy engine with every early return, on headers changed in place |
| Gateway.GatewayPlugin.PolicyAnonymous | policy.go:139-204 | the stages for a caller without a token |
| Gateway.GatewayPlugin.PolicyPrincipal | policy.go:139-204 | the stages for an accepted caller |
| Gateway.GatewayPlugin.StampPolicyHeaders | policy.go:158-172 | the stamps in order |
| Gateway.GatewayPlugin.StampAnonymous | policy.go:174-182 | session and device copies, and the anonymous counter |
| Gateway.GatewayPlugin.ApplyRateLimit | policy.go:206-234 | no limiter, no limit and limiter errors let the request pass; a verdict decides otherwise |
| Gateway.GatewayPlugin.ServeLegacy | plugin.go:366-550 | the legacy engine with every early return |
| Gateway.GatewayPlugin.LegacyPrincipal | plugin.go:464-550 | its stages for an accepted caller |
| Gateway.GatewayPlugin.StampLegacyHeaders | plugin.go:468-482 | its stamps in order |
| Gateway.GatewayPlugin.StampAuthzHeaders | plugin.go:198-211 | admin flag and roles from the token |
| Gateway.GatewayPlugin.ServeIamMe | policy.go:236-276 | 405, 401 or the caller's own listing over the active applications |
| Mediation.AuthenticateIff | policy.go:45-67 | claims are accepted if and only if the application's realm, or the operators' where the application's has another issuer, accepts the token presented; anonymous if and only if none is presented or authentication is off |
| Mediation.EngineReadsSnapshot | policy.go:79-87 | the engine's permission check is what the published snapshot grants to the token's roles |
| Mediation.SnapshotAllowsMeaning | authz.go:62-104 | what the snapshot allows a token, read off the published lists; nothing is allowed on an application that is not the token's own and that no statement lists by "*" or by its id |
| Mediation.WildcardMeansUniversal | policy.go:155 | the engine's wildcard is authority over every permission under the snapshot |
| Mediation.BearerForwardsIff | policy.go:139-203 | an accepted caller is forwarded if and only if the permission is granted and it has universal authority, or owns the resource and is within the limit |
| Mediation.MatchedForwardsIff | policy.go:119-203 | the same for any caller of a matched endpoint |
| Mediation.PolicyForwardsIff | policy.go:89-204 | complete mediation: the exact condition under which the policy engine forwards, in terms of the snapshot in force (the empty one before any load), token, owner and limit |
| Mediation.MatchedVerdictIff | README.md:107-130 | the exact conditions for 401 and 403 on a matched endpoint, and that nothing but these, 429 and forwarding is possible |
| Mediation.MatchedOverLimitIff | policy.go:198-201 | the exact condition for 429 |
| Mediation.BearerVerdict | policy.go:139-201 | the same for an accepted caller |
| Mediation.StampPolicyEffect | policy.go:158-172 | each identity header carries exactly its value or is absent |
| Mediation.StampPolicyFrame | policy.go:158-172 | every other header is left alone |
| Mediation.AuthenticatedHeaders | README.md:122-124 | the headers a backend sees for an accepted caller; the admin flag is "true" exactly for universal authority |
| Mediation.AnonymousHeaders | policy.go:173-184 | no identity header reaches the backend without a token; session and device keep their first value |
| Mediation.EnteredIsClean | plugin.go:293-339 | after the prelude no owned name is present but the application resolved by the gateway |
| Mediation.ServeEnters | plugin.go:267-364 | a request is forwarded only by an engine, on what the prelude left, and the prelude does not depend on the engine |
| Mediation.EnteredHeaders | plugin.go:300-320 | the prelude leaves the stripped headers, with the application stamped exactly if the host is known |
| Mediation.UnmatchedHeaders | plugin.go:299-336 | an unmatched request is forwarded with the headers the prelude left and its application id, and with the former alone if and only if its host is unknown and it is served for no application |
| Mediation.UntouchedIff | README.md:15 | an unmatched request reaches the backend with exactly the headers it came with if and only if it brought a request id and no owned header but an application id equal to the one stamped, and none where nothing is stamped |
| Mediation.EnforceForwardsOnlyActiveHosts | plugin.go:311-351 | in enforce mode a forwarded request belongs to an active application and a snapshot was loaded |
| Mediation.ForwardedIdentityIsEarned | README.md:14 | end to end in policy mode, whatever a client sent: if an endpoint matched and a realm of the target accepted the token, user id, plan, uid, e-mail, roles and admin flag are that caller's, the flag exactly for universal authority, and no session is left; otherwise no owned header but the application id is forwarded; the application is the authorized one |
| Mediation.LegacyForwardedIdentityIsEarned | README.md:14 | end to end in legacy mode: the same for tokens minted for the host's application, with the token's roles and the admin flag exactly for an admin role |
| Mediation.LegacyIdentity | plugin.go:366-550 | the same for the legacy engine alone |
| Mediation.LegacyAcceptedIdentity | plugin.go:464-482 | the same for an accepted caller |
| Mediation.StampingsCoincide | plugin.go:468-482 | the two engines stamp one map for one identity, in different orders |
| Mediation.StampLegacyEffect | plugin.go:468-482 | each identity header carries exactly its value or is absent |
| Mediation.PolicyIdentity | policy.go:89-204 | the same for the policy engine alone |
| Mediation.MatchedIdentity | policy.go:119-204 | the same for a matched endpoint |
| Mediation.AcceptedIdentity | policy.go:151-172 | the same for an accepted caller |
| Mediation.StampedIdentity | policy.go:158-172 | the stamps leave exactly the identity headers of their caller |
| Mediation.LegacyForwardsIff | plugin.go:366-550 | the exact condition under which the legacy engine forwards |
| Mediation.LegacyVerdictIff | plugin.go:366-550 | the exact conditions for 401, 403 and 429 from the legacy engine on a matched endpoint |
| Mediation.LegacyBearerVerdict | plugin.go:435-550 | the same for an accepted caller |
| Mediation.LegacyAuthenticateIff | plugin.go:390-421 | legacy accepts exactly the tokens of the host application's realm minted for it |
| Mediation.LegacyAnonymousIff | plugin.go:393-401 | anonymous if and only if nothing is presented or authentication is off |
| Mediation.LegacyAuthenticatedIff | plugin.go:435-550 | an accepted caller passes the legacy gates exactly as an admin, or with no permission asked and its own resource, within the limit |
| Mediation.LegacyAdminStamp | plugin.go:473-476 | the legacy admin flag is stamped exactly for an admin role |
| Mediation.IntrospectsIff | policy.go:239-253 | introspection answers exactly GET requests with an accepted token, about that token |
| Mediation.IntrospectionIsEnforcement | README.md:127-128 | what introspection lists is what the engine enforces, admin flag included |
| EndToEnd.ResolutionHostMeaning | plugin.go:580-591 | the forwarded host counts, up to its first comma, exactly if it is trusted and given |
| EndToEnd.BeforeTheEngines | plugin.go:267-357 | in order: preflight, unknown host (503 before a registry is loaded, 403 from then on), 503 before a snapshot is, and introspection at its path in both modes |
| EndToEnd.IntrospectionAnswer | policy.go:236-276 | through the whole request path: 405, 401, or the token's claims, what its roles resolve to and the active applications, the host's where none is known |
| EndToEnd.RequestedApp | policy.go:92-101 | an application asked for by header is served if it is active and answered 403 unknown_app if not; without a registry it is not looked at |
| EndToEnd.NothingRequested | policy.go:92-101 | without that header a request is served for its host's application |
| EndToEnd.NotExposed | policy.go:106-117 | an endpoint of the host's application is answered 403 by way of an application that has no endpoint there |
| EndToEnd.RetiredKeyMeaning | plugin.go:560-570 | a retired key is found in its own header, as the bearer value and as the bare value |
| EndToEnd.NoRetiredKey | plugin.go:560-570 | no request is taken for one whose two values do not hold "fc_" |
| EndToEnd.IdentityIsVerified | policy.go:45-67 | end to end: an identity reaches a backend through the policy engine only by a token that a key of the target's realm or of the operators' verified and that this realm issued |
| EndToEnd.IdentityIsVerifiedAtHome | plugin.go:390-421 | in legacy mode only by a key of the host application's realm, in a token minted for that application |
| EndToEnd.NothingClaimedArrives | plugin.go:293-309 | where no user id is forwarded, no plan, uid, roles, admin flag, e-mail or key uid is either, whatever the client sent, in either mode |
| EndToEnd.CredentialIsSent | policy.go:119-130 | the credential judged is the one sent, unless its header is one that the gateway sets |
| EndToEnd.OwnerMeaning | plugin.go:601-620 | the owner is the trimmed capture or query parameter named, and "" without one |
| EndToEnd.OtherOwner | plugin.go:601-620 | any other descriptor names nobody |
| EndToEnd.OwnerMatchesMeaning | plugin.go:622-626 | an owner that is not empty is the caller if and only if it is its user id or its subject |
| EndToEnd.HasMeaning | identity.go:22-29 | a permission is held if and only if it or "*" is listed |
| EndToEnd.RequestIdArrives | plugin.go:243-257 | every forwarded request has an id: its own if that is not blank, else the fresh one |
| EndToEnd.OtherHeadersArrive | plugin.go:260-309 | every header that is neither owned nor the session's, the device's or the request id arrives as it was sent, from either engine |
| Noninterference.OwnedHeadersDecideNothing | plugin.go:288-309 | two requests that differ only in owned headers get the same answer and the same forwarded headers; in policy mode they must ask for the same application |
| Noninterference.SpoofingIsIdle | plugin.go:293-299 | sending owned headers other than the application id equals sending none |
| Noninterference.LegacyIgnoresRequested | plugin.go:366-371 | the legacy engine does not read the requested application |
| Noninterference.StripForgetsOwned | plugin.go:300-309 | the strip maps such requests to one |
| Noninterference.SameWithoutOwned | plugin.go:267-309 | so does the prelude |
| Cutover.CutoverTakesNothingAway | README.md:135-136 | if the token's admin roles are bound to "*" on the host application, every request without a requested application that legacy forwards is forwarded by the policy engine, with the same headers besides roles and admin flag, and the flag wherever legacy stamped it, limiter on or off |
| Cutover.EngineCutover | policy.go:89-204 | the same between the two engines |
| Cutover.AuthenticatedCutover | plugin.go:435-550 | the same for an accepted caller |
| Cutover.AdminIsWildcard | jwt.go:127-137 | a legacy admin is a wildcard principal under such bindings |
| Cutover.SameCaller | plugin.go:393-421 | whom legacy accepts, the policy engine accepts with the same claims |
| Cutover.StampsAgree | plugin.go:468-482 | the two stampings agree on every header besides roles and admin flag |
| Cutover.AdminFlagOf | policy.go:169-171 | the policy engine's admin flag is present exactly for a wildcard |
| Cutover.LoggedCallersPresent | plugin.go:393-427 | whoever is logged about is accepted by the policy engine too |
| Cutover.ShadowAgreesIff | policy.go:278-298 | for a caller with an accepted token the log is the policy engine's verdict if and only if the endpoint's own permission is not granted, or the owner gate refuses exactly when the implied permission is missing |
| Cutover.ShadowErrsIff | policy.go:278-298 | the log allows what the engine refuses exactly where only the owner gate refuses, and denies what it does not refuse exactly where only the implied permission is missing |
| Cutover.ShadowDeniesWhatPolicyForwards | policy.go:285-292 | there it says deny about a caller with an accepted token, whom the policy engine forwards exactly while within the limit |
| CutoverExample.AdminIsRefusedAfterAnAllowingLog | policy.go:186-196 | a legacy admin without a bound role asks for another user's file: forwarded by the legacy engine, logged as allowed, refused by the policy engine, through the whole request path |
| CutoverExample.DefaultsAreUsual | config.go:184-224 | the default header names meet that example's conditions |
| Admission.CountedCallersAreNameable | helpers.go:16-35 | whatever headers arrive, an unauthenticated request is counted as a nameable caller and an accepted one as a user of a positive int64 |
| Admission.NameableCallersOccur | helpers.go:16-62 | conversely every nameable caller occurs in some request or token |
| Admission.WhoIsBilled | policy.go:151-203 | an accepted caller is billed as itself under its plan, except for universal authority in the policy engine, and one without a credential by device, session or address under the default plan |
| Admission.PolicyBilledPasses | policy.go:151-201 | the policy engine forwards a caller it bills only past the limiter, under that caller's key and plan |
| Admission.LegacyBilledPasses | plugin.go:464-549 | so does the legacy engine |
| Admission.BilledPassesLimiter | plugin.go:267-364 | so does the whole request path |
| Admission.StageMeaning | plugin.go:593-599 | the limit is the one published for the plan, else the default; no limiter, no limit and an error let a request pass, a verdict that allows it does, any other stops it with 0 remaining |
| Admission.PolicyBilledAnswer | policy.go:206-234 | a billed request that the policy engine does not refuse is answered as that stage says |
| Admission.LegacyBilledAnswer | plugin.go:464-550 | so is one that the legacy engine does not refuse |
| Admission.BilledAnswer | plugin.go:267-364 | so is one through the whole request path, with the rate-limit headers of the verdict |
| Admission.AdmittedIff | policy.go:206-234 | a billed request that no gate refuses is forwarded if and only if its check failed or drew a count within the published limit, and is answered 429 otherwise |
| Admission.AdmittedOnlyByVerdict | policy.go:216-233 | a forwarded billed request had a failed check or one within the limit |
| Admission.AdmissionBound | policy.go:206-234 | over every interleaving, the requests that one application, caller, endpoint and window admits, through either engine, number at most the limit and the checks that failed open |

## Left out

- HTTP servers and clients, JSON, tickers, goroutine start-up and process-wide cache maps: a fetch
  is a document or a failure, a poll is one call.
- Version polling (`checkVersion`): it only decides when a refresh is made.
- RSA signatures, token time claims and the JWT library: a token is a record with the set of key
  sources that verify it. The issuer read before validation is taken to be the validated one.
- The choice of key by `kid` inside token validation: `Jwks` and `Tokens` meet only through that
  record.
- Regular expressions and their fallback compilation: matching and named captures are parameters,
  so `path:` owners are whatever the capture returns.
- `normalizeHost`: a parameter of the registry, any function of strings.
- CORS origin matching, `Retry-After` and other response headers than the three of the limit: a
  preflight is one outcome.
- Request-id randomness: the fresh id is a parameter.
- Logging, redaction, configuration parsing and the realm table built from it.
- TCP and TLS dialing, Redis URLs and deadlines: a dial succeeds or fails at a time, and a deadline
  is the moment when the last bytes have not arrived.
- `get`, `setEX` and `Close` of the Redis client: easy members over `Do`.
- Splitting the port off the peer address: the peer host is a field of the request.
- Integer widths of counts, limits and window durations: these are unbounded here. Running out of
  memory for a bulk payload below the runtime's largest slice.
- Canonicalization of header names: configured names are taken in canonical form.
- Clock skew between gateways and Redis: all read one clock. The one-second slack is the room that
  skew and delay share.
- `sort.Strings`: an insertion sort with its contract.
- Locks inside the registry, snapshot and plan caches: their swaps are one step.
- The engines in `Gateway` consult the limiter and the plan resolver as functions of their
  arguments. For the limiter `Admission` ties each answer to one call of a run; plans that change
  between requests are the subject of `Plans`.
- Blanks beyond ASCII: `TrimSpace` removes the six ASCII blanks.
- Jwks.JwksCache.KeyForKid: one lookup with nothing in between; what other refreshes do in between is
  the subject of `Jwks.CooldownIff`.
- RateLimit.WindowBound: for windows of at least one second and a positive limit; for other windows
  the code's truncation does nothing, and for other limits `Check` never reaches Redis.
- Mediation.UntouchedIff: for fresh request ids that are not blank, as generated ones are.
- Mediation.ForwardedIdentityIsEarned: for configured header names that are pairwise distinct
  (`NamesDistinct`), because two equal names make one stamp overwrite another; noninterference needs
  no such condition.
- EndToEnd.IdentityIsVerified: for the same reason.
- EndToEnd.RequestedApp: for an application header that is not the request id's.
- Cutover.CutoverTakesNothingAway: for pairwise distinct header names too, and for requests that
  name no application.
- Admission.CountedCallersAreNameable: the peer address is taken to have no blank at either end.
- Admission.NameableCallersOccur: for device and session headers that differ from each other and from
  the address headers.
- RemoteCheck.RateLimiter.Check: the server applies a command if and only if it receives it whole and
  does not answer with an error; a command cut off while being written counts as not received.

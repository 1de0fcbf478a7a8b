# Token service: a Dafny model

The service hands out pairs of tokens. An access token is a signed JWT with a short life. A refresh
token is `selector.verifier`, of which the service keeps a row per selector with the digest of the
verifier. This project models the service's state (the `users` and `sessions` tables and one shared
Redis keyspace with deadlines) and proves what holds over whole runs of it:

- `Database.dfy`, `Storage.dfy`: the two tables, their constraints, each statement, and the two
  transactions, which work on a staged copy that is committed or dropped.
- `Tokens.dfy`, `Encoding.dfy`, `Decimal.dfy`: how both kinds of token are made and checked, the
  denylist, and the text encodings they rest on.
- `Auth.dfy`: the requests: issue, refresh, logout, public guid.
- `Requests.dfy`, `Lineage.dfy`, `Guarantees.dfy`, `Outcomes.dfy`, `Timeline.dfy`: runs of requests that
  do not overlap: what they keep, what each request answers in every case, and how long tokens last.
- `Interleaving.dfy`, `Steps.dfy`, `Races.dfy`, `Ancestry.dfy`, `Overlap.dfy`, `Revocation.dfy`: any
  number of requests in flight, one storage call or transaction per step, with a log of what took effect.
- `RateLimiter.dfy`, `FixedWindow.dfy`, `RateBounds.dfy`, `RateWitnesses.dfy`, `RateSettings.dfy`: the
  per-address counter, the decisions it amounts to, its rate bound, exactly when each promise about it
  holds, and the settings that switch it off.
- `ApiKeys.dfy`, `ApiKeyHistory.dfy`, `SyncRace.dfy`: API-key rotation, its grace period, and two
  instances that bring in different keys at once.
- `Redis.dfy`, `Keyspace.dfy`: the store, and why the three components that share it do not disturb
  each other.
- `Witnesses.dfy`: a configuration and a codec that meet every assumption below.

Objects whose methods change state are classes (`Connection`, the repositories, `PostgresStorage`,
`TokenService`, `TokenStorage`, `AuthService`, `WebhookService`, `APIKeyService`, `Limiter`,
`RedisClient`). Each of their methods is proved to do what a specification function says, and the
results about runs are lemmas about those functions. So that the functions are not taken on trust, each
answer they give is also stated apart from them: `Outcomes.dfy` reads every answer of an issue, a refresh
and a logout off the pairs handed out, and the lemmas named `...Exactly` in `Tokens.dfy` and
`ApiKeyHistory.dfy` say for every text, store and time when each check gives which answer.

## Assumptions

- There is one clock, in milliseconds. Runs in which order in time matters have non-decreasing times.
- SHA-256, JWT signing and reading, and RFC 3339 text are unknown functions carried in `Tokens.Config`
  and `ApiKeys.Codec`; `Sound` states what is taken of them. A digest has 32 bytes, so it has
  collisions among all texts. Where a result needs digests to differ it asks that there be no
  collision among the finitely many texts it is about (`Encoding.CollisionFree`): the keys of a
  history and the keys presented, or a presented verifier and those handed out.
  `Witnesses.SomeConfig` and `Witnesses.SomeCodec` show the assumptions can be met together, for any
  256 texts.
- Random selectors and token ids do not repeat what was handed out (`Fresh`) or drawn (`FreshDraw`)
  before.
- A Redis entry is visible up to and including its deadline. A SET with a time to live of zero or
  less, as the Go client issues it, stores no deadline.
- Each SQL statement outside a transaction, and each transaction, takes effect as one step and obeys
  the schema. Ids are 64-bit; an exhausted id sequence is an error of the insert.

## Where the code does less than its documentation says

- A refresh token works once only if the refreshes that present it do not overlap. The mark step looks
  at neither the status nor the rows it hit. `Overlap.OneTokenTwoRefreshes` shows two that both
  commit. `Overlap.CommitsExactly` says exactly when a refresh commits, `Overlap.SecondCommitsExactly`
  that a second one does exactly when its lookup came before the first commit, and
  `Overlap.SingleUseHoldsExactly` that a token once exchanged is used up for good exactly when no other
  refresh of it is between its lookup and its commit at that moment.
- A logout deletes the rows that are there. It closes every session of its user, in every continuation
  until a new issue, exactly when no refresh of that user is between its lookup and its commit at the
  moment of the deletion (`Revocation.LogoutHoldsExactly`; a run in which one is, and the user is left
  with an active row, in `Revocation.LoggedOutYetActive`). The deletions after a replay and after a
  changed client are the same.
- A logout writes the denylist before it deletes the rows. When the deletion fails the rows stay and
  the token is denied, so it cannot be used to log out again before its expiry
  (`Guarantees.FailedLogoutRetry`).
- A token logged out before its expiry is accepted again in the five seconds after it, because the
  denylist entry ends at the expiry and validation allows five seconds more
  (`Keyspace.AcceptedAgainAfterExpiry`; exact in `Keyspace.TokenTimeline`). The denylist key is the
  whole token text, not its id.
- The limiter is a fixed window, not the sliding one the service's README.md names (line 180). One
  interval can see `2 * limit - 1` admitted requests (`RateWitnesses.BoundIsReached`), and it is a
  sliding window exactly when the limit is one (`RateWitnesses.SlidingWindowExactly`).
- The block key of address `x` is the counter of the address spelled `x:block`, and the limiter takes
  addresses as requests give them. A request of `x` over its limit starts a window of the block time for
  `x:block` (`RateBounds.BlockKeyIsCounter`). So whatever the others do, the decisions on an address, its
  counter, what its windows admit, and the decisions beside logouts and key changes are those of its own
  arrivals exactly when the address does not end in `:block` (`RateWitnesses.FollowsExactly`,
  `RateWitnesses.CounterFollowsExactly`, `RateWitnesses.WindowTotalExactly`, `Keyspace.AdmissionExactly`).
  Lemmas about one run ask for `NoClash` instead, that no request comes from the address without that
  ending. The rate bound survives every clash exactly when the block time is no shorter than the interval
  or the limit is one (`RateWitnesses.BoundHoldsExactly`); otherwise `3 * limit - 2` requests can be
  admitted in one interval (`RateWitnesses.ClashPassesBound`).
- Block times of a second or more decide alike on an address in every run exactly when the address does
  not end in `:block` (`RateWitnesses.BlockTimeExactly`): the block key is never consulted for a
  decision, but it can be another address's counter. Under a second, the script fails where it should
  reject, and a failing script lets the request through: an address is ever turned away on its own
  account exactly when the block time is a second or more (`RateWitnesses.RejectsExactly`). An interval
  under a second admits every request (`RateSettings.ShortIntervalAdmitsAll`).
- The replaced API key works for 24 hours counted from the whole second of the rotation, which is up
  to one second less than promised (`ApiKeyHistory.GraceWindow`). The three writes of a rotation are
  pipelined but not one transaction, so a check running beside them can be refused, in exactly one
  arrangement (`ApiKeyHistory.CheckBesideRotation`), which a first key replaced more than a day later
  reaches (`ApiKeyHistory.RefusedBesideRotation`).
- Reading the current key and replacing it are not one step either. Of two instances that bring in
  different keys at once, both keys are accepted afterwards exactly when one instance read after the
  other had written its key; otherwise one of the new keys is refused, with no grace period
  (`SyncRace.BothKeysKeptExactly`).
- The expiry time of a refresh token is stored and never compared with the clock; nothing here says
  that refresh tokens expire.

## Model

| member | source | states |
|---|---|---|
| Races.RunKeepsInv | internal/service/auth.go:103-202 | after every interleaving the schema holds (unique guid, unique selector, existing owner), made sessions differ in selector and token id, every made session is stored exactly while its user has not been wiped since, and its row is active exactly while no rotation of it has committed |
| Races.LateLookupNeverSucceeds | internal/service/auth.go:114-183 | once a rotation of a selector commits, every later lookup of it misses and the request that made it never commits a rotation |
| Races.BothLookedUpBeforeFirstCommit | internal/storage/postgres/storage.go:70-108 | two committed rotations of one selector both had their successful lookup before the first commit |
| Races.FoundedRotationCommits | internal/storage/postgres/session.go:94-101 | a refresh that found its session active and passed the checks always commits, whatever became of the row since |
| Races.IssueCommits | internal/service/auth.go:62-76 | in every interleaving, while ids are left, an issue that has drawn its session commits, for the user its guid has or else for a new one |
| Races.PairsAreBound | internal/service/auth.go:127-138 | in every interleaving, an active session's token with its own token id leads to a rotation from its own client and to a revocation from another, and with the token id of any other session ever made is refused with nothing changed |
| Races.LookupOutcome | internal/storage/postgres/session.go:41-65 | a lookup finds an active row if and only if the selector was made, its user was not wiped since and no rotation of it committed |
| Overlap.OneTokenTwoRefreshes | internal/storage/postgres/session.go:94-101 | single use is false under overlap: for every client and distinct draws, an interleaving in which two refreshes of one token both commit |
| Overlap.BothCommit | internal/storage/postgres/storage.go:86-93 | any two requests that both found one selector active both commit, the second one's mark hitting no active row |
| Races.UsedStaysUsed | internal/storage/postgres/session.go:94-119 | no step makes a used row active again or puts another session under its id |
| Races.NoResurrection | internal/service/auth.go:85-98 | a session made before its user's rows were deleted is never stored again in any continuation, and no request that looks it up later commits a rotation |
| Races.GoneExactlyWhenWiped | internal/storage/postgres/session.go:112-119 | nothing but a deletion of its own user's sessions ever removes a row |
| Races.RowsAreConserved | internal/storage/postgres/storage.go:29-108 | under every interleaving, active rows = issues since the last revocation + rotations since whose mark hit no active row; all rows = issues + rotations since |
| Overlap.CommitsExactly | internal/service/auth.go:119-181 | while ids are left, whatever the others do between its lookup and its commit, a refresh commits if and only if at its lookup the selector was made, its user not wiped since, no rotation of it committed, and the session passes the checks |
| Overlap.SecondCommitsExactly | internal/service/auth.go:119-181 | while ids are left, of two refreshes of one token that pass the checks the second commits if and only if its lookup came before the first one's commit |
| Overlap.SingleUseHoldsExactly | internal/service/auth.go:114-183 | once a rotation of a selector has committed and while ids are left, no other commits in any continuation if and only if no other refresh of it is then between its lookup and its commit |
| Revocation.LogoutHoldsExactly | internal/service/auth.go:187-202 | while ids are left, a deletion of a user's sessions leaves the user without a row in every continuation with no new issue for that user, if and only if no refresh of the user is between its lookup and its commit at the moment of the deletion |
| Revocation.LoggedOutYetActive | internal/service/auth.go:187-202 | for every client and distinct draws, an interleaving that ends with a logout of the user the issued access token authenticates for, then the commit of a refresh, and an active row of that user |
| Revocation.ReplayIsDetected | internal/service/auth.go:85-126 | a request replaying a spent token, the others taking any steps between its own, ends by deleting exactly its owner's rows if the owner was not wiped between the making of the session and the second lookup, and otherwise changes nothing |
| Ancestry.DescendsFromIssue | internal/service/auth.go:132-178 | in every interleaving every session ever made descends, rotation by rotation, from an issue for the same user and User-Agent |
| Ancestry.MarkExactly | internal/storage/postgres/session.go:94-101 | in every interleaving a rotation's mark hits an active row if and only if no rotation of its session came before and its user was not wiped since the session was made |
| Ancestry.ForksAreMisses | internal/storage/postgres/storage.go:86-96 | a session has at most one child whose mark hit an active row, and exactly one as soon as it has any while its user is not wiped: its line forks only by rotations whose mark missed |
| Races.UsersAreForEver | internal/storage/postgres/user.go:21-55 | in every interleaving users are never renamed or dropped, and each guid goes on naming its user |
| Overlap.SoloRefresh | internal/service/auth.go:103-184 | left to itself, the stepwise refresh does to the tables exactly what the request-level refresh does, and commits a rotation exactly when that succeeds |
| Overlap.SoloIssue | internal/service/auth.go:45-82 | the same for an issue |
| Overlap.SoloLogout | internal/service/auth.go:187-202 | the same for a logout whose token authenticates |
| Overlap.SettleIsRun | internal/service/auth.go:103-184 | a request left to itself is one of the interleavings |
| Lineage.RunKeepsGood | internal/service/auth.go:45-202 | the invariant of every run of non-overlapping requests: grants, rows, users and revocations agree |
| Outcomes.IssueOutcome | internal/service/auth.go:45-82 | after every run a fresh issue with ids left succeeds, for the user its guid has or else for a new one, with a signed pair and its row field by field; too few random bytes, or no ids left, are errors with nothing changed |
| Outcomes.RefreshOutcome | internal/service/auth.go:103-184 | after every run, the answer to every refresh, read off the pairs handed out: each error, the new pair and its row, the notification, and the tables |
| Outcomes.AddressIsNotified | internal/service/auth.go:142-156 | a refresh presenting a live, unexchanged session with its token id from its User-Agent notifies an address change exactly once, whether or not what comes after succeeds, and if it fails changes no row |
| Outcomes.LogoutOutcome | internal/service/auth.go:187-202 | the answer to every logout on any tables and store: with a token that authenticates one denial is written and the rows go unless the deletion fails; with any other text nothing is written |
| Outcomes.UnverifiedChangesNothing | internal/service/auth.go:187-202 | a text without a good signature authenticates for no one, and logging out with it is an error that leaves tables and store as they were |
| Timeline.LogoutIsCommand | internal/service/auth.go:187-202 | a logout writes to Redis exactly what the logout command of the shared keyspace writes |
| Timeline.RequestTimeline | internal/service/token.go:123-182 | in every run of requests a token handed out authenticates, for its user, if and only if it is under five seconds past its expiry and no logout with it holds |
| Guarantees.ChainsAreWhole | internal/service/auth.go:132-178 | a chain of rotations starts with an issue, is linear, keeps its user and User-Agent, is stored whole or gone whole, and while stored has every row but the newest used |
| Guarantees.ChainsDoNotFork | internal/storage/postgres/storage.go:86-96 | two chains from one issue are prefixes of each other |
| Guarantees.SingleUse | internal/service/auth.go:115-126 | in a run of non-overlapping requests no token is exchanged twice |
| Guarantees.ReplayIsDetected | internal/service/auth.go:85-98 | replaying an exchanged token deletes exactly its owner's rows unless the owner was revoked since; replaying it again reports not-found and changes nothing |
| Guarantees.PairsAreBound | internal/service/auth.go:127-138 | an active refresh token works with its own access token from its own client, if ids are left and the new selector is unused; it deletes exactly its owner's rows from another client, and with any other access token of the run is refused with nothing changed |
| Guarantees.OnlyHandedTokensWork | internal/service/auth.go:109-154 | unless the presented verifier collides with one handed out, a refresh succeeds only on the exact text of a token handed out, not exchanged and not revoked, from its client, with an access token carrying its id |
| Guarantees.LogoutRevokes | internal/service/auth.go:187-202 | logging out deletes exactly the owner's rows, or none if the deletion fails, and either way denies the token, up to the exact window in which it authenticates again |
| Guarantees.FailedLogoutRetry | internal/service/auth.go:187-202 | after a logout whose deletion failed the rows are still there, and the token logs out again if and only if the first attempt came before its expiry and the second falls in the five seconds after |
| Guarantees.RowsAreConserved | internal/storage/postgres/storage.go:29-108 | active rows = issues since the user's last revocation; all rows = issues + rotations since |
| Guarantees.NoticesFollowAddresses | internal/service/auth.go:142-178 | the notifications of a chain's successful refreshes are exactly its address changes, in order, with old and new address |
| Guarantees.IdentityRoundTrip | internal/service/auth.go:204-211 | an access token handed out in a chain, whenever it authenticates, resolves to the guid the chain was issued for |
| Guarantees.UsersAreForEver | internal/storage/postgres/user.go:21-55 | guids and ids stay one to one and are never reassigned or dropped |
| Database.IssueFacts | internal/storage/postgres/storage.go:43-61 | a committed issue finds or creates the user of the guid, adds one active row for it and touches nothing else |
| Database.RotateFacts | internal/storage/postgres/storage.go:86-99 | a committed rotation marks the old row if it is there, adds one active row for the same user and touches no user |
| Database.RotationCommits | internal/storage/postgres/storage.go:86-108 | for a known user a rotation commits if and only if its new selector is not stored and ids are left |
| Database.IssueForKnown | internal/storage/postgres/storage.go:43-61 | an issue for a guid that a user has commits if and only if its selector is not stored and a session id is left, for that user and with the users untouched; otherwise the error says which |
| Database.IssueForNew | internal/storage/postgres/storage.go:43-61 | an issue for a guid that no user has commits if and only if also a user id is left, for a new user with the next id |
| Storage.UserRepository.CreateUser | internal/storage/postgres/user.go:21-29 | inserts a guid under the next id, or fails on a duplicate guid with nothing changed |
| Storage.UserRepository.GetUserByGUID | internal/storage/postgres/user.go:31-42 | the one user with this guid, or none |
| Storage.SessionRepository.CreateSession | internal/storage/postgres/session.go:20-39 | inserts an active row, or fails on a duplicate selector or missing user with nothing changed |
| Storage.SessionRepository.GetActiveSessionBySelector | internal/storage/postgres/session.go:41-65 | the one row with this selector if it is active |
| Storage.SessionRepository.FindSessionBySelector | internal/storage/postgres/session.go:67-91 | the one row with this selector whatever its status |
| Storage.SessionRepository.MarkSessionAsUsed | internal/storage/postgres/session.go:94-101 | sets the status of the selector's row, if any, and nothing else |
| Storage.SessionRepository.DeleteAllUserSessions | internal/storage/postgres/session.go:112-119 | removes exactly the user's rows |
| Storage.PostgresStorage.IssueTokensTx | internal/storage/postgres/storage.go:29-66 | all of the issue transaction or none of it: the one of Database.IssueForKnown and Database.IssueForNew |
| Storage.PostgresStorage.RotateTokensTx | internal/storage/postgres/storage.go:70-108 | all of the rotation transaction or none of it |
| Auth.AuthService.IssueTokens | internal/service/auth.go:45-82 | tables and result are those of the specified issue, whose every answer is Outcomes.IssueOutcome |
| Auth.AuthService.DetectTheftAndRevoke | internal/service/auth.go:85-98 | unknown selector: nothing changes; known: its owner's rows go |
| Auth.AuthService.Exchange | internal/service/auth.go:127-183 | the checks in their order, the notification, and the rotation, after the active session is read; the answers are those of Outcomes.RefreshOutcome |
| Auth.AuthService.RefreshTokens | internal/service/auth.go:103-184 | tables, result and emitted notification are those of the specified refresh, whose every answer is Outcomes.RefreshOutcome |
| Auth.AuthService.Logout | internal/service/auth.go:187-202 | the denylist entry and the deletion of the owner's rows; an error before the entry changes nothing, a failing deletion leaves the entry; every answer is in Outcomes.LogoutOutcome |
| Auth.AuthService.GetPublicGUID | internal/service/auth.go:204-211 | the guid of the user id, or an error |
| Keyspace.TokenTimeline | internal/service/token.go:123-182 | after any mixed run, a minted token is accepted if and only if it is under five seconds past its expiry second and no logout holds; accepted, it stands for its user |
| Keyspace.AcceptedAgainAfterExpiry | internal/storage/redis/token.go:20-36 | every token logged out once before its expiry is accepted again in the five seconds after it |
| Tokens.AuthenticatesExactly | internal/service/token.go:123-168 | a text authenticates for a user if and only if it is not denied, its signature is good, and it carries that user's id and an expiry less than five seconds ago |
| Tokens.RefusedBecause | internal/service/token.go:123-168 | exactly when any other text is answered as revoked, expired, without a readable user id, or invalid |
| Tokens.DenialExactly | internal/service/token.go:170-182 | denying a text fails if and only if its claims are unreadable or name no expiry, and otherwise writes one entry for the time it has left, or without a deadline |
| Tokens.CheckedExactly | internal/service/token.go:101-121 | the check of a refresh token: a format error if and only if there is not exactly one dot, then an unreadable stored hash, then acceptance if and only if the digests agree |
| Tokens.MintedClaimsSay | internal/service/token.go:64-82 | a minted token names its user twice, its id, the whole second it was minted in and the one its lifetime ends in |
| Tokens.DeniedTokenRejected | internal/service/token.go:170-182 | a token denied while accepted is accepted again exactly in the leeway, and only if denied before its expiry |
| Tokens.MintedTokenAccepted | internal/service/token.go:64-168 | expiry is the minting time plus the lifetime truncated to the second; off the denylist the token is accepted exactly until five seconds after it |
| Decimal.IntRoundTrip | internal/service/token.go:66-165 | a user id written into a token is read back exactly when it fits 64 bits |
| Decimal.ParseDomain | internal/service/token.go:160-165 | a text is read as an id if and only if it is digits after at most one sign and they denote that 64-bit number |
| Tokens.RefreshTokenRoundTrip | internal/service/token.go:84-121 | a made token splits into its 22-character selector and verifier and passes against its own hash |
| Tokens.OnlyTheDigestPasses | internal/service/token.go:101-121 | the texts accepted against a token's hash are exactly those with one dot and after it a text of the same digest as its verifier |
| Tokens.OnlyTheVerifierPasses | internal/service/token.go:101-121 | of the verifiers that do not collide with the token's own, exactly its own is accepted |
| Tokens.TokensAreDistinct | internal/service/token.go:90-96 | selectors are equal exactly when the first 16 bytes are, tokens exactly when all 32 are |
| Encoding.Base64RoundTrip | internal/service/token.go:90-91 | unpadded base64url decodes back, has length ceil(4n/3) and contains neither dot nor colon |
| Encoding.GroupsAreNumbers | internal/service/token.go:90-91 | each three bytes and the four characters' values written for them denote one 24-bit number |
| Encoding.HexRoundTrip | internal/service/token.go:94-109 | lower-case hex of a digest decodes back |
| Encoding.UnHexDomain | internal/service/token.go:109-112 | hex decoding fails on exactly the odd lengths and foreign characters |
| Encoding.SplitInTwo | internal/service/auth.go:115-119 | a text has two parts exactly when it holds one separator, and they are its two sides |
| Tokens.TokenService.CreateRefreshToken | internal/service/token.go:84-99 | the refresh token of the first 32 random bytes, or an error when fewer are there |
| Tokens.TokenService.ValidateRefreshToken | internal/service/token.go:101-121 | the format, hash and comparison errors in their order |
| Tokens.TokenService.ValidateAccessTokenAndGetUserID | internal/service/token.go:123-168 | denylist, signature, expiry with leeway and user id, in their order; exactly when each is the answer is Tokens.AuthenticatesExactly and Tokens.RefusedBecause |
| Tokens.TokenService.InvalidateAccessToken | internal/service/token.go:170-182 | the whole token text is denied for its remaining life |
| Tokens.TokenStorage.InvalidateToken | internal/storage/redis/token.go:20-25 | stores the denial with the given time to live |
| Tokens.TokenStorage.IsTokenInvalidated | internal/storage/redis/token.go:28-36 | true exactly when the visible value is the denial |
| RateBounds.RateBound | internal/api/middleware.go:96-154 | one address gets at most limit * (ceil(L / I) + 1) - 1 requests admitted in any half-open span of length L milliseconds, I being the configured interval cut to whole seconds, whatever other addresses do if the block time is no shorter than the interval or the limit is one, and otherwise if no request comes from this address without its ":block" ending |
| RateSettings.ConfiguredWindow | internal/api/middleware.go:96-141 | in configured milliseconds: after a quiet interval an arrival opens a window; up to a second less than the interval later a request is admitted if and only if fewer than limit came since, and the first one after the interval is admitted |
| RateLimiter.WholeSecondsExactly | internal/api/middleware.go:138-139 | the seconds handed to the script are the configured duration with less than a second lost |
| RateWitnesses.BoundHoldsExactly | internal/api/middleware.go:105-154 | that bound holds of an address in every run if and only if the block time is no shorter than the interval, or the limit is one, or the address does not end in ":block" |
| RateWitnesses.BoundIsReached | internal/api/middleware.go:105-126 | for every configuration and address a run in which one interval sees 2 * limit - 1 admitted requests, the bound for that length |
| RateWitnesses.SlidingWindowExactly | internal/api/middleware.go:96-126 | every run admits at most limit requests in every span of one interval if and only if the limit is one |
| RateBounds.BlockKeyIsCounter | internal/api/middleware.go:105-112 | a request over the limit sets the counter of its address with ":block" added to 1 for the block time, unless that counter runs; no other request touches it |
| RateWitnesses.ClashPassesBound | internal/api/middleware.go:105-126 | with a shorter block time and a limit over one, a run in which an address ending in ":block" has 3 * limit - 2 requests admitted in one interval |
| FixedWindow.LimiterIsFixedWindow | internal/api/middleware.go:97-126 | every decision equals the one computed from arrival times alone, fewer than limit arrivals before it in its window of the configured interval cut to whole seconds, if no request comes from this address without its ":block" ending |
| RateWitnesses.FollowsExactly | internal/api/middleware.go:97-132 | every decision on an address in every run is that one if and only if the address does not end in ":block" |
| RateWitnesses.CounterFollowsExactly | internal/api/middleware.go:102-123 | after every run the counter of an address is the smaller of the limit and its open window's arrivals, with the deadline set by the window's first arrival, if and only if the address does not end in ":block" |
| RateWitnesses.WindowTotalExactly | internal/api/middleware.go:105-126 | in every run the last window of an address admits exactly the smaller of the limit and its requests, if and only if the address does not end in ":block" |
| RateWitnesses.BlockTimeExactly | internal/api/middleware.go:105-116 | any two block times of a second or more decide alike on an address in every run if and only if the address does not end in ":block" |
| RateWitnesses.ShortBlockAdmitsAll | internal/api/middleware.go:109-150 | with a block time under a second every request is admitted, unless its block key is the counter of another address in the run |
| RateWitnesses.RejectsExactly | internal/api/middleware.go:84-150 | some run of one address has a request turned away if and only if the block time is a second or more |
| RateSettings.ShortIntervalAdmitsAll | internal/api/middleware.go:119-123 | with an interval under a second every request of every run is admitted |
| RateSettings.NoLimitAdmitsNone | internal/api/middleware.go:105-116 | with a limit under one and a block time of a second or more every request of every run is turned away |
| RateSettings.StuckCounterAdmits | internal/api/middleware.go:117-144 | a counter that is no number, or the largest one, fails the script: the request is admitted and nothing is written |
| RateLimiter.HandleFrame | internal/api/middleware.go:97-132 | a request writes its own counter and block key only |
| RateLimiter.Limiter.RunScript | internal/api/middleware.go:96-127 | the script, command by command, including the commands that can fail |
| RateLimiter.Limiter.Admit | internal/api/middleware.go:129-154 | the decision around the script; a failing script lets the request through; in configured milliseconds, RateSettings.ConfiguredWindow |
| ApiKeyHistory.AcceptedKeysAreTheRing | internal/service/apikey.go:33-109 | after any syncs, the accepted keys are exactly the last configured key and the one it directly replaced, within a day of the second of the rotation |
| ApiKeyHistory.AtMostTwoKeys | internal/service/apikey.go:70-109 | of any three keys accepted at one moment two are equal |
| ApiKeyHistory.GraceWindow | internal/service/apikey.go:56-104 | a replaced key is accepted up to a day less a second, never beyond a day, and exactly up to a day after the second of the rotation |
| ApiKeyHistory.NeverLate | internal/service/apikey.go:43-128 | even with entries lost and keys re-initialised, no key is accepted more than a day after it was last current |
| ApiKeyHistory.CheckedExactly | internal/service/apikey.go:70-109 | on any store, when a check accepts, and when it is an error of a missing or an unreadable rotation time |
| ApiKeyHistory.LostRotationTime | internal/service/apikey.go:91-104 | once the rotation time is lost a check of the replaced key is an error, and the current key goes on being accepted |
| ApiKeyHistory.CheckBesideRotation | internal/service/apikey.go:56-106 | a check of the current key beside the three writes of a rotation is refused if and only if it sees the new key but a stale rotation time |
| ApiKeyHistory.RefusedBesideRotation | internal/service/apikey.go:56-106 | that arrangement is reached from an empty store by one sync and a rotation more than a day later |
| ApiKeyHistory.AtomicRotationNeverRefuses | internal/service/apikey.go:56-106 | with the three writes as one step no such check is refused |
| SyncRace.BothKeysKeptExactly | internal/service/apikey.go:33-67 | for every schedule of two syncs of different keys, both keys are accepted for the rest of a day less a second if and only if one sync read after the other's write of the current key; otherwise one new key is refused and the replaced one is accepted |
| SyncRace.AloneIsSync | internal/service/apikey.go:33-67 | the steps of one sync without interruption are the specified sync |
| ApiKeys.APIKeyService.SyncAPIKey | internal/service/apikey.go:33-67 | initialises, skips or rotates as the stored current key says |
| ApiKeys.APIKeyService.SetInitialAPIKey | internal/service/apikey.go:111-128 | writes the current key and the rotation time and leaves the old key alone |
| ApiKeys.APIKeyService.IsValidAPIKey | internal/service/apikey.go:70-109 | current key, then old key within its day, with the errors of a missing or unreadable rotation time |
| Keyspace.Separation | internal/storage/redis/token.go:20-36 | in any mixed run each component's keys end up as if only its own commands had run |
| Keyspace.KeyRingInSharedStore | internal/service/apikey.go:18-20 | beside logouts and counted requests the accepted API keys are still exactly the ring's |
| Keyspace.AdmissionExactly | internal/api/middleware.go:131-141 | after every mixed run of logouts, key changes and counted requests the next request of an address is decided by its arrivals alone, if and only if the address does not end in ":block" |
| Keyspace.DenylistInSharedStore | internal/service/token.go:170-192 | a token with a good signature reads as revoked only because of logouts |

## Left out

- HTTP routing, OpenAPI validation, cookies, error mapping, request authentication dispatch and logging: plumbing.
- Signatures, digests and random bytes themselves: unknown functions and a supply that does not repeat.
- Webhook delivery, and the early return for an empty URL: only that a notification was handed over.
- `DeleteSession` of the session repository: the service never calls it.
- Storage and Redis errors in `Auth.dfy` and in runs of non-overlapping requests, except the deletion in a logout: the class methods have no failing connections. In the interleaved model a request may stop before any of its storage calls, which covers them for the tables.
- A Redis error of the limiter's connection, which lets the request through: the rate bound is for runs without one.
- Redis in the interleaved model: a logout enters it with the user its token authenticated for, and any user is allowed, which is more than the code permits.
- Sequence values used up by transactions that roll back: a dropped transaction leaves the whole model state as it was; ids are only compared.
- Statements inside a transaction interleaving with other transactions: each transaction is one step.
- Commands of a Lua script and of a logout interleaving with other Redis commands: the script is atomic in Redis; a logout's two Redis commands are one step in `Keyspace.dfy`.
- Expiry of refresh tokens: the code never checks it.
- Two instances that initialise an empty store at once, and more than two that sync at once: the race is of two syncs on a store that holds a key.
- Access tokens other than the one presented at logout: rotation and revocation leave them alone, and nothing is claimed of them.
- Counter values not written by the script: `tonumber` is modelled on decimal text only.

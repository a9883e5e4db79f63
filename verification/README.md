# Sessions, rotation and throttling: a verified model

This project models the authentication core of a session API: server-side sessions in Redis with
rotating refresh tokens, the refresh protocol that spans Redis and PostgreSQL, the login throttle, and
the read-through profile cache. It proves what that core promises over whole runs and every
interleaving, and it proves the code-shaped classes to be those runs.

## How it is built

The model has four layers, each proved against the next.

1. **The server.** `RedisServer.Redis` holds one flat, string-keyed keyspace and a clock, and offers the
   commands the application issues. A key is gone once the clock has passed its deadline.
2. **The repositories.** `SessionRepository`, `LoginThrottle` and `CacheRepository` build string keys and
   issue commands, script by script, loops included. `Keyspace` proves that writing or removing a prefixed
   key is writing or removing one entry of one typed map, for arbitrary client-supplied ids, so each
   method's contract is an operation on the typed state (`SessionStore`, `ThrottleModel`).
3. **The services.** `AuthService`, `UserService` and `AuthMiddleware` follow the source await by await.
   At each await a refresh or a login lets any sequence of others' steps run on the same stores
   (`Environments`: protocol steps and clock ticks, failures and resets of any account, cache writes), and a
   profile read any steps of other readers; its contract says that the whole is a run of the protocol or of the
   cache's machine, and what it adds to the throttle's log and the cached profiles.
4. **The protocol.** `Protocol` is the state machine over sessions, requests in flight, versions of the
   users table and the full token history of every session. A disabled step changes nothing, so every
   sequence of steps is a run. `Invariants` proves what every reachable state satisfies; `Theorems`,
   `Deletion`, `Effects` and `IndexGap` draw the consequences. `AuthService.Valid` says that the service's own state is
   reachable and that every account is the replay of its log, so they hold of it at every moment, and so does
   what `ThrottleModel` proves of logs.

`ThrottleModel` and `ProfileCache` are state machines of their own, for the throttle and the cache. The throttle's
methods are proved to be single events of a log; `UserService.GetUserProfile`, with whatever happens at its awaits, to be
a run of the cache's machine, and a login's profile write (`AuthService.CacheProfile`) its fill step.

Assumptions, all visible in guards or types: generated session ids and validators are new (no request has
presented them, no one has generated them); a digest determines its validator; a clock sample of the
application is never ahead of the server's clock when its script runs, though it may lag by any amount; ids of
deleted users are not inserted again; a generated id and validator are non-empty and the id has no dot.

Where the code and its comments differ, the code is modelled:

- src/repositories/SessionRepository.ts:137 and docs/security.md:46 say that the index outlives every session
  in it. A late rotation can write a key that lasts longer: its TTL is rounded up to a whole second and starts when
  the script runs. `IndexGap.IndexOutlivesSessions` says exactly when the claim holds of a run: whenever a rotation
  succeeds, the owner's index must reach at least as far past the cap as the key will (`Theorems.Overshoot`: less than
  a second plus the time from the clock sample to the script). `IndexGap.RotationCovers` is the same for one rotation,
  before and after the cap; `IndexGap.SessionOutlivesIndex` is a run in which bulk revocation misses a session, and
  `Theorems.IndexCompleteAndPure` holds throughout: every live session whose cap is ahead is indexed.
- docs/security.md:60 speaks of a few hundred guesses a day at most. To a client that waits every lock out, with no
  successful login in between, the script gives 1349 on a day that starts with no count and no lock, and 1359 on the
  worst day, which starts inside a counter lifetime, and no more (`ThrottleModel.GuessesInADay`). In n windows (15 minutes
  and the millisecond that ends one) it is 14 n + 5 from an idle start (`ThrottleModel.GuessesWhenIdle`) and 14 n + 15 after any history (`ThrottleModel.GuessesInWindows`).
- src/services/LoginThrottle.ts:35-38 says that each failure buys a growing delay. A failure can shorten a standing
  lock: `ThrottleModel.LockMovesEarlier` says exactly when, and `ThrottleModel.LockEarlierInANewLifetime` is a log.
- src/services/LoginThrottle.ts:65 blocks while the reported TTL is positive, and Redis reports it rounded to the
  nearest second: the last 499 ms of every lock do not block.
- docs/security.md:28 gives the grace period as under 30 s; the script's comparison admits exactly 30 s.

## Model

| member | source | states |
|---|---|---|
| SessionRepositories.SessionRepository.Get | src/repositories/SessionRepository.ts:125-129 | reads exactly the session's unexpired record, whatever string the client names |
| SessionRepositories.SessionRepository.StoreSession | src/repositories/SessionRepository.ts:142 | a SET of the session key is one entry of the typed session map; a TTL that is not positive writes nothing |
| SessionRepositories.SessionRepository.IndexSession | src/repositories/SessionRepository.ts:143-144 | the id joins its user's unexpired index (or a new one), whose life restarts at 30 days |
| SessionRepositories.SessionRepository.Create | src/repositories/SessionRepository.ts:131-146 | the flat-keyspace transaction is the typed session creation, including a refused TTL: one session and one index entry appear, every other session and entry stays, and no other namespace is touched |
| SessionRepositories.SessionRepository.Rotate | src/repositories/SessionRepository.ts:51-83 | the rotate script on the flat keyspace has the state and outcome of the typed rotation |
| SessionRepositories.SessionRepository.Delete | src/repositories/SessionRepository.ts:168-175 | the delete transaction is the typed deletion |
| SessionRepositories.SessionRepository.DeleteEach | src/repositories/SessionRepository.ts:89-91 | the script's loop removes exactly the named sessions, live or not, and no other key |
| SessionRepositories.SessionRepository.DeleteAllForUser | src/repositories/SessionRepository.ts:87-94 | the loop over the index removes exactly its members and the index, and returns the index size |
| SessionRepositories.DeleteRefines | src/repositories/SessionRepository.ts:63-64 | DEL followed by SREM is the typed deletion, with an emptied index removed |
| SessionStore.LosersAreConcurrent | src/repositories/SessionRepository.ts:58-62 | after a rotation, all further presentations of the old hash are concurrent and change nothing if and only if each was sampled within 30 s of it |
| SessionStore.ExactlyOneWins | src/repositories/SessionRepository.ts:58-82 | N racing rotations of the current hash, in any order: one rotated, N-1 concurrent, the session live with the winner's hash, if and only if the samples are within the grace period |
| SessionStore.CreateEffects | src/repositories/SessionRepository.ts:131-146 | a creation adds one session and one index entry and keeps all others, of the same user too; the record is stored exactly while its cap is ahead, for a week or until the cap rounded up, and the index for 30 days |
| Invariants.InvStep | src/services/AuthService.ts:115-179 | every step of the protocol keeps all the invariants, and histories only grow |
| Invariants.ReachableInv | src/services/AuthService.ts:115-179 | every reachable state satisfies the invariants: records summarise chains, chains have distinct digests and nondecreasing versions, requests hold what they read, indexes are complete and pure |
| Invariants.CreateIndexes | src/repositories/SessionRepository.ts:137-144 | a login extends the index past the cap of every session in it, so completeness survives |
| Invariants.LongerChainOk | src/repositories/SessionRepository.ts:75-80 | a successful rotation appends a link with a new digest, a version no older and a sample before the cap |
| Theorems.SingleUse | src/repositories/SessionRepository.ts:51-83 | over every run, no refresh token string is exchanged for a new pair twice |
| Theorems.NoTwoPairsForOneToken | src/services/AuthService.ts:115-165 | over every run, any two refresh requests answered with a new pair had been sent different strings |
| Theorems.ReachableLog | src/services/AuthService.ts:115-165 | every refresh in flight and every logged exchange presents the token split from the string its request was sent, and every new pair handed out is logged |
| Theorems.MintedTokensSplit | src/services/AuthService.ts:110 | every refresh token handed out by login or refresh splits into the session id and a validator whose digest its chain holds |
| Theorems.RolesFromTheirVersions | src/services/AuthService.ts:137-152 | every access token carries the role its subject had at the database version its request read |
| Theorems.RolesNeverGoBack | src/services/AuthService.ts:133-165 | per session, in issue order, the versions behind the access tokens never decrease |
| Theorems.StoredRoleIsNewest | src/repositories/SessionRepository.ts:76-81 | a live session stores the role of its newest link's version, and no token of it is newer |
| Theorems.RefreshMintsItsOwnRead | src/services/AuthService.ts:156-165 | a successful refresh returns a token with exactly the role its own request read, logged in exchange for the token it presented |
| Theorems.SummaryDecides | src/repositories/SessionRepository.ts:54-74 | a record that summarises a chain makes rotate decide by the presented digest's position in the chain |
| Theorems.RotateDecidesByHistory | src/repositories/SessionRepository.ts:51-83 | in every reachable state the two stored hashes decide as the unbounded token history would: last link, next-to-last within 30 s, anything else |
| Theorems.RotateEffects | src/repositories/SessionRepository.ts:52-82 | what each outcome leaves behind: nothing changed (a dead session is missing), one record replaced and live, or one session and its index entry gone |
| Theorems.DeadStep | src/repositories/SessionRepository.ts:52-53 | no single step revives a dead session or mints for it |
| Theorems.DeadStaysDead | src/services/AuthService.ts:127-154 | once a session is gone no continuation revives it, mints for it or authenticates for it |
| Theorems.ReplayKillsSession | src/repositories/SessionRepository.ts:58-65 | presenting any token but the current one, outside the grace case, ends the session for good |
| Theorems.DeleteEffects | src/repositories/SessionRepository.ts:168-175 | deletion removes one session and one index entry and nothing else |
| Theorems.LogoutIsFinal | src/services/AuthService.ts:181-187 | after a logout the session is dead in every continuation, also for refreshes already past their reads |
| Theorems.IndexCompleteAndPure | src/repositories/SessionRepository.ts:102-108 | every live session whose cap is ahead is in its owner's live index; an index names only its user's sessions |
| Theorems.BulkRevoke | src/repositories/SessionRepository.ts:177-184 | bulk revocation ends every live session of the user with its cap ahead, reports at least as many, and leaves all other users alone |
| Theorems.MintedTokensAuthenticate | src/middleware/auth.ts:24-31 | a genuine access token is admitted exactly while its session lives: the ownership check never rejects one |
| Theorems.LifetimeBounds | src/repositories/SessionRepository.ts:68-81 | owner, creation and cap are as created; the TTL is 1 s to 7 days; the key ends less than 1 s plus the sampling lag after the cap; no rotation was sampled at or past the cap |
| Theorems.LifetimeFixed | src/services/AuthService.ts:82-91 | over any run a session's owner, creation time and cap never change |
| Theorems.KeyOutlivesCap | src/repositories/SessionRepository.ts:75-81 | how far past the cap a rotation's key lasts, for any lag of the script behind its sample, and exactly when it outlasts the cap at all |
| Effects.SessionsEndForTheirOwnReasons | src/services/AuthService.ts:115-195 | over any run, a session keeps its record and lives exactly until its deadline unless it is itself logged out or rotated or its own user's sessions are bulk-revoked, whatever happens to all others |
| Effects.UntouchedStep | src/repositories/SessionRepository.ts:131-184 | no step replaces or removes the record of a session other than the one it names or the ones of the user it revokes |
| Effects.LogoutSparesOthers | src/services/AuthService.ts:186 | a logout ends the named session and its index entry, and leaves every other session and entry, of the same user too |
| Effects.RevokeSparesOthers | src/services/AuthService.ts:139-142 | the revocation after a missing user leaves every other user's sessions and index alone |
| Effects.LoginMints | src/services/AuthService.ts:80-111 | a login's session write answers with the role, tokens and public fields of the row it read and leaves that session live, indexed and logged, or answers with an error and leaves none; all other sessions stay |
| Effects.FirstRead | src/services/AuthService.ts:116-131 | a refresh is refused at its first read exactly when its token is empty, does not split, or names no live session; every other goes on, whatever its validator, and nothing is written |
| Effects.SecondRead | src/services/AuthService.ts:137-142 | the second read captures the current row of the session's user, or that there is none |
| Effects.RefreshReachesScript | src/services/AuthService.ts:116-152 | a refresh that names a live session reaches the rotate script with the token it was sent and the row its user has at the second read, whatever others do in between |
| Effects.SendingAReplayEndsTheSession | src/services/AuthService.ts:115-178 | from its first read on and with others' steps at its awaits, a refresh sent a token that is neither current nor in its grace period ends the session for good and answers 401 |
| Effects.RepliesByOutcome | src/services/AuthService.ts:156-178 | the reply to each outcome of the script: a new pair, a conflict, or a refusal |
| Effects.RepliesByHistory | src/services/AuthService.ts:156-178 | a new pair exactly for the current token of a live session before its cap, a conflict exactly for the one before it within 30 s of its rotation, a refusal for all else |
| Effects.OnlyTheOwnerAuthenticates | src/middleware/auth.ts:24-31 | an access token is admitted if and only if its session lives and was created for its subject |
| IndexGap.RotationCovers | src/repositories/SessionRepository.ts:75-81 | after a successful rotation the owner's index names the session and outlives its key if and only if it named it before and reaches as far past the cap as the key; with the cap ahead it does name it, and lasts to the cap |
| IndexGap.CoveredStep | src/repositories/SessionRepository.ts:131-146 | from a state whose indexes outlive all sessions, every step leads to another one, except exactly a rotation that overshoots |
| IndexGap.IndexOutlivesSessions | src/repositories/SessionRepository.ts:137-138 | the index of every user outlives every live session throughout a run if and only if no rotation of the run overshoots |
| IndexGap.CoveredIsRevoked | src/repositories/SessionRepository.ts:87-94 | bulk revocation ends a live session if and only if the user's index still names it, as it does while it outlives the key |
| IndexGap.SessionOutlivesIndex | src/repositories/SessionRepository.ts:137-138 | a reachable state in which a session is live, its index has expired, and bulk revocation misses it |
| Deletion.RequestKept | src/services/AuthService.ts:127-145 | what a request has captured survives whatever others do between its awaits |
| Deletion.DeletedUserRotatesAtMostOnce | src/services/AuthService.ts:137-154 | after a user's row is gone each of the user's sessions is rotated at most once more, later ones never, and only by refreshes already past their user read |
| Deletion.MissingUserRevokesAll | src/services/AuthService.ts:137-142 | a refresh whose own read misses the user ends every live session of that user whose cap is ahead, whatever runs in between |
| Deletion.RevocationIsFinal | src/services/AuthService.ts:139-142 | after that, with no login of the user past its read, no session of the user with its cap ahead is ever live again |
| Keyspace.KeysDisjoint | src/repositories/SessionRepository.ts:96-108 | the key builders are injective and their ranges disjoint, for arbitrary strings |
| Keyspace.PutRefines | src/repositories/CacheRepository.ts:9-26 | writing a key of the flat keyspace writes one entry of the typed map its prefix selects and keeps every key typed and expiring |
| Keyspace.DelRefines | src/services/LoginThrottle.ts:86-99 | removing a key removes one entry of the typed map its prefix selects |
| Environments.AnyStepsCanRun | src/services/AuthService.ts:115-179 | every sequence of protocol steps is one that can go on during an await |
| Environments.EnvironmentEvents | src/services/LoginThrottle.ts:73-91 | what each environment step adds to an account's log: one failure, one reset, or nothing |
| Environments.TalliesMore | src/services/LoginThrottle.ts:73-91 | an event on one account of the stores is that event on its log, and every other account still is the replay of its own |
| Environments.EventsEndBy | src/services/LoginThrottle.ts:73-91 | the log of one account, read out of the common log, is in order and in the past |
| AuthServices.AuthService.Execute | src/services/AuthService.ts:53-60 | each step of another request, run on the real stores, is that step of the protocol and leaves throttle and cache alone |
| AuthServices.AuthService.ExecuteOne | src/services/AuthService.ts:53-60 | each step of the environment, run on the real stores, is that step of the protocol, that event on the account's keys, or that cache entry for an hour |
| AuthServices.AuthService.CountersCountWindows | src/services/LoginThrottle.ts:16-20 | at every moment each account is the replay of its log, and its counter the number of failures since its window opened |
| AuthServices.AuthService.CountFailure | src/services/AuthService.ts:74 | the failure script makes the account in the stores what the model's failure makes of it, touches no other account, and adds one failure to the log; with whole, positive delays it always succeeds |
| AuthServices.AuthService.ClearFailures | src/services/AuthService.ts:78 | the reset leaves the account without counter and lock, touches no other account, and adds one reset to the log |
| AuthServices.AuthService.Interfere | src/services/AuthService.ts:127-145 | whatever others do during an await is a run of the protocol, extends the throttle's log and the cache as it says, and keeps this request's captured state |
| AuthServices.AuthService.ReadSession | src/services/AuthService.ts:120-131 | the token split and session read, with both rejections, are the first protocol step, and find the record exactly when the token splits and names a live session |
| AuthServices.AuthService.ReadUser | src/services/AuthService.ts:137 | the user read is the second protocol step and captures the current row, if there is one |
| AuthServices.AuthService.RevokeAll | src/services/AuthService.ts:139-142 | a missing user leads to bulk revocation and a 401 |
| AuthServices.AuthService.RotateToken | src/services/AuthService.ts:144-178 | the rotate call and the reply for each outcome are the last protocol step |
| AuthServices.AuthService.FinishRefresh | src/services/AuthService.ts:133-178 | past the session read, the refresh goes on to the rotate script exactly when the user is still there, and is answered by the token's place in the session's history; otherwise it revokes |
| AuthServices.AuthService.Refresh | src/services/AuthService.ts:115-179 | a refresh with arbitrary interference at its awaits is a run of the protocol: it goes past the session read exactly when its token splits and names a session live at the start, on to the script exactly when that session's user is still there, and is then answered by the token's place in the session's history; a new pair is logged in exchange for the token in its argument |
| AuthServices.AuthService.FindByCredentials | src/services/AuthService.ts:67-73 | finds a row with that username, in any case, whose hash matches the password; otherwise no row has the name or one that has it does not match |
| AuthServices.AuthService.RefusedOrAccepted | src/services/AuthService.ts:67-75 | when usernames are unique in any case, credentials are refused if and only if no row accepts them |
| AuthServices.AuthService.CreateSession | src/services/AuthService.ts:80-91 | the session write of a login and its reply are the protocol's login step; every other session and index entry stays |
| AuthServices.AuthService.OpenSession | src/services/AuthService.ts:78-112 | with interference at every await, a verified login resets the account, creates the session as the protocol does, and caches exactly the public profile of the row it read, for an hour, if the cache is up |
| AuthServices.AuthService.CacheProfile | src/services/AuthService.ts:95-102 | a login's best-effort profile write stores exactly this profile for an hour, and is the cache machine's fill step |
| AuthServices.AuthService.Login | src/services/AuthService.ts:62-113 | with interference at every await: turned away, with nothing changed, exactly while half a second or more of the account's lock is left; credentials that no row accepts at the lookup add one failure to the account, in the stores and in the log, and open nothing; accepted ones add one reset and end, as a run of the protocol, in the role, tokens and public fields of the row found, with every other session kept |
| AuthServices.AuthService.Logout | src/services/AuthService.ts:181-187 | refuses a missing session or user; otherwise the named session and its index entry are gone and every other session and entry is as it was |
| AuthServices.AuthService.LogoutAll | src/services/AuthService.ts:189-195 | refuses a missing user; otherwise ends exactly the sessions the user's index names, empties that index and no other, and returns its size |
| AuthMiddlewares.TokenFoundIsCarried | src/middleware/auth.ts:18-22 | a token accepted from the header is the second word after `Bearer` |
| AuthMiddlewares.CarriedTokenIsFound | src/middleware/auth.ts:18-22 | every such token is found |
| AuthMiddlewares.AuthMiddleware.Authenticate | src/middleware/auth.ts:11-36 | admits a token if and only if the header carries it, it verifies, and its session is live and belongs to its subject |
| AuthMiddlewares.RevocationObserved | src/middleware/auth.ts:24-31 | after logout, bulk revocation or expiry no later state admits a token naming the session |
| ThrottleModel.DelayLaws | src/services/LoginThrottle.ts:23 | the first delay is the base delay or the cap, delays double up to the cap, never shrink, and lie between 1 and the cap |
| ThrottleModel.CounterCountsWindow | src/services/LoginThrottle.ts:16-20 | over any log of failures and resets the counter is the number of failures since its window opened, and its deadline is that window's end |
| ThrottleModel.LockEndsAfterLastFailure | src/services/LoginThrottle.ts:21-25 | no login is blocked later than the longest delay after the last recorded failure |
| ThrottleModel.LockMovesEarlier | src/services/LoginThrottle.ts:21-25 | after any log, a failure moves the lock earlier if and only if it is the first past the free attempts in its counter lifetime and the lock it finds, left from an earlier lifetime, outlasts the shortest delay |
| ThrottleModel.LockNeverEarlier | src/services/LoginThrottle.ts:21-25 | once a counter lifetime has locked the account, none of its later failures moves the lock deadline earlier, however many race |
| ThrottleModel.CheckedLockNeverEarlier | src/services/LoginThrottle.ts:62-84 | a failure whose own lock check saw the lock as it still is never moves it earlier |
| ThrottleModel.LockEarlierInANewLifetime | src/services/LoginThrottle.ts:16-25 | a log of 22 failures with the default policy whose last one shortens the lock from 15 minutes to a second |
| ThrottleModel.GuessesPerLifetime | src/services/LoginThrottle.ts:62-84 | sequential failures of one counter lifetime waited out locks, up to the unseen end of each, that sum to no more than the window |
| ThrottleModel.GuessesExact | src/services/LoginThrottle.ts:62-84 | f sequential failures fit into one lifetime if and only if there is a window and the waits before the last sum to no more than it |
| ThrottleModel.AtMostFifteen | src/services/LoginThrottle.ts:47-60 | with the defaults at most 15 sequential failures per counter lifetime |
| ThrottleModel.LongRun | src/services/LoginThrottle.ts:47-60 | with the defaults and no count at the start, sequential failures within n windows number at most 15 n and at most 14 n + 5, less one for each overrun already paid |
| ThrottleModel.GuessesEveryPeriod | src/services/LoginThrottle.ts:62-84 | a client that fails again the moment each lock lets it gets f failures in every period that holds the window and all the waits |
| ThrottleModel.GuessesWhenIdle | src/services/LoginThrottle.ts:47-60 | with the defaults and no count and no lock at the start, c sequential failures are possible within n windows (n at least 6) if and only if c is at most 14 n + 5 |
| ThrottleModel.Leftover | src/services/LoginThrottle.ts:47-60 | a lifetime already under way takes at most 14 more sequential failures, and k of them hold up the next lifetime by at least k - 4 waits |
| ThrottleModel.AfterAnyHistory | src/services/LoginThrottle.ts:47-60 | with the defaults, after any log of failures and resets, at most 14 n + 15 sequential failures within n windows |
| ThrottleModel.GuessesInWindows | src/services/LoginThrottle.ts:47-60 | with the defaults and over all logs before the start, c sequential failures are possible within n windows (n at least 4) if and only if c is at most 14 n + 15 |
| ThrottleModel.GuessesInADay | src/services/LoginThrottle.ts:47-60 | with the defaults, c sequential failures are possible within a day if and only if c is at most 1359 over all logs before it, and at most 1349 when it starts with no count and no lock |
| LoginThrottles.CaseVariantsShareKeys | src/services/LoginThrottle.ts:29-31 | spellings of a name that differ in case share one counter and one lock |
| LoginThrottles.NamesShareKeys | src/services/LoginThrottle.ts:29-31 | two names, with any blanks around them, share one counter and one lock if and only if they agree letter by letter up to ASCII case |
| LoginThrottles.LoginThrottle.AssertNotThrottled | src/services/LoginThrottle.ts:62-71 | blocks exactly while at least half a second of the account's lock is left, and reports the time left to the nearest second |
| LoginThrottles.LoginThrottle.RecordFailure | src/services/LoginThrottle.ts:16-27 | the failure script is the model's failure on that account and on no other, including a refused lock |
| LoginThrottles.LoginThrottle.CountFailure | src/services/LoginThrottle.ts:17-20 | INCR with a first-time EXPIRE: the counter always has a deadline, later failures keep it |
| LoginThrottles.LoginThrottle.Lock | src/services/LoginThrottle.ts:24 | the lock's SET, refused for a delay that is not positive |
| LoginThrottles.LoginThrottle.Reset | src/services/LoginThrottle.ts:86-91 | clears both keys of that account and nothing else |
| ProfileCache.ServedAgeBounded | src/services/UserService.ts:105-130 | over every run a served profile shows the five public fields of the row at a past read, at most 3600 s plus the fill gap old |
| ProfileCache.FilledServesForAnHour | src/repositories/CacheRepository.ts:15-26 | a cache write that succeeds answers every reader of that user that reaches the cache for 3600 s, and none after |
| Domain.PublicFields | src/types/user.ts:20-28 | a public profile shows id, name, username, email and role of the row, and does not depend on the password hash |
| ProfileCache.StaleReadsEnd | src/services/UserService.ts:105-130 | while the table stays as it is, once no cached entry and no reader holds an older row of a user, only the current row is served for that user |
| UserServices.CacheRepository.GetUserProfile | src/repositories/CacheRepository.ts:9-13 | returns exactly the unexpired cached profile |
| UserServices.CacheRepository.SetUserProfile | src/repositories/CacheRepository.ts:15-26 | writes that profile for an hour and touches nothing else |
| UserServices.UserService.GetUserProfile | src/services/UserService.ts:105-130 | with arbitrary interference at its awaits, a run of the cache machine: a live entry answers, otherwise the five public fields of the row the table has at the read; with a missing or failing cache always the latter; what it returns is recent as the machine promises |
| UserServices.UserService.ReadCache | src/services/UserService.ts:109-113 | the cache read is the machine's first step: exactly a live entry answers, if the cache can be reached |
| UserServices.UserService.WriteCache | src/services/UserService.ts:123-127 | the best-effort cache write stores exactly this profile for an hour, is the machine's fill, and touches no other namespace |
| UserServices.UserService.ReadCachedProfile | src/services/UserService.ts:143-153 | a failing cache read counts as a miss |
| UserServices.UserTable.FindByUsername | src/repositories/UserRepository.ts:35-42 | finds a row with that username in any case, or none exists |
| Tokens.SplitInvertsJoin | src/services/TokenService.ts:76-87 | splitting is exactly the inverse of joining, on every string |
| Tokens.LimiterKeyNamesSession | src/middleware/rateLimiter.ts:50-62 | a splittable token is limited under its own session id if and only if that id has at most 64 characters |
| Tokens.LimiterKeySeparatesSessions | src/middleware/rateLimiter.ts:50-62 | such tokens share a bucket, from whatever addresses, if and only if they name the same session |
| Tokens.LimiterFallsBackToAddress | src/middleware/rateLimiter.ts:50-62 | requests whose token names no session share a bucket if and only if they come from the same address, and never one with a session |

## Left out

- AuthServices.AuthService.Execute: the captured values of requests in flight live in the service's ledger; the stack frames that hold them in the source are not modelled.
- ThrottleModel.GuessesInWindows: bounds one client that waits, with nobody else failing or logging in meanwhile; requests that race past the lock check are not bounded by the throttle, and a successful login clears the count.
- SHA-256, bcrypt, JWT signing and randomness: digests are a free constructor, password comparison and access-token verification are parameters, generated values are new by assumption.
- Access-token expiry and the 15-minute staleness it bounds: part of the verification parameter.
- JSON and cjson encoding, floating point in Lua: records are typed values and timestamps integers.
- Partial failures of MULTI other than a refused TTL, connection loss during a session write, out-of-memory errors.
- Active expiry: expired keys merely stop being visible.
- Fractional throttle delays: delays are whole seconds.
- Username normalisation beyond ASCII letters and white space, and input validation by schemas.
- Signup, pagination and uniqueness constraints: rows appear, change and vanish as protocol steps.
- The rate-limiting library's counting, controllers, routing, error mapping, role checks, metrics, logging, health checks and shutdown.

# Verified model of a multi-tenant work-management backend

The backend keeps its state in PostgreSQL tables, Redis keys and in-process maps, and changes it through
short service functions and background jobs. This project models the parts of it whose correctness spans
several functions, processes or a whole run, and proves what they guarantee.

| file | subject |
|---|---|
| `Digraph.dfy`, `TaskDependencies.dfy` | the task dependency graph and the depth-first search that guards it |
| `Outbox.dfy`, `OutboxDraining.dfy`, `OutboxRetention.dfy`, `OutboxPolling.dfy` | the transactional outbox: the protocol of many pollers, how fast it drains, how long rows are kept, and one poller as code |
| `Sessions.dfy` | refresh-token rotation (the scheme of section 4.14.2 of RFC 9700), user cache, password reset |
| `LoginLockout.dfy` | the failed-login counter and account lock |
| `SamlReplay.dfy` | one-time use of SAML assertions (section 4.1.4.5 of the SAML 2.0 Profiles) |
| `FeatureFlags.dfy` | feature flags behind an in-process cache and a shared Redis cache |
| `RateLimiter.dfy` | the two Redis sliding-window limiters and the in-process fallback |
| `StorageQuota.dfy` | reserved bytes across upload, scan and cleanup |
| `OrgLifecycle.dfy` | organization status and payment grace period |
| `TaskForest.dfy` | subtasks, their depth rule and the cascading soft delete |
| `Calendar.dfy`, `Partitions.dfy` | month arithmetic, creation and dropping of monthly partitions |
| `Wrappers.dfy`, `Collections.dfy` | options and results, counting facts |

`dafny verify dfyconfig.toml` checks everything.

## How to read it

Each subject has a value model (a `State`, a step function, runs as sequences of steps) that carries the
theorems, and, where the source updates things in place, a class whose methods are proved to do exactly
one step of that model. What a step achieves, and what it leaves alone, is stated once more directly on the
tables, with the constants of the source written out, so that the model and the code cannot be wrong together. Tables are maps from id to row, ids are compared for equality only, Redis keys
carry expiry times, and time is an integer number of milliseconds that never goes back. The replica
equals the primary. An exported function is one atomic step, except for the outbox and SAML, where every
query and Redis call is a step of its own that others may interleave with. Clocks, random ids, results of
foreign calls and failures are parameters. Redis is reachable, except where its failure is a parameter
(the calls inside `isEnabled`, the limiter pipeline, outbox publishing).

## What the proofs turned up

- The dependency guard is exact, but only if check and insert are one step; the code runs them without a
  transaction. Two calls that pass it on one table and then both insert close a cycle exactly when the task
  each of them blocks leads to the blocking task of the other (`TaskDependencies.InterleavedInsertsSafeIff`).
  Opposite edges always do.
- A comment in the outbox poller says that only one instance processes at a time. The lease is never
  renewed, so from every reachable state a second poller joins a running cycle exactly when the lease has run
  out (`Outbox.OverlapIffLapsed`). What really excludes is the row locks (`Outbox.PollersExclude`).
- A SAML assertion can be accepted twice exactly when it carries no notOnOrAfter
  (`SamlReplay.ReplayableIffNoExpiry`).
- Filling the shared flag cache is a SELECT and a later HSET. If a writer comes between them the cache is left
  stale exactly when the row changed, and for a flag deleted meanwhile no reload ever repairs it
  (`FeatureFlags.StraddlingFillAgreesIff`, `FeatureFlags.DeletedFlagLingers`).
- The storage counter stays equal to the bytes held exactly when no verdict reaches a file that was already
  given back: a second infection while bytes are counted, or a clean verdict after a quarantine
  (`StorageQuota.ExactIffWellBehaved`, `StorageQuota.CleanAfterQuarantineMiscounts`). Exact books alone do not
  keep the clamp at zero from firing (`StorageQuota.SecondInfectionClamps`); the exact condition for both is
  `StorageQuota.ExactUnclampedIff`. In every run the counter never exceeds the bytes held or the quota.
- A reactivation by an administrator leaves an expired deadline in place, so the next check suspends the
  organization again (`OrgLifecycle.HandReactivationIsBrief`).
- A blacklist entry is replaced by every later logout or reuse with the same jti, and holds for its time
  exactly when none of these ends sooner (`Sessions.BarHoldsIff`).
- The payment webhook clears the grace deadline only of a suspended organization, the payment worker always
  does. While an organization stays active its deadline stands exactly when no payment-captured job ran, so
  one that pays through the webhook alone is suspended at its deadline (`OrgLifecycle.DeadlineStandsIff`,
  `OrgLifecycle.WebhookPayerIsSuspended`).
- Audit partitions are dropped by the smallest retention of any organization. One that asks for longer is
  sure to keep its rows that long exactly when its own limit is not before the start of the cutoff month
  (`Partitions.OwnRetentionKeptIff`).

## Model

| member | source | states |
|---|---|---|
| `Digraph.AddEdgeAcyclic` | src/modules/task/dependency.service.ts:62-65 | Adding an edge to an acyclic graph keeps it acyclic if and only if its head does not reach its tail: the reason the guard is the right test. |
| `Digraph.AddTwoEdgesAcyclic` | src/modules/task/dependency.service.ts:62-67 | Two edges that are each safe on an acyclic graph are safe together if and only if not both heads reach the other's tail. |
| `Digraph.AcyclicIffOrdered` | src/modules/task/dependency.service.ts:11-36 | A finite graph has no cycle if and only if its nodes can be listed with every edge going forward. |
| `TaskDependencies.DependencyService.SelectBlocked` | src/modules/task/dependency.service.ts:25-32 | Returns exactly the tasks that the current one blocks within the organization. |
| `TaskDependencies.DependencyService.WouldCreateCycle` | src/modules/task/dependency.service.ts:11-36 | On every finite table, cyclic or not, the search ends and answers true if and only if a path leads from the blocked to the blocking task along that organization's edges. |
| `TaskDependencies.DependencyService.AddDependency` | src/modules/task/dependency.service.ts:38-68 | Succeeds if and only if the tasks are distinct, live, of the organization and one workspace, no path leads back and the id is new; then exactly that row is stored. Otherwise one of the refusals, in the order of the code, and nothing changes. |
| `TaskDependencies.DependencyService.RemoveDependency` | src/modules/task/dependency.service.ts:70-72 | Removes that row of that organization and nothing else. |
| `TaskDependencies.OrgScopedReach` | src/modules/task/dependency.service.ts:26-29 | Restricting the search to one organization's edges loses nothing: reachability in the whole table is the same. |
| `TaskDependencies.GuardIsExact` | src/modules/task/dependency.service.ts:62-65 | Between live tasks of one workspace the cycle refusal is raised if and only if the edge would make the whole table cyclic. |
| `TaskDependencies.RefusalIsTrue` | src/modules/task/dependency.service.ts:44-65 | A call is refused if and only if it may not add, and each error is true of the tables. |
| `TaskDependencies.AddStoresEdge` | src/modules/task/dependency.service.ts:62-67 | An allowed call adds exactly its edge and row, every other row unchanged, and the opposite edge is refused from then on; a refused one changes nothing. |
| `TaskDependencies.DependencyStands` | src/modules/task/dependency.service.ts:38-72 | Over every run a stored dependency stays until its organization removes it, and all that time the opposite one is refused. |
| `TaskDependencies.RemoveUndoesAdd` | src/modules/task/task.repository.ts:268-287 | Removing what was just added restores the tables; a removal by another organization does nothing. |
| `TaskDependencies.StepKeepsConsistent` | src/modules/task/dependency.service.ts:38-72 | Every operation keeps the graph acyclic and every edge inside one organization and workspace. |
| `TaskDependencies.EveryRunCanBeScheduled` | src/modules/task/dependency.service.ts:38-72 | After any run from empty tables there is an order of all tasks in which each comes after everything that blocks it. |
| `TaskDependencies.InterleavedInsertsSafeIff` | src/modules/task/dependency.service.ts:62-67 | When any two calls pass the guard on one consistent table and then both insert, the table stays consistent if and only if not both blocked tasks lead to the other call's blocking task. |
| `TaskDependencies.InterleavedInsertsCanCycle` | src/modules/task/dependency.service.ts:62-67 | Two opposite edges that both passed the guard always close a cycle when both are inserted. |
| `TaskDependencies.OppositeCallsBothPass` | src/modules/task/dependency.service.ts:62-65 | Opposite calls that both pass exist. |
| `Outbox.StepKeepsInv` | src/shared/events/outbox-poller.ts:62-121 | Every step of any poller, writer, admin or cleanup keeps the locks disjoint, sent-before-marked, the send count bound and the lease spacing. |
| `Outbox.AtLeastOnce` | src/shared/events/outbox-poller.ts:86-109 | In every reachable state, with crashes anywhere, each event ever written is still pending or has been sent since it last became pending; no row is ever failed. |
| `Outbox.OnlySentRowsDisappear` | src/shared/jobs/cleanup.worker.ts:36-56 | Any row that disappears was purged by the cleanup, published, sent, and older than seven days. |
| `Outbox.PollersExclude` | src/shared/events/outbox-poller.ts:64-78 | In every reachable state no two pollers hold one row, and while two are inside a cycle the one that took the lease first has outlived it. |
| `Outbox.OverlapIffLapsed` | src/shared/events/outbox-poller.ts:63-66 | From every reachable state with one poller in a cycle and one idle, the idle one can enter at a later time if and only if the lease has run out by then, the other still being inside. |
| `Outbox.LeaseCanLapseMidCycle` | src/shared/events/outbox-poller.ts:63-66 | From every initial state two pollers can be inside a cycle at once. |
| `Outbox.DuplicatesAreExplained` | src/shared/events/outbox-poller.ts:86-109 | The sends of an event never exceed one plus its lost batches plus its replays; a published event that met neither was sent exactly once. |
| `Outbox.CompletedCycle` | src/shared/events/outbox-poller.ts:62-111 | A cycle without failure is always possible once it has its batch and ends with exactly that batch published. |
| `OutboxRetention.CommitPublishesBatch` | src/shared/events/outbox-poller.ts:101-109 | After a commit each row of the batch is published as of the begin of its transaction; every other row and column is unchanged. |
| `OutboxRetention.FailedBatchIsRetried` | src/shared/events/outbox-poller.ts:93-98 | A batch that fails or is lost leaves every row as it was and selectable again. |
| `OutboxRetention.PublishSendsNext` | src/shared/events/outbox-poller.ts:89-92 | Each publish sends the next event of the batch, in its order, and writes nothing to the table. |
| `OutboxRetention.WritesAndReplaysArePending` | src/modules/platform-admin/admin.service.ts:112-125 | A replay makes its row pending with no publication time, a write adds a pending row; all other rows are unchanged. |
| `OutboxRetention.LeaseIsTaken` | src/shared/events/outbox-poller.ts:64-66 | Only a starting cycle takes the lease, for ten seconds. |
| `OutboxRetention.BatchMeaning` | src/shared/events/outbox-poller.ts:72-78 | A batch holds rows pending for over 100 ms that nobody holds, oldest first, and leaves one out only when full of rows no younger. |
| `OutboxRetention.PurgeKeepsOrRemoves` | src/shared/jobs/cleanup.worker.ts:36-56 | In any state the purge removes exactly rows published over seven days ago and failed rows written over thirty days ago. |
| `OutboxRetention.PurgeRemovesIff` | src/shared/jobs/cleanup.worker.ts:36-45 | In every reachable state it removes exactly the rows published over seven days ago and leaves the others unchanged. |
| `OutboxRetention.OriginsOnRecord` | src/shared/events/outbox-poller.ts:70-109 | Over every run the publication time of a row is the time of the batch query whose cycle committed it, with no replay since; read from the steps taken. |
| `OutboxRetention.PurgedRowsAreOld` | src/shared/jobs/cleanup.worker.ts:36-45 | Over every run a row that disappears was published by a cycle whose batch query ran more than seven days before, with no replay since. |
| `OutboxDraining.SelectTakesOldest` | src/shared/events/outbox-poller.ts:72-78 | Every batch query, whatever other pollers hold, takes min(n, batch size) off the n settled pending rows that nobody holds, and exactly its batch. |
| `OutboxDraining.SmoothRunDrains` | src/shared/events/outbox-poller.ts:62-121 | In every run without failures, with any number of overlapping cycles, arrivals and purges, the settled rows nobody holds after k batch queries are what k full batches leave. |
| `OutboxDraining.CycleShrinksBacklog` | src/shared/events/outbox-poller.ts:72-111 | An undisturbed cycle amid any cycles of others serves min(n, batch size) of the n free settled rows. |
| `OutboxDraining.BacklogDrains` | src/shared/events/outbox-poller.ts:72-111 | When all cycles of such a run have ended, the n free settled rows it began with are published if and only if it made k batch queries with k times the batch size at least n. |
| `OutboxPolling.BackoffSchedule` | src/shared/events/outbox-poller.ts:48-57 | The backoff is 5, 10, 20, 40 seconds and then 60 for every longer series of errors. |
| `OutboxPolling.OutboxPoller.Oldest` | src/shared/events/outbox-poller.ts:75 | Picks a row with the least creation time. |
| `OutboxPolling.OutboxPoller.SelectBatch` | src/shared/events/outbox-poller.ts:72-78 | Returns distinct eligible rows in creation order, at most the batch size, leaving one out only when the batch is full and holds none younger. |
| `OutboxPolling.OutboxPoller.PublishBatch` | src/shared/events/outbox-poller.ts:89-99 | The publish loop takes exactly the protocol steps of the events it sends, and stops with the batch released when one throws. |
| `OutboxPolling.OutboxPoller.ProcessBatch` | src/shared/events/outbox-poller.ts:86-118 | Publishing, marking and committing take exactly the protocol steps of the batch's fate, a lost COMMIT reply included; committed is reported only when the COMMIT was seen to go through. |
| `OutboxPolling.OutboxPoller.PollCycle` | src/shared/events/outbox-poller.ts:62-121 | With the lease taken nothing happens; otherwise the cycle is a valid run of the protocol, and full is reported only for a committed full batch. |
| `OutboxPolling.OutboxPoller.NextDelay` | src/shared/events/outbox-poller.ts:35-60 | The error counter and the delay before the next cycle. |
| `Sessions.Decide` | src/shared/auth-middleware/jwt.middleware.ts:68-107 | Accepted if and only if signed, unexpired, not blacklisted, the user exists and is not deleted, and the password did not change after the second of issue. |
| `Sessions.StepKeepsInv` | src/modules/auth/services/jwt.service.ts:20-137 | Every operation keeps one owner and at most one live row per family, single redemption, and cached users equal to their rows. |
| `Sessions.RotationIsSound` | src/modules/auth/services/jwt.service.ts:48-124 | In every run each family has one user, one org and at most one unrevoked row, and no refresh token is redeemed twice. |
| `Sessions.RefreshRotates` | src/modules/auth/services/jwt.service.ts:48-124 | When exactly a refresh succeeds, and that the new token is then its family's only live one, with the owner of the old. |
| `Sessions.RevocationIsPermanent` | src/modules/auth/repositories/auth.repository.ts:211-254 | Over every run rows stay, keep family and user, and revoked rows stay revoked. |
| `Sessions.DeadFamilyStaysDead` | src/modules/auth/repositories/auth.repository.ts:211-254 | A family with no live row never gets one again. |
| `Sessions.ReuseKillsFamily` | src/modules/auth/services/jwt.service.ts:48-124 | After a revoked token was presented, every later refresh with any token of its family fails, over every continuation. |
| `Sessions.CacheIsTransparent` | src/shared/auth-middleware/jwt.middleware.ts:30-52 | In every reachable state authenticate decides as if it read the users table directly. |
| `Sessions.ResetEndsOldSessions` | src/modules/auth/services/auth.service.ts:268-289 | After a password reset no access token issued before that second is ever accepted and no refresh token from before is ever redeemed. |
| `Sessions.SessionService.IssueTokenPair` | src/modules/auth/services/jwt.service.ts:20-46 | Starts a family with one live row that expires in 30 days; a hash conflict changes nothing. |
| `Sessions.SessionService.RefreshTokenPair` | src/modules/auth/services/jwt.service.ts:48-124 | Does the refresh step with all its refusals, family revocation and blacklisting included. |
| `Sessions.LogoutTouches` | src/modules/auth/services/jwt.service.ts:131-136 | A logout revokes its refresh row, bars its jti for the ttl, and changes no other row, jti, user or cache entry. |
| `Sessions.LogoutEndsRefresh` | src/modules/auth/services/jwt.service.ts:131-136 | Over every continuation every later refresh with that token fails. |
| `Sessions.LogoutEndsAccess` | src/modules/auth/services/jwt.service.ts:131-136 | Over every continuation the access token is not accepted while the ttl runs, unless a later entry for its jti ends sooner. |
| `Sessions.BarHoldsIff` | src/modules/auth/services/jwt.service.ts:56-63 | Over every run a blacklist entry holds throughout if and only if no later logout or reuse with the same jti ends sooner. |
| `Sessions.ReuseTouches` | src/modules/auth/services/jwt.service.ts:57-62 | Reuse revokes exactly the rows of its family and bars its last access token for 900 seconds. |
| `Sessions.ReuseBarsAccessToken` | src/modules/auth/services/jwt.service.ts:57-62 | Over every continuation that access token is not accepted for 900 seconds, unless shortened. |
| `Sessions.ErasureEndsEverything` | src/modules/gdpr/workers/erasure.worker.ts:15-39 | After an erasure no access token of the user is ever accepted and no refresh token of theirs, old or new, ever exchanged; nobody else is touched. |
| `Sessions.IssuedTokenRefreshes` | src/modules/auth/services/jwt.service.ts:20-46 | A fresh login can be refreshed up to and including thirty days later and not after, into a row valid for thirty more. |
| `Sessions.RefusedRefreshKeepsState` | src/modules/auth/services/jwt.service.ts:52-77 | Each refusal has exactly its cause and, reuse apart, changes nothing. |
| `Sessions.VerdictIsTrue` | src/shared/auth-middleware/jwt.middleware.ts:76-107 | Each verdict of the middleware is true of token, blacklist and user. |
| `Sessions.LookupFillsCache` | src/shared/auth-middleware/jwt.middleware.ts:30-52 | A request that reaches an uncached user caches the row for sixty seconds; no request changes anything else. |
| `Sessions.SessionService.RevokeTokens` | src/modules/auth/services/jwt.service.ts:126-137 | The row is revoked if on record, the jti blacklisted for the ttl, all other rows and entries unchanged. |
| `Sessions.SessionService.ConfirmPasswordReset` | src/modules/auth/services/auth.service.ts:268-298 | Does the reset step: change time recorded, cache entry evicted, all refresh rows of the user revoked. |
| `Sessions.SessionService.EraseUser` | src/modules/gdpr/workers/erasure.worker.ts:15-39 | Does the erasure step: user deleted, refresh rows revoked, cache entry evicted. |
| `Sessions.SessionService.AuthenticateRequest` | src/shared/auth-middleware/jwt.middleware.ts:68-118 | Gives the verdict of the model and changes nothing but the cache entry it may fill. |
| `LoginLockout.AttemptPays` | src/modules/auth/services/auth.service.ts:129-160 | One attempt consumes at least its own failure from the allowance of the remaining interval. |
| `LoginLockout.FailureBound` | src/modules/auth/services/auth.service.ts:129-160 | Between resets, whatever the counter and lock at the start, an interval of length T holds at most M + floor(T / 30 min) failed checks for thresholds up to M >= 1. |
| `LoginLockout.FailureBoundAttained` | src/modules/auth/services/auth.service.ts:129-160 | For every M >= 1 and n some run of n half hours has exactly M + n failures, so the bound is tight. |
| `LoginLockout.LockHoldsThirtyMinutes` | src/modules/auth/services/auth.service.ts:129-131 | For exactly thirty minutes after a lock every attempt is refused without effect, the right password included; then the password decides. |
| `LoginLockout.SuccessRestartsCount` | src/modules/auth/services/auth.service.ts:153-163 | Whatever the account was, after a successful login m - 1 wrong passwords are only counted and the m-th locks. |
| `LoginLockout.LoginService.AttemptLogin` | src/modules/auth/services/auth.service.ts:129-163 | Counter, lock and answer are those of the model for every attempt. |
| `SamlReplay.StepKeepsInv` | src/modules/auth/services/saml.service.ts:79-93 | Every interleaved step keeps an accepted key on record until a day past notOnOrAfter. |
| `SamlReplay.AcceptedAtMostOnce` | src/modules/auth/services/saml.service.ts:79-93 | Over every interleaving of checks, inserts and cleanups an assertion with notOnOrAfter is accepted at most once per organization. |
| `SamlReplay.ReplayIsRefused` | src/modules/auth/services/saml.service.ts:81-92 | A request whose key is on record is refused at the check or at the insert and leaves no trace; otherwise it goes on. |
| `SamlReplay.CleanupForgetsIff` | src/shared/jobs/cleanup.worker.ts:58-66 | Cleanup forgets exactly the records that expired more than 24 hours ago. |
| `SamlReplay.FreshAssertionAccepted` | src/modules/auth/services/saml.service.ts:79-93 | After any run, a valid assertion whose key is not on record can go all the way through and is accepted. |
| `SamlReplay.ReplaySucceedsWithoutExpiry` | src/shared/jobs/cleanup.worker.ts:58-66 | Without notOnOrAfter there is a run with two acceptances, through the one-hour default and the purge a day later. |
| `SamlReplay.ReplayableIffNoExpiry` | src/modules/auth/services/saml.service.ts:79-93 | Two acceptances are possible if and only if the assertion has no notOnOrAfter. |
| `FeatureFlags.ResolveFlag` | src/modules/feature-flag/feature-flag.service.ts:39-43 | On exactly when the organization is not disabled and is enabled itself or globally. |
| `FeatureFlags.L1KeyInjective` | src/modules/feature-flag/feature-flag.service.ts:61-63 | For colon-free organization ids a cache key names one organization and one flag. |
| `FeatureFlags.AskReadsTable` | src/modules/feature-flag/feature-flag.service.ts:69-120 | An answer, and what it leaves in either cache, comes from the table as it is now or from an unexpired entry. |
| `FeatureFlags.StepKeepsInv` | src/modules/feature-flag/feature-flag.service.ts:69-225 | Every operation of every process keeps L2 equal to the table where present and every L1 entry true of the table at the moment it was stored. |
| `FeatureFlags.AnswersAreFresh` | src/modules/feature-flag/feature-flag.service.ts:69-120 | In every reachable state and process the answer is what the plain lookup said at some moment of the last five seconds; an answer of true is so whatever fails inside isEnabled. |
| `FeatureFlags.WriterSeesOwnWrite` | src/modules/feature-flag/feature-flag.service.ts:126-139 | The process that last changed a flag answers from the current table. |
| `FeatureFlags.WriteTakesEffect` | src/modules/feature-flag/feature-flag.service.ts:175-225 | What the plain lookup says for every organization after a create, update or delete; other flags are untouched and L2 forgets the flag. |
| `FeatureFlags.AnswersAreCached` | src/modules/feature-flag/feature-flag.service.ts:69-113 | For five seconds after an answer the process repeats it without Redis or table; a flag read from the table is then answered from Redis in any process. |
| `FeatureFlags.FailuresAnswerFalse` | src/modules/feature-flag/feature-flag.service.ts:91-119 | An uncached answer is false whenever the table cannot be read or Redis not written. |
| `FeatureFlags.DeliveryBringsUpToDate` | src/modules/feature-flag/feature-flag.service.ts:126-139 | In every reachable state a process that has just received an invalidation answers from the current table. |
| `FeatureFlags.ForgetDropsFlag` | src/modules/feature-flag/feature-flag.service.ts:128-132 | Invalidation drops exactly the entries keyed by some organization, a colon and the flag. |
| `FeatureFlags.StraddlingFillAgreesIff` | src/modules/feature-flag/feature-flag.service.ts:93-113 | When anything happens between the SELECT and the HSET of isEnabled, L2 agrees with the table afterwards if and only if the row is still as read, in particular when nobody wrote the flag; a reload repairs it if and only if the flag exists. |
| `FeatureFlags.DeletedFlagLingers` | src/modules/feature-flag/feature-flag.service.ts:45-59 | A stale entry of a deleted flag survives every run and every reload until the flag is written again, and keeps being answered. |
| `FeatureFlags.FlagService.IsEnabled` | src/modules/feature-flag/feature-flag.service.ts:69-120 | Answer and both caches are those of the model for every combination of failures. |
| `FeatureFlags.FlagService.DropEntries` | src/modules/feature-flag/feature-flag.service.ts:128-132 | The loop removes exactly the L1 entries whose key ends in the flag. |
| `FeatureFlags.FlagService.InvalidateFlag` | src/modules/feature-flag/feature-flag.service.ts:126-139 | The flag is gone from L2 and from this process's L1, everything else stays. |
| `FeatureFlags.FlagService.LoadFlagsIntoRedis` | src/modules/feature-flag/feature-flag.service.ts:45-59 | L2 then agrees with every table row and keeps its other entries. |
| `FeatureFlags.FlagService.CreateFlag` | src/modules/feature-flag/feature-flag.service.ts:175-196 | Inserts and invalidates unless the key exists, in which case nothing changes. |
| `FeatureFlags.FlagService.UpdateFlag` | src/modules/feature-flag/feature-flag.service.ts:198-216 | Each given column is replaced and each other kept, other flags unchanged, the flag invalidated; a missing flag changes nothing. |
| `FeatureFlags.FlagService.DeleteFlag` | src/modules/feature-flag/feature-flag.service.ts:218-225 | Removes the row and invalidates; a missing flag changes nothing. |
| `RateLimiter.RunFollowsReference` | src/shared/redis/rate-limiter.ts:14-26 | On every trace either Redis limiter decides by counting the earlier requests of the window in the bare trace. |
| `RateLimiter.RedisLimitersAgree` | src/shared/realtime/rate-limiter.ts:7-31 | On every trace count-then-add below the limit and add-then-count up to the limit make the same decisions: a request passes if and only if fewer than limit earlier positions of the trace lie in its window. Key expiry changes none. |
| `RateLimiter.EveryRequestIsRecorded` | src/shared/redis/rate-limiter.ts:16-19 | Both Redis limiters record every request, admitted or not; the keys live for the window, and a second longer. |
| `RateLimiter.FallbackCountsAdmitted` | src/shared/redis/rate-limiter.ts:33-50 | On every trace the fallback admits a request if and only if it admitted fewer than limit in the window before it. |
| `RateLimiter.FallbackIsLaxer` | src/shared/redis/rate-limiter.ts:27-50 | Whatever Redis admits on a trace, the fallback admits too. |
| `RateLimiter.MixedRunBounded` | src/shared/redis/rate-limiter.ts:9-50 | Over every mix of routes each store still covers the admissions of its route, so each route alone stays within the limit. |
| `RateLimiter.WindowBound` | src/shared/redis/rate-limiter.ts:9-50 | Any window holds at most `limit` admitted requests on one route and at most twice that however calls switch routes, even after half-executed pipelines. |
| `RateLimiter.Limiter.FilterAfter` | src/shared/redis/rate-limiter.ts:40 | Keeps exactly the timestamps after the window start, in order. |
| `RateLimiter.Limiter.RedisRoute` | src/shared/redis/rate-limiter.ts:14-26 | The pipeline does the Redis step of the model on this key and leaves all others alone. |
| `RateLimiter.Limiter.DecideLocally` | src/shared/redis/rate-limiter.ts:32-50 | The in-process decision, its count and the list it would store. |
| `RateLimiter.Limiter.FallbackRoute` | src/shared/redis/rate-limiter.ts:27-50 | After a pipeline that threw part-way, the fallback step of the model on this key only; only admitted requests are recorded. |
| `RateLimiter.Limiter.Check` | src/shared/redis/rate-limiter.ts:9-50 | Decision, remaining allowance and retry time of either route. |
| `RateLimiter.Limiter.CheckSocketEvent` | src/shared/realtime/rate-limiter.ts:7-31 | The socket pipeline does the add-then-count step on this key only. |
| `StorageQuota.StepKeepsSound` | src/modules/file/workers/virus-scan.worker.ts:94-153 | Every operation keeps each counter within the quota and within the bytes of live unquarantined files. |
| `StorageQuota.CounterNeverOverstates` | src/modules/file/file.service.ts:81-102 | The same over every run of uploads, scans, rescans and cleanups. |
| `StorageQuota.StepExactIff` | src/modules/file/workers/virus-scan.worker.ts:94-153 | From exact books a step leaves exact books if and only if it is not a verdict on a file already given back. |
| `StorageQuota.ExactIffWellBehaved` | src/modules/file/workers/virus-scan.worker.ts:94-180 | The counter equals the bytes held throughout a run if and only if no verdict of the run miscounts. |
| `StorageQuota.DiscardKeeps` | src/modules/file/workers/virus-scan.worker.ts:166-180 | Reclaiming one stale upload keeps soundness and exactness, and with exact books is never clamped. |
| `StorageQuota.SettlesIff` | src/modules/file/workers/virus-scan.worker.ts:94-180 | From exact books a step keeps them exact without the clamp firing, in a verdict or in any iteration of a cleanup, if and only if it is no infection of a file given back and no clean verdict on a quarantined one. |
| `StorageQuota.ExactUnclampedIff` | src/modules/file/workers/virus-scan.worker.ts:94-180 | Over every run the books are exact throughout and the clamp never fires if and only if every verdict is of that kind. |
| `StorageQuota.OneReclaimPerFileIsExact` | src/modules/file/workers/virus-scan.worker.ts:94-180 | From empty books, if no verdict follows an infection of the same file and no infection follows its cleanup, the counter equals the bytes held at every moment and the clamp never fires. |
| `StorageQuota.SecondInfectionClamps` | src/modules/file/workers/virus-scan.worker.ts:94-103 | Exactness alone is not enough: infecting a file given back while the counter is zero clamps and leaves the books exact. |
| `StorageQuota.CleanAfterQuarantineMiscounts` | src/modules/file/workers/virus-scan.worker.ts:125-153 | A concrete run, one quarantine then a clean verdict, after which the counter is below the bytes held. |
| `StorageQuota.FileService.RequestUploadUrl` | src/modules/file/file.service.ts:52-110 | Either a refusal, in the order of the code and with nothing reserved, or the bytes reserved and the row inserted together. |
| `StorageQuota.UploadGrantedIff` | src/modules/file/file.service.ts:52-102 | An upload is granted if and only if type, the byte limit of its plan, presigning and quota allow it; then its bytes are reserved and a pending row added, otherwise nothing changes. |
| `StorageQuota.UploadRefusalIsTrue` | src/modules/file/file.service.ts:52-102 | Each refusal names a true reason. |
| `StorageQuota.VerdictIsRecorded` | src/modules/file/workers/virus-scan.worker.ts:94-153 | Clean confirms the file and changes nothing else; infected quarantines it and reduces its owner's counter, never below zero, and changes nothing else. |
| `StorageQuota.CleanFileIsKept` | src/modules/file/workers/virus-scan.worker.ts:146-150 | Over every run, a live file found clean is never deleted by a cleanup. |
| `StorageQuota.CleanupRemovesIff` | src/modules/file/workers/virus-scan.worker.ts:166-180 | A cleanup deletes exactly the live uploads still pending after an hour and leaves every other file as it is. |
| `StorageQuota.CleanupGivesBack` | src/modules/file/workers/virus-scan.worker.ts:170-175 | A cleanup gives each organization back the total bytes of its overdue uploads, never below zero. |
| `StorageQuota.FileService.VirusScanJob` | src/modules/file/workers/virus-scan.worker.ts:60-153 | Confirms, quarantines or does nothing by the verdict; all else as in the scan step. |
| `StorageQuota.FileService.FileCleanupJob` | src/modules/file/workers/virus-scan.worker.ts:166-180 | The loop reclaims and soft-deletes exactly the uploads pending for over an hour. |
| `OrgLifecycle.OffboardingIsOneWay` | src/modules/organization/services/organization.service.ts:109-177 | Over every run of all writers, offboarding never leads back to active or suspended, deleted is final, and status is deleted if and only if deleted_at is set. |
| `OrgLifecycle.DeletedOnlyFromOffboarding` | src/modules/gdpr/workers/offboarding.worker.ts:16-65 | Every deleted organization was in offboarding right before the job that deleted it. |
| `OrgLifecycle.DeadlineHasOrigin` | src/modules/payment/workers/payment.worker.ts:29-60 | Every deadline was set by one payment failure of an active organization and has stood unchanged since. |
| `OrgLifecycle.SuspensionIsEarned` | src/modules/payment/workers/payment.worker.ts:29-83 | A check that suspends was preceded, at least seven days before, by a payment failure whose deadline nothing cleared or moved; further failures and earlier checks in between had no effect. |
| `OrgLifecycle.OwnCheckSuspends` | src/modules/payment/workers/payment.worker.ts:29-83 | While an organization stays active and uncleared, the check its failure enqueued is still queued, and suspends once due. |
| `OrgLifecycle.DeadlineStandsIff` | src/modules/payment/webhook.handler.ts:100-104 | Over every history in which the organization stays active, the deadline of a payment failure stands if and only if no payment-captured job ran since, whatever the webhook did. |
| `OrgLifecycle.WebhookPayerIsSuspended` | src/modules/payment/webhook.handler.ts:100-104 | An organization that stays active and pays through the webhook alone is suspended by its own check once the deadline has passed. |
| `OrgLifecycle.ReactivationIsExact` | src/modules/payment/workers/payment.worker.ts:90-104 | At any moment of a history a payment job, a webhook charge or a reactivation by hand makes a suspended organization active and no other anything else; the two payments clear its deadline. |
| `OrgLifecycle.PaymentBuysSevenDays` | src/modules/payment/workers/payment.worker.ts:66-104 | After a payment that cleared the deadline a check suspends again only for a later payment failure at least seven days before. |
| `OrgLifecycle.HandReactivationIsBrief` | src/modules/organization/services/organization.service.ts:134-154 | A reactivation by hand keeps the deadline: the next check suspends again if and only if it has passed. |
| `OrgLifecycle.OffboardingStarts` | src/modules/gdpr/gdpr.router.ts:128-150 | When the service and when the administrator start offboarding, and with what columns. |
| `OrgLifecycle.OrgService.SuspendOrganization` | src/modules/organization/services/organization.service.ts:109-132 | Does the suspend step and reports whether it changed anything. |
| `OrgLifecycle.OrgService.ReactivateOrganization` | src/modules/organization/services/organization.service.ts:134-154 | Does the reactivate step, with its two refusals. |
| `OrgLifecycle.OrgService.BeginOffboarding` | src/modules/organization/services/organization.service.ts:156-177 | Starts offboarding exactly from active or suspended. |
| `OrgLifecycle.OrgService.RunOffboardingJob` | src/modules/gdpr/workers/offboarding.worker.ts:16-65 | Deletes exactly an organization in offboarding. |
| `OrgLifecycle.OrgService.HandlePaymentFailure` | src/modules/payment/workers/payment.worker.ts:29-60 | Sets a first deadline and enqueues its check; otherwise nothing. |
| `OrgLifecycle.OrgService.CheckGrace` | src/modules/payment/workers/payment.worker.ts:66-83 | Consumes the job and suspends exactly an active organization past its current deadline. |
| `OrgLifecycle.OrgService.HandlePaymentCaptured` | src/modules/payment/workers/payment.worker.ts:90-104 | Makes a suspended organization active, keeps any other status, and clears the deadline unless deleted; nothing else changes. |
| `OrgLifecycle.OrgService.WebhookReactivate` | src/modules/payment/webhook.handler.ts:100-104 | Reactivates and clears only a suspended organization. |
| `TaskForest.DepthCountsAncestors` | src/modules/task/task.service.ts:82-126 | Depth is the number of ancestors and at most 2; ancestors share the organization and are live above a live task. |
| `TaskForest.ClosureFindsDescendants` | src/modules/task/task.repository.ts:192-213 | The recursive query finds a task if and only if it is live and in or below the working set. |
| `TaskForest.CascadeIsExact` | src/modules/task/task.repository.ts:192-213 | The cascade marks exactly the root and its descendants, changes no other column or row, and the query closes after children and grandchildren. |
| `TaskForest.CascadeKeepsForest` | src/modules/task/task.repository.ts:192-213 | After a cascade no live task sits under a deleted one and the rest of the shape is kept. |
| `TaskForest.StepKeepsForest` | src/modules/task/task.service.ts:82-126 | Creation and deletion keep the forest shape. |
| `TaskForest.EveryRunIsAForest` | src/modules/task/task.service.ts:82-126 | In every run from an empty table depth equals the number of ancestors, is at most 2, and live tasks have live ancestors of their own organization. |
| `TaskForest.TasksArePermanent` | src/modules/task/task.service.ts:82-126 | Over every run a task keeps what it was created with, and deletion is final. |
| `TaskForest.CreateRefusalIsTrue` | src/modules/task/task.service.ts:82-110 | Each refusal of a creation names a true reason. |
| `TaskForest.DeleteNeedsRight` | src/modules/task/task.service.ts:204-218 | A live task is deleted if and only if the call names its organization and comes from its creator or an administrator. |
| `TaskForest.TaskService.CreateTask` | src/modules/task/task.service.ts:82-126 | One of the refusals, in the order of the code, or the row with its depth; the shape is kept. |
| `TaskForest.TaskService.DeleteTask` | src/modules/task/task.service.ts:204-218 | One of the two refusals, or the cascade; the shape is kept. |
| `Calendar.ClosedFormAgrees` | src/shared/jobs/cleanup.worker.ts:94-95 | The closed form for first days of months equals the one numbering that respects all month lengths. |
| `Calendar.MonthUnique` | src/shared/jobs/cleanup.worker.ts:94-95 | A day lies in one month only. |
| `Calendar.EveryDayHasMonth` | src/shared/jobs/cleanup.worker.ts:94-95 | Every day, before or after year 0, lies in some month. |
| `Calendar.CalendarAnchors` | src/shared/jobs/cleanup.worker.ts:94-95 | The numbering gives known dates around leap and common centuries and repeats every 146097 days. |
| `Partitions.LabelInjective` | src/shared/jobs/cleanup.worker.ts:96 | Labels of different months differ. |
| `Partitions.LabelIffRange` | src/shared/jobs/cleanup.worker.ts:94-98 | Label and range determine each other. |
| `Partitions.PartitionsIdenticalOrDisjoint` | src/shared/jobs/cleanup.worker.ts:94-98 | Partitions of different months are disjoint and consecutive ones meet without a gap. |
| `Partitions.MissingMonthIsFree` | src/shared/jobs/cleanup.worker.ts:100-117 | In a table of whole months a missing month overlaps nothing, so its creation is never refused. |
| `Partitions.CreateKeepsOk` | src/shared/jobs/cleanup.worker.ts:100-117 | Creation keeps the table well formed and succeeds unless the statement itself fails. |
| `Partitions.CreatesNextTwo` | src/shared/jobs/cleanup.worker.ts:93-117 | A run creates exactly the two months after the present one, each unless its statement fails, and leaves existing partitions alone. |
| `Partitions.DropLeaves` | src/shared/jobs/cleanup.worker.ts:142-155 | The drop loop removes exactly the partitions named by the months before the cutoff month and leaves the others untouched. |
| `Partitions.DroppedRowsAreExpired` | src/shared/jobs/cleanup.worker.ts:126-159 | Every row a run removes is older than now minus the retention in force. |
| `Partitions.RunKeepsItsOwnPartitions` | src/shared/jobs/cleanup.worker.ts:90-159 | No run drops a partition it creates or one that covers the present. |
| `Partitions.HistoryIsSafe` | src/shared/jobs/cleanup.worker.ts:90-159 | Over any history of inserts and runs partitions stay whole disjoint months and the next run removes only expired rows. |
| `Partitions.MinRetention` | src/shared/jobs/cleanup.worker.ts:128-134 | The least retention of the organizations counted, or 90 days when there are none. |
| `Partitions.OwnRetentionKeptIff` | src/shared/jobs/cleanup.worker.ts:128-155 | With the least retention in force, no run on any well-formed table removes a row younger than an organization's own retention if and only if the run drops nothing or that retention does not reach back past the start of the cutoff month; the least one is always kept. |
| `Partitions.CleanupJob.EnsureMonth` | src/shared/jobs/cleanup.worker.ts:93-117 | Computes label and range of the month and does the creation step. |
| `Partitions.CleanupJob.CreateNextPartitions` | src/shared/jobs/cleanup.worker.ts:90-124 | The loop creates the next two months, each on its own failing or not. |
| `Partitions.CleanupJob.DropMonth` | src/shared/jobs/cleanup.worker.ts:142-147 | Drops the partition of that month and no other. |
| `Partitions.CleanupJob.DropExpiredPartitions` | src/shared/jobs/cleanup.worker.ts:142-155 | The loop drops up to 24 months before the cutoff month and stops at the first failure. |
| `Partitions.CleanupJob.RunPartitionJobs` | src/shared/jobs/cleanup.worker.ts:71-75 | Creation followed by dropping is the cleanup step the theorems speak of. |

## Left out

- The frontend, routers, request validation, API documentation, metrics, logging and tracing.
- Adapters for object storage, email, payments, search, virus scanning and sockets: their results are parameters.
- Cryptography and token signing: a signature is a validity bit and a token hash is the token. The lifetime of access tokens is fixed at its default of 900 seconds.
- Redis failure in the blacklist check of the middleware, which lets the request through by design.
- Finer interleaving of services that check and then write without a transaction, apart from two dependency inserts and the fill of the flag cache.
- Outbox events, audit log rows, activity rows and queue jobs that services write besides their own tables, other than the grace-period checks.
- Bulk and workspace deletes, task status transitions, assignee rows: they do not follow the parent relation or bypass the transition table.
- Payment row status, idempotency keys, recurrence rules, presence, video signalling, search ranking, email templates: thin, driven by libraries, or without an order to prove.
- Offboarding's effect on stored files, which are marked deleted without returning quota; scan jobs whose organization differs from the file's; the scan_status column.
- Login answers for unknown users and unverified addresses, and the second factor.
- The flag table's ids, description and rollout columns: a row is addressed by its key.
- Redis errors of a single command inside a pipeline that otherwise succeeds, and sorted-set members that collide.
- Years 0 to 99, which the Date constructor maps to 1900 to 1999, and dates whose ISO text does not have a four-digit year; the default partition; the chat_messages partitions, which get the same ranges.
- The poller's start and stop flags.
- LoginLockout.FailureBound: needs a threshold of at least one, since a threshold of zero or less still lets one attempt through per lock.
- SamlReplay.AcceptedAtMostOnce: takes from its environment that validation rejects an assertion from its notOnOrAfter on and that the insert follows validation by less than 24 hours.
- SamlReplay has no class: its select and insert belong to concurrent requests, so the callback is modelled as interleaved steps on values.

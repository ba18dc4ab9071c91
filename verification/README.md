# Xenith: a verified model of the panel's stateful core

Xenith is a panel that manages users of a proxy. This project models, in Dafny,
the parts of it that hold state or define text formats, and proves what they
are meant to guarantee. `dafny verify dfyconfig.toml` checks everything.

**Accounts in the cores** (`Users`, `XrayConfig`, `Rebuild`, `Schedules`,
`Operations`, `CoreSync`, `CoreRuns`). What every Xray core should hold is
defined by a full rebuild of its configuration from the database. At run time
each change of a user instead spawns threads that add, alter or remove single
accounts, one thread per core and inbound. The account tables of all cores are
one map from (core, tag, email) to account. The main theorem is
`CoreRuns.EveryRunInSync`: along every run of creations, edits, deletions,
resets, plan activations, review passes, recordings, starts and stops of cores,
under every thread schedule, the tables equal the rebuild of the database of
that moment. Three places of the code break this, and each has its exact
condition: `update_user` does not treat `raw` transport like the rebuild
(`CoreSync.UpdateResyncsIff`), the periodic reset never calls the cores
(`CoreRuns.PeriodicResetInSyncIff`), and a revocation that finds a user over its
limit stays silent (`CoreRuns.RevokeInSyncIff`). Operations on different users may
overlap (`CoreRuns.OverlapInSync`).

**Traffic and the life of a user** (`Traffic`, `Database`, `TrafficRuns`,
`ReviewRuns`). Usage of all cores is folded into user counters, admin totals and
hourly rows; resets move counters to a log; the review job drives statuses and
next plans. Over all runs the hourly rows agree with the counters, lifetime
traffic is conserved, and reviews change a user at most three times.

**Rate limiter** (`RateLimit`). The class with pruning, stale-key removal and
eviction refines "count all failures of the last window".

**Interleaved protocols** (`Devices`, `SettingsCache`). Device registration and
the double-checked settings cache as step machines over all interleavings.

**Archives** (`Paths`, `Backup`, `Plans`, `BackupRoundTrip`, `Wrapped`, `Restore`). The
layout a backup writes, the classifier that reads any archive, with or without a
folder around everything, and the loop that puts files back.

**Text formats** (`Text`, `Utf8`, `Base64Url`, `Tokens`, `Sysctl`).
Subscription tokens (base64url as in section 5 of RFC 4648, padding dropped as
its section 3.2 permits) and the sysctl.d file.

**Names and retries** (`Remarks`, `Notifications`). The search for a free remark
and the webhook queue with bounded retries.

Conventions. Times are reals and parameters; a method whose code reads the clock
several times takes the readings. HMAC, SHA-256 and the JWT library are function
parameters. A committed statement is one atomic step. Coefficients and the
amounts they weigh are reals. Core calls do not fail and tags are distinct where
a statement says so.

Where the code does not do what its comments or names suggest, the code is
modelled and the deviation is a theorem:

- `current()` reads the cache twice and can answer None although settings exist
  (`SettingsCache.CurrentCanReturnNone`, exact condition `NoneAnsweredIff`).
- A wait of `retry_after` is too short once a key holds more than `attempts`
  recent failures (`RateLimit.WaitTooShort`, exact condition `WaitFreesIff`).
- An eviction can drop a key that is blocking and keep one that is not, because
  it counts entries that nobody has pruned yet (`RateLimit.BlockedKeyDropped`,
  exact condition `BlockedGoLastIff`).
- Two simultaneous fetches of one new device can end with one served and one
  refused (`Devices.SameDeviceRace`, exact conditions `BothServedIff` and
  `KnownNeverRefusedIff`).
- A data directory spelled with two leading slashes makes the restore skip every
  file (`Restore.DoubledWritesNothing`, exact condition `Paths.InsideIff`).
- A sing-box remark may equal a tag of the template (`Remarks.TemplateClash`,
  exact condition in `Remarks.SingBoxConfiguration.Add`).
- A negative retry limit throws untried notifications away
  (`Notifications.NothingThrownAwayIff`).
- A token whose signature is not ASCII raises a TypeError
  (`Tokens.SomethingRaises`, exact condition `RaisedIff`).
- `_validate` does not look for duplicate tags (`XrayConfig.DuplicatesPass`,
  exact condition in `XrayConfig.Validate`).

## Model

| member | source | states |
|---|---|---|
| `Users.EmailPrefixIsId` | app/jobs/record_usages.py:111-117 | the text before the first dot of an account's identity is the printed id, whatever dots the username holds |
| `Users.EmailInjective` | app/xray/config.py:429-432 | two users never share an account identity |
| `Users.ChangesKeepLifetime` | app/db/models.py:125-130 | reset, plan, edit and start of expiry keep logged plus current traffic |
| `Users.ModifyKeepsIdentity` | app/db/crud.py:441-543 | an edit keeps id, username and the type of every proxy |
| `Users.SettingsAreTheirParts` | app/models/proxy.py:102-144 | proxy settings are equal exactly if kind, credential, flow and cipher are |
| `Users.ModifiedProxies` | app/db/crud.py:453-474 | the proxies after an edit: the types it names if any, settings and exclusions as given, and as before where none are given |
| `Users.ModifiedStatus` | app/db/crud.py:476-509 | each status after an edit as an if-and-only-if of the status asked for, the limit and the expiry that are given, the traffic used and the time |
| `Users.ModifiedFields` | app/db/crud.py:479-543 | what is given is written, zero standing for none; what is not given stays, but for the plan |
| `Users.RevokedProxies` | app/db/crud.py:616-637 | a revocation gives every proxy its new credential and keeps its type, flow, cipher and exclusions |
| `Users.RevokedStatus` | app/db/crud.py:476-509 | re-sending a live user's own values makes it not live exactly when its limit is reached or, if active, its expiry has passed |
| `Users.OnHoldKeepsDuration` | app/db/crud.py:441-575 | on-hold users keep a duration through edits and resets |
| `XrayConfig.Validate` | app/xray/config.py:127-141 | accepted exactly for non-empty inbounds and outbounds, non-empty tags, and no comma in an inbound tag |
| `XrayConfig.DuplicatesPass` | app/xray/config.py:134-141 | a file with the same tag twice is accepted |
| `XrayConfig.Config.constructor` | app/xray/config.py:143-357 | the inbounds are those the file gives under a managed protocol and a tag that is not hidden; the three indexes agree with them, and the clients the file lists are kept by tag |
| `XrayConfig.Config.Append` | app/xray/config.py:351-357 | one more inbound keeps the three indexes in agreement |
| `XrayConfig.ResolvedSay` | app/xray/config.py:143-176 | the inbounds managed are exactly those of the file that are not hidden and speak one of the core's four protocols, with the fields the file gives them |
| `XrayConfig.FirstIsWritten` | app/xray/config.py:351-357 | of several entries with one tag the first that is managed gives the clients of that tag |
| `XrayConfig.GroupRows` | app/xray/config.py:402-411 | grouping is the per-protocol subsequence of the rows, in order, and its keys come in order of first appearance |
| `XrayConfig.AppendClients` | app/xray/config.py:419-451 | the inner loop appends one client for each row that does not exclude the inbound, in the order of the rows, with the identity, kind, credential and cipher of the row and with its flow exactly over TCP, raw or mKCP with TLS or REALITY and no HTTP header |
| `XrayConfig.RebuildSettings` | app/xray/config.py:434-449 | kind, credential and cipher as they are; the flow kept exactly on tcp, raw or kcp with tls or reality and no http header, and empty elsewhere |
| `XrayConfig.UpdateSettings` | app/xray/operations.py:148-159 | the same without raw |
| `XrayConfig.ClientsExtend` | app/xray/config.py:419-451 | the clients of an inbound are, row by row, those of the rows that admit its tag |
| `XrayConfig.FillInbounds` | app/xray/config.py:413-451 | every tag grows by the clients of the inbounds that bear it, in their order |
| `XrayConfig.Config.IncludeDbUsers` | app/xray/config.py:375-457 | after the rebuild each tag holds the clients the file lists and then those its inbounds get from the database, protocol by protocol, repeated tags included |
| `XrayConfig.GatheredIsOwn` | app/xray/config.py:413-451 | with distinct tags that is exactly the clients of the tag's own inbound, row by row in the order of the query |
| `XrayConfig.ExcludedTagsRoundTrip` | app/xray/config.py:384-411 | gluing tags with commas and splitting them again is the identity exactly for non-empty tags without commas |
| `Rebuild.AccountsAt` | app/xray/config.py:423-451 | the account of a live user in an inbound that carries it, with the kind, the credential and the permitted flow of the user's own proxy, and none where it is excluded |
| `Rebuild.AccountsOwner` | app/xray/config.py:375-457 | every account of the rebuilt tables belongs to a live user, an inbound and a core |
| `Rebuild.LoadedClients` | app/xray/config.py:419-451 | loading an inbound's clients yields one right account per carried row and no other |
| `Rebuild.RebuildLoads` | app/xray/config.py:375-457 | starting a core from the rebuilt configuration gives exactly the accounts defined from the database |
| `Rebuild.StartedHolds` | app/xray/operations.py:245-287 | a core started from the file rebuilt out of the query's rows holds, cell by cell, what the database says |
| `Schedules.AlterReplaces` | app/xray/operations.py:57-76 | remove then add leaves the new account, whatever was there |
| `Schedules.AddFills` | app/xray/operations.py:31-42 | an add fills an empty cell and leaves an existing account |
| `Schedules.SchedulesAgree` | app/xray/operations.py:31-76 | two complete schedules of threads on distinct cells end in the same tables |
| `Schedules.ScheduleIndependence` | app/xray/operations.py:31-76 | every interleaving ends as running the threads one after the other |
| `Operations.AddUser` | app/xray/operations.py:79-114 | spawns one thread per core and enabled inbound, on pairwise distinct cells; everything added is the user's own account: its identity, and the kind, credential and permitted flow of its proxy of that inbound's protocol |
| `Operations.UpdateUser` | app/xray/operations.py:127-173 | spawns alters for the enabled inbounds and removals for all the others, on pairwise distinct cells; what is added again is the user's own account, its flow kept by the rule without raw |
| `Operations.SpawnedAddsOwn` | app/xray/operations.py:79-159 | whatever threads a call spawns, each account they add bears the credential of the user's own proxy, on an inbound that carries the user |
| `Operations.RemoveUser` | app/xray/operations.py:117-124 | spawns one removal per core and inbound |
| `Operations.AfterCall` | app/xray/operations.py:79-173 | under every schedule, what a call leaves in each cell it reaches |
| `Operations.AfterCallElsewhere` | app/xray/operations.py:79-173 | every cell a call does not reach, other users' included, is unchanged |
| `Operations.ConcurrentCalls` | app/xray/operations.py:31-76 | any number of calls for different users may overlap: every interleaving of all their threads ends as running the calls one after the other |
| `CoreSync.Resync` | app/xray/config.py:375-457 | tables right for everyone else and for one edited user are the rebuild of the edited database |
| `CoreSync.OthersUntouched` | app/xray/operations.py:79-173 | a call never changes another user's accounts |
| `CoreSync.AddResyncs` | app/xray/operations.py:79-114 | adding a live user whose accounts were absent or right brings the tables to the rebuild |
| `CoreSync.RemoveResyncs` | app/xray/operations.py:117-124 | removing a user that is no longer live brings the tables to the rebuild |
| `CoreSync.SilentResyncs` | app/routers/user.py:179-189 | changes that keep liveness and proxies need no call |
| `CoreSync.DeletionResyncs` | app/routers/user.py:150-168 | deleting the row of a user that is not live changes no table |
| `CoreSync.UpdateResyncs` | app/xray/operations.py:127-173 | an update brings the tables to the rebuild when no carried inbound is a raw one that keeps the user's flow |
| `CoreSync.UpdateResyncsIff` | app/xray/operations.py:149-154 | ... and only then |
| `CoreSync.RawFreeIff` | app/xray/operations.py:149-154 | an update is right for every user exactly on configurations without such raw inbounds |
| `CoreRuns.StartResyncs` | app/xray/operations.py:245-287 | a core started from the rebuild joins the others in sync |
| `CoreRuns.StopResyncs` | app/xray/operations.py:176-186 | dropping a core leaves the rest in sync |
| `CoreRuns.DeleteResyncs` | app/routers/user.py:150-168 | deleting a user and removing its accounts is the rebuild of the smaller database |
| `CoreRuns.CreateOutcome` | app/routers/user.py:66-75 | a user under a name not in use is added together with its accounts; under one in use nothing happens |
| `CoreRuns.CallsFollow` | app/routers/user.py:67-380 | which call follows each change of an existing user, told from its rows before and after, and which changes make none |
| `CoreRuns.StepInSync` | app/routers/user.py:67-189 | every operation, under every schedule, keeps the tables equal to the rebuild, and exclusions readable from the file |
| `CoreRuns.EveryRunInSync` | app/xray/operations.py:79-173 | incremental refines rebuild, along every run and at every moment; cores that start load the file rebuilt from the rows of that moment |
| `CoreRuns.OverlapInSync` | app/xray/operations.py:79-173 | operations on different users may overlap: once all threads are done, in whatever order they moved, the tables equal the rebuild of the database with all the changes |
| `CoreRuns.EmptyInSync` | app/xray/config.py:375-457 | a panel without users is in sync, so every run can begin |
| `CoreRuns.MissingUntilRebuilt` | app/xray/config.py:392-394 | a row whose liveness changed without a call is right exactly when no inbound carries the user |
| `CoreRuns.PeriodicResetInSyncIff` | app/jobs/reset_user_data_usage.py:35-38 | the reset job keeps the cores right exactly for users that were active or that no inbound carries |
| `CoreRuns.PeriodicResetForgets` | app/jobs/reset_user_data_usage.py:35-38 | and it does go wrong: one inbound, one core, one limited user |
| `CoreRuns.RevokeInSyncIff` | app/routers/user.py:200-203 | a revocation keeps them right exactly when it does not find a live user over its limit or time, or nobody carries the user |
| `CoreRuns.RevocationForgets` | app/routers/user.py:200-203 | and it does go wrong: one inbound, one core, one active user over its limit |
| `Traffic.GetUsersStats` | app/jobs/record_usages.py:111-119 | every reported prefix once, with the sum of all its counters; silent users are left out |
| `Traffic.StatsFindOwner` | app/jobs/record_usages.py:111-119 | each user is charged its own counters and nobody else's, dots in names or not |
| `Traffic.EntriesCharge` | app/jobs/record_usages.py:170-175 | what a core's report charges a user is the sum of that user's own counters there, weighted and cut to whole bytes once |
| `Traffic.OneEntry` | app/jobs/record_usages.py:171-175 | one entry: bytes times coefficient, cut toward zero for the counter and exact in the row of the report's hour and node |
| `Traffic.Existing` | app/jobs/record_usages.py:58-60 | exactly the users that have a row for that hour and node |
| `Traffic.InsertMissing` | app/jobs/record_usages.py:58-76 | one row for every reported user, even one reported twice, no sum changed, no other row added |
| `Traffic.AddUsage` | app/jobs/record_usages.py:78-84 | every sum of rows grows by exactly the weighed entries that fall into it |
| `Traffic.RecordUserStats` | app/jobs/record_usages.py:49-84 | both, keeping at most one row per hour, user and node, the null node included |
| `Traffic.BumpTotal` | app/jobs/record_usages.py:79-84 | updating the one row of a key adds the amount once to every sum that contains it |
| `Traffic.WithoutTotal` | app/db/crud.py:564-564 | clearing a user's rows zeroes that user's sum and no other |
| `Database.UsersUsage` | app/jobs/record_usages.py:170-175 | users_usage holds every mentioned user once, with the sum of its truncated weighted reports over all cores |
| `Database.AdminUsage` | app/jobs/record_usages.py:182-186 | admin_usage holds for every admin the charges of the users it owns |
| `Database.ChargeUsers` | app/jobs/record_usages.py:188-197 | exactly the charged users that exist get their charge and the time |
| `Database.CreditAdmins` | app/jobs/record_usages.py:199-204 | every existing admin grows by its total |
| `Database.RecordAllStats` | app/jobs/record_usages.py:214-215 | after all cores every sum of rows has grown by all weights and no key has two rows |
| `Database.Session.RecordUserUsages` | app/jobs/record_usages.py:149-215 | each user grows by its values from the main core and from the other daemon in full and by its truncated weights over the nodes, is marked online exactly if mentioned, and changes in nothing else; each admin gets what its users were charged; if rows are kept, the row without a node grows by the first two and every sum of rows by the exact weights |
| `Database.AllReportsCount` | app/jobs/record_usages.py:144-176 | the reports of a pass charge, mention and weigh every user exactly as the main list, the other daemon's list and the nodes do together |
| `Database.RecordedGrows` | app/jobs/record_usages.py:165-200 | what any recorded pass leaves of each user and of the row without a node |
| `Database.Session.ResetUserDataUsage` | app/db/crud.py:546-575 | lifetime traffic is kept, the counter and the sum of the hourly rows are both zero, the plan is gone, the status is active unless it was expired or disabled, no other user is touched, and rows still agree with counters |
| `Database.Session.ResetUserByNext` | app/db/crud.py:578-613 | a plan that takes effect starts the traffic anew under its own limit and expiry, keeping lifetime traffic; one that fails leaves everything as it was |
| `Database.EditProxies` | app/db/crud.py:453-474 | proxies written, the unmentioned deleted, exclusions set |
| `Database.EditStatus` | app/db/crud.py:476-509 | status, limit and expiry as the fields in their order decide |
| `Database.Session.UpdateUser` | app/db/crud.py:441-543 | the whole edited row; no traffic moves, no other user is touched, rows still agree with counters |
| `Database.Session.RemoveUser` | app/db/crud.py:411-424 | the user and its hourly rows go, every other row and sum stays, rows still agree with counters |
| `Database.Session.UpdateUserStatus` | app/db/crud.py:920-936 | lifetime traffic is kept, no other user is touched, rows still agree with counters |
| `Database.Session.StartUserExpire` | app/db/crud.py:957-974 | the new expiry is the whole seconds of the clock plus the row's duration, which is used up with the timeout; fails exactly without a duration; no traffic moves |
| `Database.Session.ReviewActive` | app/jobs/review_users.py:58-89 | an active user, from its row alone: a due plan, the limit, the expiry or nothing, and when it fails |
| `Database.Session.ReviewOnHold` | app/jobs/review_users.py:91-115 | a user on hold, from its row alone: begun with the full duration exactly if it was online since its last edit or creation or its timeout has passed, and when it fails |
| `Database.Session.Review` | app/jobs/review_users.py:54-115 | the pass is the per-user verdicts in any order; it fails exactly if some user makes it fail, and otherwise reaches everyone |
| `TrafficRuns.ReportShortfall` | app/jobs/record_usages.py:172-174 | the charge of one core falls short of the exact weight by less than a byte per entry, and never exceeds it |
| `TrafficRuns.PassShortfall` | app/jobs/record_usages.py:170-175 | the same for a whole pass over all cores |
| `TrafficRuns.PassExact` | app/jobs/record_usages.py:170-175 | with whole coefficients nothing is lost |
| `TrafficRuns.PerformWrites` | app/db/crud.py:441-612 | what an edit, a reset, a plan, a status change and a start of expiry leave of the row, of every other row and of the hourly rows |
| `TrafficRuns.StepAgrees` | app/db/crud.py:546-613 | recording, reset, plan, edit, review, creation and deletion keep rows and counters in agreement |
| `TrafficRuns.EveryRunAgrees` | app/jobs/record_usages.py:49-84 | in every run every counter is the sum of its user's hourly rows, and no key ever has two rows |
| `TrafficRuns.StepLifetime` | app/db/models.py:125-130 | each step changes lifetime traffic by exactly what it charged |
| `TrafficRuns.LifetimeConserved` | app/db/models.py:125-130 | over every run lifetime traffic grows by exactly the recorded charges |
| `TrafficRuns.CountersReachLifetime` | app/jobs/record_usages.py:111-204 | from the cores' counters to the account: a pass grows a user's lifetime traffic by exactly its own counters on every core, weighted and cut per core |
| `TrafficRuns.AdminsGetTheirUsers` | app/jobs/record_usages.py:182-204 | a pass credits each admin with exactly the lifetime growth of its own users |
| `ReviewRuns.JudgeOutcome` | app/jobs/review_users.py:58-110 | status and plan after a pass, each as an if-and-only-if of the limit, expiry, plan, online time and timeout in the row before |
| `ReviewRuns.ExpiresOnTime` | app/jobs/review_users.py:58-77 | along any passes and traffic within the limit, an active user without a plan that would fire is expired exactly if some pass came at its expiry or later |
| `ReviewRuns.HoldRunsItsCourse` | app/db/crud.py:957-973 | a hold that ended is not expired by any pass before its whole duration has run from then on, and is by the first one after |
| `ReviewRuns.StillActiveIsInOrder` | app/jobs/review_users.py:58-81 | still active without a plan fired means under the limit and unexpired |
| `ReviewRuns.PassLeavesOrder` | app/jobs/review_users.py:54-110 | that, for every user a pass reached |
| `ReviewRuns.CrashIff` | app/db/crud.py:602-604 | a pass fails on a user exactly for a due plan without expiry or with carry-over from an unlimited user, or a finished hold without duration |
| `ReviewRuns.JudgeDescends` | app/jobs/review_users.py:54-115 | every change of status or plan uses up a measure of at most three |
| `ReviewRuns.AtMostThreeChanges` | app/jobs/review_users.py:54-115 | over any run of reviews and recordings a user changes at most three times |
| `ReviewRuns.ThreeChangesHappen` | app/jobs/review_users.py:54-115 | three is reached |
| `ReviewRuns.WellFormedRunsNeverFail` | app/jobs/review_users.py:46-115 | with well-formed plans and holds no pass of such a run fails |
| `RateLimit.SortedRecent` | app/utils/rate_limit.py:56-59 | in a sorted list at least n are recent exactly when the n-th newest is |
| `RateLimit.TailCounts` | app/utils/rate_limit.py:35-38 | the stored end of a history counts the same recent failures as the whole |
| `RateLimit.Prune` | app/utils/rate_limit.py:35-38 | drops exactly the leading stale entries |
| `RateLimit.KeptIsRecent` | app/utils/rate_limit.py:51-59 | what pruning leaves is the recent part of the full history, oldest first |
| `RateLimit.RetryFacts` | app/utils/rate_limit.py:46-54 | deleting an emptied key or keeping the pruned list both still track the history |
| `RateLimit.RecordFacts` | app/utils/rate_limit.py:66-73 | appending and dropping stale keys still tracks the history |
| `RateLimit.StoredIsRecent` | app/utils/rate_limit.py:70-73 | a key that is stored with a fresh last entry has a failure in the window, and one that is not stored has none |
| `RateLimit.SlidingWindowRateLimiter.constructor` | app/utils/rate_limit.py:21-29 | empty, at the zero of the monotonic clock, so that runs can begin |
| `RateLimit.SlidingWindowRateLimiter.RetryAfter` | app/utils/rate_limit.py:40-59 | blocked exactly when the full history since the last reset or eviction has at least `attempts` failures in the window; the wait is for the oldest of them; only the key's own stale entries go |
| `RateLimit.SlidingWindowRateLimiter.RecordFailure` | app/utils/rate_limit.py:61-75 | the failure enters the history, the table stays within its cap by a proper eviction, and then holds exactly the keys with a failure in the window since their last reset or eviction |
| `RateLimit.SlidingWindowRateLimiter.ResetKey` | app/utils/rate_limit.py:102-104 | forgets one key |
| `RateLimit.SlidingWindowRateLimiter.Clear` | app/utils/rate_limit.py:106-108 | forgets all keys |
| `RateLimit.SortedKeys` | app/utils/rate_limit.py:90-94 | all keys by priority, keys of one priority in the insertion order of the dictionary |
| `RateLimit.WalkKeys` | app/utils/rate_limit.py:94-100 | the deletion loop over the sorted keys |
| `RateLimit.WalkEvicts` | app/utils/rate_limit.py:77-100 | the walk keeps at most the cap, spares the key just recorded and drops lowest priority first |
| `RateLimit.FullGoLast` | app/utils/rate_limit.py:77-100 | a key that holds `attempts` entries, stale ones included, is dropped only if every other survivor does too |
| `RateLimit.BlockedGoLastIff` | app/utils/rate_limit.py:80-85 | when a key that is blocking now is dropped, every other survivor is blocking now exactly if none of them is full of failures that have left the window |
| `RateLimit.BlockedKeyDropped` | app/utils/rate_limit.py:77-100 | and it does go wrong: a run of the class in which a blocking key loses its block and one that is not blocking stays |
| `RateLimit.Evict` | app/utils/rate_limit.py:77-100 | the table after eviction still tracks the history of every key left |
| `RateLimit.WaitIsTight` | app/utils/rate_limit.py:59-59 | the wait exceeds the true remaining time by at most a second and the window by at most one |
| `RateLimit.WaitFreesIff` | app/utils/rate_limit.py:56-59 | the wait frees exactly when the attempts-th newest failure has at most the oldest recent one's whole remaining seconds, plus one, left in the window |
| `RateLimit.WaitFrees` | app/utils/rate_limit.py:56-59 | with exactly `attempts` recent failures the wait frees |
| `RateLimit.WaitTooShort` | app/utils/rate_limit.py:56-59 | with more it may not: a run of the class in which a caller waits as told and is still blocked |
| `RateLimit.NeverOverLimit` | app/routers/admin.py:71-82 | failures recorded only after a zero answer never exceed `attempts` in a window |
| `RateLimit.DisciplinedWaitFrees` | app/routers/admin.py:71-82 | under that discipline the wait always frees |
| `Devices.LimitUnderInterleaving` | app/dependencies.py:102-119 | every interleaving of k fetches keeps at most limit + k - 1 devices, the limit itself for k = 1 |
| `Devices.NeverTwice` | app/db/models.py:195-197 | no hardware id is ever registered twice |
| `Devices.KnownIsServed` | app/dependencies.py:110-111 | a device registered when its request arrives is never refused, in any interleaving in which nobody takes it away |
| `Devices.SoloRefusesStrangersOnly` | app/dependencies.py:113-117 | one fetch at a time, no count ever refuses a registered device |
| `Devices.SameDeviceRace` | app/db/crud.py:692-717 | with one place left, in any table, two fetches of one new device: one registers it and the other is refused |
| `Devices.BothServedIff` | app/dependencies.py:102-119 | two simultaneous fetches of one new device are let through in every interleaving exactly if the table has room for two |
| `Devices.KnownNeverRefusedIff` | app/db/crud.py:692-717 | from an empty table, under any limit, no run refuses a registered device exactly if at most one fetch is in flight |
| `Devices.LimitIsReached` | app/dependencies.py:102-119 | limit + k - 1 is reached, for every limit and k |
| `Devices.DeviceTable.EnforceDeviceLimit` | app/dependencies.py:88-119 | one undisturbed fetch, from the user's own limit or else the default, zero or less meaning none: no limit, no identity, known, full or registered |
| `Devices.FetchIsARun` | app/dependencies.py:102-119 | that fetch is one path through the interleaved steps |
| `SettingsCache.StepKeepsInv` | app/hysteria/settings.py:140-173 | every step of every thread keeps the cache no older than the last completed invalidation |
| `SettingsCache.RunKeepsInv` | app/hysteria/settings.py:140-173 | in every interleaving the cache stays between the last completed invalidation and the newest commit |
| `SettingsCache.FreshAfterSave` | app/hysteria/settings.py:263-267 | in any interleaving, saves pending or not, a read begun after a save's invalidation never answers with older settings than that save |
| `SettingsCache.RunKeepsCurrent` | app/hysteria/settings.py:140-173 | in every interleaving, while no save stands between its commit and its clearing step, a cached value and a loaded one are the newest commit |
| `SettingsCache.ReadsNewest` | app/hysteria/settings.py:155-173 | from the start states, at every such moment the cache holds the newest commit or nothing, and either bare read answers with the newest commit or None |
| `SettingsCache.QuietCurrentIsNewest` | app/hysteria/settings.py:155-173 | a `current()` that begins at such a moment, and during which nothing is committed, answers with no value but the newest commit |
| `SettingsCache.AloneAnswersNewest` | app/hysteria/settings.py:146-173 | one undisturbed `current()` at such a moment answers with the newest commit, out of the cache or loaded into it |
| `SettingsCache.FirstCurrentLoads` | app/hysteria/settings.py:146-173 | the first `current()` of a panel just started answers with what the database holds |
| `SettingsCache.FailedLoadAnswers` | app/hysteria/settings.py:164-172 | a load that raises answers with the fallback, frees the lock and leaves the cache |
| `SettingsCache.NeverStuck` | app/hysteria/settings.py:140-173 | in every interleaving a thread that has not answered can move, or waits for the lock of one that can |
| `SettingsCache.SaveReturnsItsOwn` | app/hysteria/settings.py:263-267 | a save never returns settings older than its own commit |
| `SettingsCache.SaveAloneAnswersItself` | app/hysteria/settings.py:263-267 | one undisturbed save, whatever the cache held, commits the next version, clears the cache and answers with its own settings |
| `SettingsCache.MissingNeedsInvalidation` | app/hysteria/settings.py:155-173 | a `current()` during whose whole span no save clears the cache never answers None, in any interleaving |
| `SettingsCache.CurrentCanReturnNone` | app/hysteria/settings.py:155-173 | and that happens: a concrete interleaving |
| `SettingsCache.NoneAnsweredIff` | app/hysteria/settings.py:155-173 | no run with at most m saves answers None exactly if m is zero |
| `SettingsCache.StartKeepsInv` | app/hysteria/settings.py:140-173 | the panel starts in a state the invariant allows |
| `Paths.NormalisePath` | app/utils/backup.py:701-718 | the loop computes the normalised path |
| `Paths.NormaliseGood` | app/utils/backup.py:701-718 | for every path the result is empty or made of segments that neither climb nor restart nor hold a backslash |
| `Paths.NormaliseFixedIff` | app/utils/backup.py:701-718 | exactly the benign paths are left alone |
| `Paths.BackslashSeparates` | app/utils/backup.py:708-708 | a backslash separates as a slash does |
| `Paths.DrivesRefused` | app/utils/backup.py:709-710 | a path that names a drive is refused, whatever follows |
| `Paths.ResolveSteps` | app/utils/backup.py:1101-1101 | in the configured directory, two dots take back the name before them and nothing at the root; a dot and a repeated slash mean nothing |
| `Paths.LandsBelow` | app/utils/backup.py:1101-1101 | a normalised path lands below the root at exactly the segments it names |
| `Paths.InsideIff` | app/utils/backup.py:1101-1107 | the containment check passes for every normalised path, exactly unless the root begins with two slashes |
| `Backup.CommonDirectory` | app/utils/backup.py:731-744 | the one top directory all usable members sit under, empty exactly if there is none |
| `Backup.CommonUnique` | app/utils/backup.py:731-744 | there is only one right answer |
| `Backup.ClassifyMember` | app/utils/backup.py:790-823 | where one member goes: its slot, its rank as a database and its place as a data file, the wrapper folder and known prefixes dropped |
| `Backup.BuildPlan` | app/utils/backup.py:785-825 | the plan is the members classified in order under the right top directory |
| `Plans.DatabaseIsBest` | app/utils/backup.py:764-812 | in both families the slot holds the first member of maximal rank, empty only without candidates |
| `Plans.RankOrder` | app/utils/backup.py:764-777 | which of two members ranks higher, from their names: the database folder, then a panel's own database names, then the root |
| `Plans.DatabaseNames` | app/utils/backup.py:52-52 | any name with one of the three suffixes is a database, whatever stands in front |
| `Plans.DumpNames` | app/utils/backup.py:53-53 | any name with one of the two suffixes is a dump |
| `Plans.OtherNames` | app/utils/backup.py:797-819 | three names have slots of their own, and every name that is neither one of them nor like a database's is plain data |
| `Plans.CapitalsToo` | app/utils/backup.py:793-794 | capitals in a base name make no difference |
| `Plans.KnownDropped` | app/utils/backup.py:721-728 | the data directory of another panel in front of a path is dropped, whichever it is, and nothing else |
| `Plans.PlansStayInside` | app/utils/backup.py:820-823 | for every archive each planned file lands below the data directory, and when the check fires |
| `BackupRoundTrip.FixedMembersPlan` | app/utils/backup.py:574-586 | manifest, dump, environment and core configuration go to their own slots |
| `BackupRoundTrip.LayoutHasNoWrapper` | app/utils/backup.py:577-577 | the manifest at the root rules out a wrapper directory |
| `BackupRoundTrip.DataPlaceIff` | app/utils/backup.py:587-593 | a data file finds its own path again exactly if that path is benign |
| `BackupRoundTrip.BackupRoundTripIff` | app/utils/backup.py:785-825 | the whole layout reads back as written exactly if every data file is benign and no other slot claims its name |
| `BackupRoundTrip.OwnSlotsStand` | app/utils/backup.py:764-818 | whatever data files are called, they never displace what the backup itself put in a slot |
| `Wrapped.BelowNormalise` | app/utils/backup.py:701-718 | below a folder a path normalises to the folder and what it normalised to |
| `Wrapped.SameMember` | app/utils/backup.py:721-728 | a member of the wrapper folder has the role, the rank and the place it had without it |
| `Wrapped.WrapIsCommon` | app/utils/backup.py:731-744 | the wrapper folder is found |
| `Wrapped.WrapPlansSame` | app/utils/backup.py:785-825 | an archive packed in one folder is planned like the archive without it: same slots, ranks, sizes and destinations, every member named inside the folder |
| `Wrapped.WrappedRoundTrip` | app/utils/backup.py:721-744 | a backup packed in any one folder reads back as it does without, its data files to their own paths exactly when they do without |
| `Restore.RestoreData` | app/utils/backup.py:1097-1117 | the loop's files on disk, skipped list and byte count |
| `Restore.WrittenIff` | app/utils/backup.py:1097-1117 | the next file is written exactly if it lands inside, is small enough, fits the budget beside the bytes already written, and does not fail; else it is skipped |
| `Restore.EveryFileAccounted` | app/utils/backup.py:1097-1117 | every planned file is written or listed as skipped, and the bytes written stay within the budget |
| `Restore.RestoreStaysInside` | app/utils/backup.py:1101-1112 | for every archive nothing outside the data directory changes |
| `Restore.DoubledWritesNothing` | app/utils/backup.py:1105-1107 | with a root of two slashes nothing is written |
| `Restore.BackupRestores` | app/utils/backup.py:574-593 | backup, classification and restore together put every data file back in its place |
| `Utf8.RoundTrip` | app/utils/jwt.py:132-132 | every string survives encoding and decoding |
| `Utf8.Vectors` | app/utils/jwt.py:132-132 | the encoding gives the bytes of the examples in section 7 of RFC 3629 |
| `Base64Url.EncodeIsBare` | app/utils/jwt.py:97-98 | stripping the padding removes the padding and nothing else |
| `Base64Url.RoundTrip` | app/utils/jwt.py:97-103 | decoding inverts encoding on every byte string |
| `Base64Url.Vectors` | app/utils/jwt.py:97-98 | the encoding gives the test vectors in section 10 of RFC 4648, padding dropped |
| `Base64Url.WholeVectors` | app/utils/jwt.py:97-98 | and uses the two characters of the safe alphabet |
| `Tokens.ParsePrinted` | app/utils/jwt.py:136-142 | reading a printed time gives it back |
| `Tokens.ParseLoose` | app/utils/jwt.py:136-136 | a plus sign or white space in front of a number is read over |
| `Tokens.NeverJwtHeader` | app/utils/jwt.py:152-157 | no payload ever encodes to the JWT header |
| `Tokens.TokenRoundTrip` | app/utils/jwt.py:141-163 | an issued token reads back as its user and time, exactly for non-empty names and times from year 1 to 9999, commas and dots included |
| `Tokens.TokenInjective` | app/utils/jwt.py:141-144 | no two users or times share a token |
| `Tokens.AcceptedIff` | app/utils/jwt.py:159-163 | beside JWT, under either setting, exactly data followed by its own signature is accepted: behind a dot, or in the older format while that is honoured and long enough |
| `Tokens.RaisedIff` | app/utils/jwt.py:159-171 | beside JWT a TypeError leaves the function exactly if the text in the signature's place is compared and is not ASCII |
| `Tokens.JwtIsForwarded` | app/utils/jwt.py:152-157 | whatever begins like a JWT is left to that library |
| `Tokens.SomethingRaises` | app/utils/jwt.py:159-162 | and that happens: a concrete token |
| `Tokens.LegacyRoundTrip` | app/utils/jwt.py:165-176 | tokens of the older format read back exactly while honoured and when the text has four bytes or more |
| `Sysctl.ValidateIdempotent` | app/utils/sysctl.py:153-169 | an accepted value is accepted unchanged |
| `Sysctl.ValidatedIsAccepted` | app/utils/sysctl.py:172-175 | everything validate_many returns is accepted, for every key given |
| `Sysctl.ValidateOutcome` | app/utils/sysctl.py:153-169 | the words of the value with single spaces between them, exactly for a key of the catalogue and a value that fits its kind, and otherwise which error |
| `Sysctl.AllPassIff` | app/utils/sysctl.py:172-175 | many settings are accepted exactly if each of them is |
| `Sysctl.FirstRefused` | app/utils/sysctl.py:172-175 | otherwise the error is that of the first one refused |
| `Sysctl.LastGivenStands` | app/utils/sysctl.py:172-175 | every key given has its validated value, the last one if it was given twice |
| `Sysctl.NothingGiven` | app/utils/sysctl.py:173-174 | no settings at all are an error |
| `Sysctl.IntAcceptedIff` | app/utils/sysctl.py:28-28 | a number is up to nineteen digits, with a minus sign or without |
| `Sysctl.NumberAcceptedIff` | app/utils/sysctl.py:28-28 | every integer below ten to the nineteenth is accepted as printed, of either sign, and none beyond |
| `Sysctl.IntsAcceptedIff` | app/utils/sysctl.py:29-29 | a list is one to eight numbers with single spaces between |
| `Sysctl.NameAcceptedIff` | app/utils/sysctl.py:30-30 | a name is up to 32 letters, digits, underscores, dots and dashes, the last two not in front |
| `Sysctl.ValuePlain` | app/utils/sysctl.py:27-31 | no accepted value holds a comment sign or a line break |
| `Sysctl.SectionTitles` | app/utils/sysctl_catalog.py:278-281 | the sections that hold a tunable, in order |
| `Sysctl.TitlesAre` | app/utils/sysctl_catalog.py:278-281 | those titles are the sections some tunable belongs to |
| `Sysctl.BlockShape` | app/utils/sysctl.py:178-187 | a section is a blank line, its title as a comment, and a line for each tunable of it that has a value, and nothing if there is none |
| `Sysctl.Render` | app/utils/sysctl.py:178-187 | the text is the header and one block per section with settings, line by line |
| `Sysctl.ManagedValues` | app/utils/sysctl.py:285-300 | the loop folds the settings of the lines, later ones winning |
| `Sysctl.FileLinesGood` | app/utils/sysctl.py:178-187 | every line of the file is blank, a comment, or one setting of the map |
| `Sysctl.SettingLineSets` | app/utils/sysctl.py:291-297 | a printed setting parses to exactly its key and value |
| `Sysctl.FileReadsBack` | app/utils/sysctl.py:285-300 | the file reads back as the settings whose section has a title |
| `Sysctl.SysctlRoundTrip` | app/utils/sysctl.py:172-187 | whatever validate_many accepts is read back unchanged exactly if every key's section has a title |
| `Remarks.CandidateInjective` | app/subscription/clash.py:71-76 | different counters give different names |
| `Remarks.Pigeonhole` | app/subscription/clash.py:71-76 | taken candidates cannot outnumber the remarks |
| `Remarks.RemarkValidation` | app/subscription/clash.py:68-76 | terminates with the first free name, counter at most the number of remarks plus one |
| `Remarks.ClashConfiguration.Add` | app/subscription/clash.py:256-298 | remarks stay pairwise distinct, the name is the first free one, and exactly when a proxy is added |
| `Remarks.SingBoxConfiguration.Add` | app/subscription/singbox.py:291-341 | remarks stay pairwise distinct; all tags stay distinct exactly if the name chosen for the remark is not a tag of the template |
| `Remarks.TemplateClash` | app/subscription/singbox.py:38-49 | and a remark can repeat a template tag: a concrete template and remark |
| `Notifications.Drain` | app/jobs/send_notifications.py:62-72 | ends with an empty queue although others append meanwhile, every taken item due, and nothing lost |
| `Notifications.Requeue` | app/jobs/send_notifications.py:76-83 | after a failed send, exactly the items with tries left go back, counted and delayed |
| `Notifications.RequeuedIs` | app/jobs/send_notifications.py:76-83 | what is put back comes from the batch with one more try counted, none beyond the limit, and is not due before the delay has passed from a reading after the send |
| `Notifications.BatchAccounted` | app/jobs/send_notifications.py:74-83 | whatever the webhooks answer, the books balance |
| `Notifications.PassAccounted` | app/jobs/send_notifications.py:58-83 | with arrivals before, during and after the drain, the books of a whole pass balance |
| `Notifications.Dispatcher.Enqueue` | app/utils/notification.py:109-111 | a new notification enters queue and books |
| `Notifications.Dispatcher.SendNotifications` | app/jobs/send_notifications.py:58-83 | while other threads enqueue, a pass attempts everything queued or arrived early enough exactly once more, and keeps the rest queued |
| `Notifications.NothingLost` | app/jobs/send_notifications.py:58-83 | at most N + 1 attempts, and leaving only acknowledged or after N + 1 failures |
| `Notifications.NothingThrownAwayIff` | app/jobs/send_notifications.py:64-66 | untried notifications survive exactly for a retry limit that is not negative |

## Left out

- Routers, Telegram, Discord, the command line and the dashboard; app/routers/user.py is used only for the order of a database change and its core call.
- gRPC, rpyc, TLS, process supervision and the protobuf messages of the core's API; a core is its account table, so a Trojan flow that the message drops is not visible.
- API faults (unknown tags, lost connections); in the account tables, clients written by hand into the configuration file.
- XrayConfig.Config.IncludeDbUsers: a tag that an inbound shares with an earlier entry the panel does not manage, where the lookup by tag finds that entry.
- Overlapping core calls for one and the same user, and nodes joining in the middle of a call.
- SQLAlchemy sessions and transactions, MySQL's INSERT IGNORE and deadlock retries, and column rounding of fractional hourly traffic.
- Reuse of a deleted user's id while rows bear it; a new user is created under an id without rows.
- Node removal, system totals, node totals (record_node_usages) and the reset-all, enable-all and disable-all operations.
- Notification reminders, last_status_change, notes and other fields no property depends on.
- HMAC, SHA-256, JWT and key generation: function parameters; forging is not reasoned about.
- Stream-settings copying in app/xray/config.py and link rendering in app/subscription/v2ray.py: long case splits without state.
- Unicode digits in sysctl values and token times, Unicode lower-casing of member names, integers beyond Python's 4300-digit limit, and the translation of carriage returns when a file is opened as text.
- Tar and zip reading, file permissions and the contents of members; a manifest is whatever its parser returns.
- Times sampled before the lock of the rate limiter; calls are atomic with times that do not decrease.
- Users.ChangesKeepLifetime: the data limit a next plan gives is modelled as coded and not judged; its carry-over flag looks inverted.
- Loads of the settings cache that raise: the fallback to the environment file is outside the freshness statement.
- Pruning of old backups, the scheduler and the retention of archives.

# Verified models of the recruitment platform

Dafny models of the parts of the platform whose correctness spans many calls, many rows or
many concurrent requests, with proofs of what those parts promise. `dafny verify
dfyconfig.toml` checks everything; there is one module per file.

| modules | what they model |
|---|---|
| `LoadOrder`, `Loader`, `Migration`, `LostParents` | the legacy-data migration: the planner that orders tables and breaks foreign-key cycles, the cleaning of rows, and the two-pass load against a database that enforces foreign and primary keys; two databases on which it falls short of its own description |
| `OfflineQueue`, `OfflineSync` | the persistent queue of mutations made offline, and any number of overlapping replay loops over it |
| `Sessions`, `AuthService` | refresh-token rotation over the session table, interleaved with replays, logouts, deactivations and role changes |
| `Otp`, `OtpRuns`, `RegistrationService` | registration codes in Redis: the atomic verify script, issue, expiry and the send cooldown, over all handles of an address; registering, resending and verifying on top of them |
| `Accounts`, `AccountService` | the four paths that write logins, the three resolvers of a login's identity, and concurrent employer review |
| `Wrappers`, `Sequences`, `Text` | optional values, permutations, and trimming, joining and splitting of text, shared by the others |
| `CsvExport`, `Skills`, `SseStream`, `InstituteKey` | printers and parsers: the CSV export, the key-skills column, the event-stream line splitter, the institution search key |
| `IstCalendar`, `StageFilter` | calendar arithmetic on Indian Standard Time, and the pipeline's stage filter under SQL's three-valued logic |

Conventions that hold throughout:

- Time is an integer: milliseconds for calendars, seconds for Redis expiry. Redis, PostgreSQL
  and localStorage are maps. One Redis command or script, one SQL statement outside a
  transaction, and one transaction are each one atomic step; asynchronous methods are split at
  their awaits, and runs are arbitrary sequences of enabled steps, crashes included.
- Code that changes state is a class whose methods are proved against a specification
  function or against the steps of a machine; what the source promises is then proved about
  that function or about every run of that machine.
- Random ids, signatures and hashes are fresh ids and uninterpreted functions: a method that
  mints an id takes it as a parameter and requires it to be unused.

Where the code and its own words disagree, the model follows the code:

- The header of `apps/api/prisma/migrate-data.ts` says that a row whose parent is missing has
  the key nulled or is skipped and reported, and that nothing is dropped in silence. But a
  skipped row still counts as a parent when its own children are checked, because the check
  reads the legacy table (lines 139-144), so such a child is neither nulled nor skipped. If its
  key is not deferred, the database refuses the dangling key and the run ends
  (`LostParents.MigrateCascade`); if it is deferred, the second pass leaves the column NULL, as
  its own comment says, and counts it neither as nulled nor as skipped
  (`LostParents.MigrateCycle`). `Migration.Migrate` with
  `Loader.FirstPassIffNoActiveLoss` says exactly when the first happens, and
  `Loader.LoadedRowExact` to exactly which references the second happens.
  `Loader.ConsistentIffNoLostParent` says exactly when neither does.
- The comment above the cycle-breaking step (lines 76-79) calls the leftover tables a cycle.
  They are the tables that lead to a cycle, which includes tables downstream of one, so a
  deferred key need not lie on a cycle itself.
- A comment in `apps/api/src/modules/auth/auth.service.ts` (line 671) says that a password
  change kills every live session. It deletes the rows there are; a login or refresh in flight
  still mints one afterwards (`Sessions.ResetSparesRefresh`), though no row from before the
  reset survives (`Sessions.ResetLeavesNewSessions`).
- The comment on key skills (lines 775-777 of
  `apps/api/src/modules/candidates/candidates.service.ts`) says that what was typed is what is
  read back. When the first name alone exceeds the column, nothing is stored and the editor
  falls back on the tag index, which shows only names the master list knows
  (`Skills.NothingStoredIffFirstTooLong`, `Skills.SaveAndRead`).
- The comment on writing a list as text (lines 453-458 there) speaks of an inverse. A name that
  holds a comma reads back as several, which `Skills.ReadBackIffCommaFree` makes exact.
- Section 2 of RFC 4180 lets the last record go without a final line break or have one. The
  export never writes one, so a reader that treats a final line break as closing the last
  record loses a last row that is a lone empty cell (`CsvExport.ClosedReaderRoundTrip`).

## Model

| member | source | states |
|---|---|---|
| `LoadOrder.LoadOrder` | apps/api/prisma/migrate-data.ts:50-87 | Planning succeeds if and only if the NOT NULL keys between distinct live tables form no cycle. Then the order is a permutation of the tables, every undeferred parent stands strictly before its child, and the deferred keys are exactly those the code's rule picks one after the other. A failure names exactly the tables that lead to a cycle of NOT NULL keys. Both nested loops end |
| `LoadOrder.NotNullArcs` | apps/api/prisma/migrate-data.ts:55-62 | The graph the plan is decided on, told from the key file: an arc for each NOT NULL key between two distinct live tables, and no other |
| `LoadOrder.BuildDeps` | apps/api/prisma/migrate-data.ts:60-62 | A table's dependency set holds exactly the parents it reaches by one undeferred key |
| `LoadOrder.Settle` | apps/api/prisma/migrate-data.ts:64-73 | The layered sort lists what it settles once, parents first, and whatever is left over is held by a parent that is left over too |
| `LoadOrder.FindBreakable` | apps/api/prisma/migrate-data.ts:80-83 | The first undeferred nullable key between two stuck tables, or none if there is none |
| `LoadOrder.StuckLeadsToCycle` | apps/api/prisma/migrate-data.ts:64-79 | A table is left over by the layered sort if and only if its undeferred keys lead it to a cycle |
| `LoadOrder.NoSinkLeadsToCycle` | apps/api/prisma/migrate-data.ts:76-79 | In a finite set where everyone has a parent in the set, every walk can be prolonged into a cycle |
| `LoadOrder.OrderedIsAcyclic` | apps/api/prisma/migrate-data.ts:66-74 | A graph that can be put parents first has no cycle |
| `LoadOrder.UnbreakableIsNotNullCycle` | apps/api/prisma/migrate-data.ts:80-84 | When nothing is breakable, each stuck table leads to a cycle made of NOT NULL keys alone, so no choice of deferrals would have helped |
| `LoadOrder.NotNullKeysStayActive` | apps/api/prisma/migrate-data.ts:80-85 | A NOT NULL key is never deferred |
| `LoadOrder.DeferNext` | apps/api/prisma/migrate-data.ts:80-85 | Deferring the key found keeps the record that every deferral was the first breakable key at its turn |
| `LoadOrder.DeferredBounded` | apps/api/prisma/migrate-data.ts:59-86 | The outer loop's measure: deferred keys are pairwise different, so there are no more of them than edges |
| `LoadOrder.DeferralsDetermined` | apps/api/prisma/migrate-data.ts:59-86 | The rule leaves no choice: two lists of deferrals made by it that both leave no cycle are the same list |
| `Loader.CleaningIsExact` | apps/api/prisma/migrate-data.ts:158-182 | Cleaning clears a column if and only if it holds a sentinel zero or a nullable orphan; every other value is left as it was, but for the password column, which PasswordIsHashed states |
| `Loader.PasswordIsHashed` | apps/api/prisma/migrate-data.ts:180-182 | A legacy password that is a non-empty text is replaced by its hash; an empty one or a number stays as it was |
| `Loader.LoadedPasswordsAreHashed` | apps/api/prisma/migrate-data.ts:180-241 | Every password left by the two passes comes from hashing a legacy one; Migrate carries it to the database of a finished load |
| `Loader.SkippedIffNotNullOrphan` | apps/api/prisma/migrate-data.ts:162-178 | A row is skipped if and only if a NOT NULL key of it holds a value, no sentinel zero, that names no legacy parent |
| `Loader.CleanRowsConcat` | apps/api/prisma/migrate-data.ts:153-184 | Rows are cleaned one by one, so their order and number of occurrences are kept |
| `Loader.KeptHasNoOrphan` | apps/api/prisma/migrate-data.ts:162-178 | A row that is not skipped carries no orphan: each checked key it still has names a legacy parent row |
| `Loader.CleanRowsMembers` | apps/api/prisma/migrate-data.ts:153-184 | The cleaned rows are exactly the cleaned forms of the rows that are not skipped |
| `Loader.ReferencedKeysStable` | apps/api/prisma/migrate-data.ts:223-244 | Filling deferred keys never changes a referenced column, so every EXISTS check sees the keys of the cleaned parent rows |
| `Loader.FilledRowConsistent` | apps/api/prisma/migrate-data.ts:186-244 | After both passes, each non-null key of a row between distinct tables names a loaded parent row |
| `Loader.FilledIsConsistent` | apps/api/prisma/migrate-data.ts:186-244 | The same for the whole database |
| `Loader.TwoPhaseEqualsDirect` | apps/api/prisma/migrate-data.ts:186-244 | Deferring is invisible: the first pass is accepted and the second ends in exactly the directly inserted rows, if and only if the cleaned rows were consistent to begin with |
| `Loader.ConsistentIffNoLostParent` | apps/api/prisma/migrate-data.ts:139-178 | The cleaned rows are consistent if and only if no kept row references a parent row that was skipped |
| `Loader.FirstPassIffNoActiveLoss` | apps/api/prisma/migrate-data.ts:139-219 | The first pass is consistent if and only if no kept row references a skipped parent through a key that is not deferred |
| `Loader.LoadedRowExact` | apps/api/prisma/migrate-data.ts:186-244 | What both passes make of a cleaned row: it loses exactly its deferred references to skipped parents, and every other column keeps its value |
| `Loader.NoSkipLoadsDirectly` | apps/api/prisma/migrate-data.ts:138-244 | If no parent row is skipped, no foreign key stops the load, which then goes through if and only if no primary key repeats; it ends in the directly inserted rows |
| `Migration.BuildParentKeys` | apps/api/prisma/migrate-data.ts:138-144 | The parent key sets the orphan check uses are those of the legacy tables; a missing parent table is an error |
| `Migration.CleanRow` | apps/api/prisma/migrate-data.ts:154-182 | The in-place cleaning of one row skips and rewrites as the specification says, whatever the order of its foreign keys; a password leaves it hashed |
| `Migration.Migration.constructor` | apps/api/prisma/migrate-data.ts:119-123 | A run starts from an empty target and no saved rows |
| `Migration.Migration.InsertRows` | apps/api/prisma/migrate-data.ts:200-219 | Inserting in chunks of 250 is accepted if and only if one single INSERT would be, and leaves the same rows |
| `Migration.Migration.LoadTable` | apps/api/prisma/migrate-data.ts:129-221 | One table: its cleaned rows with the deferred columns blanked, or a refusal, or a missing parent table, each under exactly its condition; the rows before blanking are saved if and only if something is deferred |
| `Migration.Migration.LoadAll` | apps/api/prisma/migrate-data.ts:125-221 | The first pass goes through if and only if the blanked rows break no key, and then the target holds exactly them |
| `Migration.Migration.FillKey` | apps/api/prisma/migrate-data.ts:225-244 | Filling one deferred key gives every row whose value resolves that value back, and touches no other row or column |
| `Migration.Migration.FillAll` | apps/api/prisma/migrate-data.ts:225-244 | Filling every deferred key, one after the other, ends in the database that has every saved value that resolves |
| `Migration.Migration.Run` | apps/api/prisma/migrate-data.ts:125-244 | Both passes: loaded if and only if the first pass breaks no key; then every saved value that resolves is back, and no key dangles or repeats |
| `Migration.Migrate` | apps/api/prisma/migrate-data.ts:113-244 | The whole migration. It stops before loading anything if and only if the NOT NULL keys form a cycle. The tables named then are exactly those that lead to one. Otherwise, with every parent table present, it is loaded if and only if the first pass breaks no key; when cleaning leaves key columns alone (`KeysUntouched`), that is if and only if no undeferred key of a kept row references a skipped parent and no primary key repeats. A loaded database holds every cleaned row less its unresolved deferred references, with no dangling foreign key between distinct tables and no password as it stood in the legacy data, and equals the direct insert if and only if that breaks no constraint |
| `Migration.ParentsAreLoaded` | apps/api/prisma/migrate-data.ts:129-221 | When a table is inserted, its undeferred parents already hold their final rows, so the check at that moment is the check against the finished pass |
| `Migration.ChunkStep` | apps/api/prisma/migrate-data.ts:200-219 | A chunk is accepted after the earlier ones if and only if they would be accepted together |
| `Migration.KeyNamesOneRow` | apps/api/prisma/migrate-data.ts:227-240 | The WHERE clause on the primary key finds the intended row and no other, however many keys have been filled before |
| `Migration.UpdateFillsOneRow` | apps/api/prisma/migrate-data.ts:233-242 | The UPDATE for one row takes the table from one row less filled to one row more |
| `Migration.GuardedUpdateStep` | apps/api/prisma/migrate-data.ts:233-242 | The UPDATE with its EXISTS guard, run against the half-filled database, fills the next row if and only if its parent row was kept, and touches nothing else |
| `Migration.PlanIsPlanned` | apps/api/prisma/migrate-data.ts:113-119 | Whatever the planner returns is an order and a deferral list the loader can work with |
| `Migration.OneDeferral` | apps/api/prisma/migrate-data.ts:113-119 | A job has one list of deferred keys, so what Migrate says about its deferred keys leaves nothing open |
| `LostParents.SkippedParentBreaksLoad` | apps/api/prisma/migrate-data.ts:139-178 | A plannable database with a well-formed schema whose first pass is inconsistent under every possible plan: a row skipped for a NOT NULL orphan still vouches for its child |
| `LostParents.MigrateCascade` | apps/api/prisma/migrate-data.ts:113-244 | The migration of that database is refused |
| `LostParents.OneOfTwoIsDeferred` | apps/api/prisma/migrate-data.ts:76-85 | Of two keys that run both ways between two tables, every plan defers one |
| `LostParents.MigrateCycle` | apps/api/prisma/migrate-data.ts:113-244 | A database whose migration goes through and loses a reference that is neither nulled as an orphan nor skipped: the key was deferred and its parent row skipped |
| `OfflineQueue.OfflineQueue.Add` | apps/web/src/lib/offlineQueue.ts:18-22 | Appends the mutation and keeps the rest in place |
| `OfflineQueue.WithoutHead` | apps/web/src/lib/offlineQueue.ts:24-27 | With distinct ids, removing the head leaves exactly the tail |
| `OfflineQueue.WithoutKeepsOthers` | apps/web/src/lib/offlineQueue.ts:24-27 | Removing an id keeps every entry with another id, between the same neighbours, and drops every entry with that id |
| `OfflineQueue.WithoutMembers` | apps/web/src/lib/offlineQueue.ts:24-27 | How often each entry is left: as often as before, or not at all if it has the id |
| `OfflineSync.Replay` | apps/web/src/hooks/useOfflineSync.ts:9-24 | An uninterrupted replay removes exactly the answered prefix, sends that prefix and at most the first failing mutation, in order, and is a run of the overlapping-loops machine |
| `OfflineSync.TurnsAndEnd` | apps/web/src/hooks/useOfflineSync.ts:14-23 | A loop that gets k answers and then fails or ends is a run that removes exactly the first k mutations of its snapshot |
| `OfflineSync.AnswerRemovesHead` | apps/web/src/hooks/useOfflineSync.ts:14-18 | A replay loop may lag behind or lead the others: its removal takes the head of the queue or nothing at all |
| `OfflineSync.FirstArrivalIsHead` | apps/web/src/hooks/useOfflineSync.ts:14-18 | A mutation the server has not seen before can only be the one at the head of the queue |
| `OfflineSync.StepKeepsInv` | apps/web/src/hooks/useOfflineSync.ts:9-24 | Enqueues, new loops, late or repeated arrivals, answers and failures all keep the queue invariant |
| `OfflineSync.RunKeepsInv` | apps/web/src/hooks/useOfflineSync.ts:9-24 | So does every run, with any number of overlapping loops |
| `OfflineSync.DeliveredInEnqueueOrder` | apps/web/src/hooks/useOfflineSync.ts:9-24 | In every run the mutations delivered at least once, in order of first delivery, are a prefix of the enqueue order, at most one ahead of what has been removed |
| `OfflineSync.NothingLost` | apps/web/src/hooks/useOfflineSync.ts:9-24 | In every run the queue is the enqueue order less a prefix, and that prefix is exactly what has been delivered and answered |
| `OfflineSync.EnqueuedStays` | apps/web/src/lib/offlineQueue.ts:18-22 | What was enqueued is never dropped from the record, so a mid-replay enqueue is covered too |
| `OfflineSync.TwoLoops` | apps/web/src/hooks/useOfflineSync.ts:9-24 | A run with two loops over one mutation, which reaches the server twice before either loop has its answer |
| `OfflineSync.EnqueueMidReplay` | apps/web/src/lib/offlineQueue.ts:18-22 | Whatever loops are running, a new mutation goes to the end of the queue and into no snapshot |
| `Sessions.StepKeepsInv` | apps/api/src/modules/auth/auth.service.ts:210-262 | Claims, reads, mints, crashes, logouts, replays, registrations, resets and administrative changes keep the session invariant |
| `Sessions.RunKeepsInv` | apps/api/src/modules/auth/auth.service.ts:210-262 | So does every interleaving |
| `Sessions.OneBranchPerLogin` | apps/api/src/modules/auth/auth.service.ts:210-250 | For each login, live session rows plus operations between claim and mint never exceed one, however refreshes, replays and logouts interleave |
| `Sessions.OneSuccessorPerToken` | apps/api/src/modules/auth/auth.service.ts:220-223 | Two tokens minted from the same presented token are the same token, and the presented one is gone for good |
| `Sessions.CrashedMintsNothing` | apps/api/src/modules/auth/auth.service.ts:220-249 | A login or refresh that crashes on the way never mints |
| `Sessions.DeactivationShutsOut` | apps/api/src/modules/admin/admin.service.ts:655-669 | From a deactivation until a reactivation, every live session and every new token of the user comes from a login or refresh that was past its user check at the commit |
| `Sessions.RoleChangeReachesTokens` | apps/api/src/modules/auth/auth.service.ts:234-249 | From a role change until the next, every token minted by an operation that had not yet read the role at the commit carries the new role, or the candidate role if the account has no mapping row for the change to update |
| `Sessions.DeactivationCommits` | apps/api/src/modules/admin/admin.service.ts:655-669 | The deactivating transaction leaves the user inactive and with no session row |
| `Sessions.ChangeCommits` | apps/api/src/modules/admin/admin.service.ts:655-669 | What a change commits: status and role of the named accounts, as asked for and where a mapping exists; their sessions if it deactivates or changes the role, and none otherwise; nothing else |
| `Sessions.ReactivationCommits` | apps/api/src/modules/admin/admin.service.ts:655-669 | A reactivated account is active and can log in again, and a bare reactivation ends no session |
| `Sessions.ResetSparesOthers` | apps/api/src/modules/auth/auth.service.ts:658-673 | A reset ends the user's sessions and nobody else's |
| `Sessions.ResetLeavesNewSessions` | apps/api/src/modules/auth/auth.service.ts:658-673 | After a password reset commits, every live session of the user has been minted since, by a lineage that began after the reset or that had a login or refresh in flight at it |
| `Sessions.ResetSparesRefresh` | apps/api/src/modules/auth/auth.service.ts:658-673 | A run in which a refresh in flight at a password reset mints a live session after it |
| `AuthService.AuthService.Login` | apps/api/src/modules/auth/auth.service.ts:125-166 | Tokens if and only if the account is active and the password is right; they carry the mapped role and start a lineage; the call is a run of the session machine |
| `AuthService.AuthService.Refresh` | apps/api/src/modules/auth/auth.service.ts:210-250 | A successor if and only if the token is signed, its row is live and the user is active; the presented row is gone either way; the role is read afresh; the call is a run of the session machine |
| `AuthService.AuthService.Logout` | apps/api/src/modules/auth/auth.service.ts:252-262 | Removes exactly the session row of a signed token |
| `AuthService.AuthService.OpenRegistered` | apps/api/src/modules/auth/auth.service.ts:448-503 | A verified registration ends with an active candidate account and its first session; the call is a run of the session machine |
| `AuthService.AuthService.EndSessions` | apps/api/src/modules/auth/auth.service.ts:671-672 | A reset removes exactly the user's session rows; the call is a run of the session machine |
| `AuthService.AuthService.ApplyUserChanges` | apps/api/src/modules/admin/admin.service.ts:655-669 | Exactly the named accounts get the status asked for, and the role where a mapping exists; a deactivation or role change removes exactly their session rows, and anything else removes none; the call is a run of the session machine |
| `Otp.OtpService.Verify` | apps/api/src/modules/auth/otp.service.ts:35-57 | Statement by statement, the script's answer and the record it leaves: no key, exhausted, match or countdown |
| `Otp.OtpService.Issue` | apps/api/src/modules/auth/otp.service.ts:123-137 | Replaces the record: fresh code, zero attempts, ten minutes |
| `Otp.OtpService.ClaimSend` | apps/api/src/modules/auth/otp.service.ts:99-110 | Zero and a new cooldown if and only if none is running; otherwise exactly the seconds left and no change |
| `OtpRuns.StepKeepsInv` | apps/api/src/modules/auth/otp.service.ts:99-170 | Issue, verify, expiry, peek, claim, release and crash keep the records in step with the history of codes and guesses |
| `OtpRuns.RunKeepsInv` | apps/api/src/modules/auth/otp.service.ts:99-170 | So does every interleaving over all handles |
| `OtpRuns.GuessAnsweredFromHistory` | apps/api/src/modules/auth/otp.service.ts:35-57 | In every reachable state a guess is answered from the handle's latest code alone: nothing after its ten minutes, its release or its exhaustion until a new issue; else the countdown from five |
| `OtpRuns.PeekFindsLatest` | apps/api/src/modules/auth/otp.service.ts:139-143 | In every reachable state a look at the pending registration finds the form held with the handle's latest code, until that code expires, is released or is destroyed |
| `OtpRuns.GuessesPerCode` | apps/api/src/modules/auth/otp.service.ts:35-57 | Per issue: at most five comparisons, the j-th mismatch reports five less j, and the stored payload is released at most once, as the last answer, before expiry |
| `OtpRuns.RunWideGuessBound` | apps/api/src/modules/auth/auth.service.ts:299-345 | All comparisons against codes for one address, over every handle, are at most 5 for each started minute and for each send handed back |
| `OtpRuns.GuessBoundWithoutRelease` | apps/api/src/modules/auth/auth.service.ts:511-545 | With no send handed back, at most 5 (floor(T/60) + 1) comparisons in T seconds |
| `OtpRuns.BoundIsReached` | apps/api/src/modules/auth/auth.service.ts:511-545 | The bound is exact: for every number of minutes some run without a send handed back makes 5 (minutes + 1) comparisons |
| `OtpRuns.ResendNeedsLiveCode` | apps/api/src/modules/auth/auth.service.ts:511-518 | In every reachable state a resend gets past its first check if and only if the handle's latest code has not ended or expired |
| `OtpRuns.CrashedIssuesNothing` | apps/api/src/modules/auth/auth.service.ts:520-532 | A send whose operation crashes after its claim never gets a code |
| `OtpRuns.StepKeepsPace` | apps/api/src/modules/auth/otp.service.ts:99-115 | Each step keeps sends paced at one per cooldown |
| `OtpRuns.FivePerSend` | apps/api/src/modules/auth/otp.service.ts:123-170 | Comparisons for an address are at most five times the sends granted to it |
| `RegistrationService.RegistrationService.Register` | apps/api/src/modules/auth/auth.service.ts:284-366 | Told to wait, with the exact seconds, if and only if the address is cooling down, and then nothing changes; otherwise a fresh code is held with the form, and the cooldown stays if and only if the mail went out; the call is a run of the code machine |
| `RegistrationService.RegistrationService.Resend` | apps/api/src/modules/auth/auth.service.ts:511-557 | Needs a live pending registration; told to wait, with the exact seconds, if and only if the address is cooling down; else the new code carries the form the old one carried and counts guesses from zero; the call is a run of the code machine |
| `RegistrationService.RegistrationService.VerifyEmail` | apps/api/src/modules/auth/auth.service.ts:369-397 | Answers as the script does, and after a release or an exhaustion the next guess finds nothing; the call is a run of the code machine |
| `RegistrationService.RegistrationService.Deliver` | apps/api/src/modules/auth/auth.service.ts:330-347 | Issue, then hand the send back if mailing fails |
| `RegistrationService.RegistrationService.Claim` | apps/api/src/modules/auth/auth.service.ts:296-309 | A granted claim enters one send in the history and starts the cooldown; a refused one changes nothing |
| `Accounts.ResolversAgree` | apps/api/src/modules/auth/auth.service.ts:701-730 | In every reachable state the session identity, the reset mail and the admin list all resolve a login to the profile row created with it |
| `Accounts.RoleDiscriminates` | apps/api/src/modules/admin/admin.service.ts:631-653 | In every reachable state: mapped role Subscriber iff SubscriberID is set, which NodeID then equals; mapped role Client iff the person row carries a company |
| `Accounts.CrossingLosesIdentity` | apps/api/src/modules/admin/admin.service.ts:624-630 | A role resolves a login to its own profile row if and only if it is on the login's side of the candidate line, so the guard on role changes is exact |
| `Accounts.ResolversFindRows` | apps/api/src/modules/auth/auth.service.ts:603-631 | In any state, reachable or not, a resolver answers only with a row that exists under the id it looks at |
| `Accounts.DescribeFindsRows` | apps/api/src/modules/admin/admin.service.ts:449-495 | So does the admin list, which never looks for a candidate among the persons |
| `Accounts.ChangeWrites` | apps/api/src/modules/admin/admin.service.ts:655-665 | A committed change writes the status and role asked for on the named logins, and nothing else |
| `Accounts.ReviewDecides` | apps/api/src/modules/admin/admin.service.ts:1314-1328 | A review of an open registration ends as decided, and a rejection does nothing more |
| `Accounts.TwoAdminsOneDecision` | apps/api/src/modules/admin/admin.service.ts:1314-1328 | Of two admins who both found a registration open, the first to commit decides and the other changes nothing |
| `Accounts.TwoChangesBothWritten` | apps/api/src/modules/admin/admin.service.ts:631-670 | Two changes whose requests overlap are written one after the other |
| `Accounts.ReviewIsARun` | apps/api/src/modules/admin/admin.service.ts:1264-1379 | A review that nobody interrupts is a run of the machine |
| `Accounts.ChangeIsARun` | apps/api/src/modules/admin/admin.service.ts:631-670 | So is a change that nobody interrupts |
| `Accounts.NodeIdsCollide` | apps/api/src/modules/admin/admin.service.ts:444-448 | Two reachable logins with one NodeID and different people behind it, which is why the guard is needed |
| `Accounts.ApprovedExactlyOnce` | apps/api/src/modules/admin/admin.service.ts:1264-1379 | In every reachable state an Approved registration has exactly one company, person, login and Client role, all cross-linked; any other has none; there are no further companies, persons with a company, or Client logins |
| `Accounts.DecisionIsFinal` | apps/api/src/modules/admin/admin.service.ts:1314-1328 | A decided registration keeps its decision and its rows, whoever else is reviewing it |
| `Accounts.StepKeepsInv` | apps/api/src/modules/admin/admin.service.ts:631-670 | Every account-writing path, its check and its commit taken apart, keeps the identity and review invariants |
| `Accounts.RunKeepsInv` | apps/api/src/modules/admin/admin.service.ts:631-670 | So does every interleaving |
| `Accounts.ChangeExtends` | apps/api/src/modules/admin/admin.service.ts:639-669 | A role change whose checks have gone stale by the time it commits still moves no login over either line |
| `AccountService.LookupCount` | apps/api/src/modules/admin/admin.service.ts:632-637 | Comparing the number of rows found with the number of ids asked for accepts exactly the lists of existing, unrepeated ids |
| `AccountService.ApprovalAddsOne` | apps/api/src/modules/admin/admin.service.ts:1330-1378 | An approval adds one company and one login, linked to each other |
| `AccountService.CreateEmployer` | apps/api/src/modules/admin/admin.service.ts:1330-1378 | The six statements of an approval, one after the other, add up to it |
| `AccountService.AccountService.CreateCandidate` | apps/api/src/modules/auth/auth.service.ts:409-474 | A verified registration adds a CV row and an active login with the candidate role, whose NodeID and SubscriberID both name that row, changes no other row, and keeps the invariant |
| `AccountService.AccountService.CreateStaffLogin` | apps/api/src/modules/admin/staff-account.ts:25-68 | A staff login adds a person row of no company and an active login that names it, with the role asked for, and changes no other row; nothing happens when the name is taken |
| `AccountService.AccountService.RegisterEmployer` | apps/api/src/modules/auth/auth.service.ts:733-767 | A registration whose address is free waits for review; otherwise nothing changes |
| `AccountService.AccountService.ReviewEmployer` | apps/api/src/modules/admin/admin.service.ts:1264-1379 | Goes through if and only if the registration is pending and, for an approval, no name clashes and the city is known. The decision is then written; an approval adds one person, company, active login and Client role, each naming the others, and a rejection adds nothing |
| `AccountService.AccountService.ApplyUserChanges` | apps/api/src/modules/admin/admin.service.ts:631-670 | Goes through if and only if the ids exist, none repeats, and the role stays on the right side of both lines; the named logins then get exactly the status and role asked for; otherwise nothing changes |
| `CsvExport.CsvRoundTrip` | apps/api/src/modules/exports/exports.service.ts:43-56 | For every header of at least one column and every cell text, reading the export back gives the header and each cell as it was, but for an apostrophe before a cell that starts with =, +, -, @, tab or CR; so no recovered cell starts like a formula |
| `CsvExport.PlainExport` | apps/api/src/modules/exports/exports.service.ts:51-55 | A table of cells that need neither quotes nor guard is written as it is: commas between cells, CR LF between lines, the byte order mark in front |
| `CsvExport.QuotedIffNeeded` | apps/api/src/modules/exports/exports.service.ts:49-49 | A cell is quoted if and only if it holds a quote, a comma or a line feed |
| `CsvExport.TableRoundTrip` | apps/api/src/modules/exports/exports.service.ts:51-55 | The same for the lines of a table, without the byte order mark |
| `CsvExport.RecordRoundTrip` | apps/api/src/modules/exports/exports.service.ts:52-53 | One line reads back as its cells and leaves the rest of the text |
| `CsvExport.FieldRoundTrip` | apps/api/src/modules/exports/exports.service.ts:44-50 | One printed cell reads back as the guarded cell, whatever follows it |
| `CsvExport.GuardIsInjectiveUpToApostrophe` | apps/api/src/modules/exports/exports.service.ts:46-48 | Two cells with one guarded form differ by a leading apostrophe at most |
| `CsvExport.ClosedReaderRoundTrip` | apps/api/src/modules/exports/exports.service.ts:51-55 | A reader that takes a final line break as closing the last record gets everything back if and only if the last row is not a lone empty cell |
| `Skills.DedupeSkills` | apps/api/src/modules/candidates/candidates.service.ts:465-477 | The loop over a seen set computes the first spellings of each kind |
| `Skills.DedupeMembers` | apps/api/src/modules/candidates/candidates.service.ts:465-477 | The result holds a text if and only if it is the trimmed first entry of its kind |
| `Skills.DedupeIsDeduped` | apps/api/src/modules/candidates/candidates.service.ts:460-477 | No blank, nothing untrimmed, no two entries of one kind |
| `Skills.DedupeKeepsOrder` | apps/api/src/modules/candidates/candidates.service.ts:460-477 | The order in which the kinds first appear is kept |
| `Skills.EveryKindKept` | apps/api/src/modules/candidates/candidates.service.ts:460-477 | Every non-blank entry is represented by the first spelling of its kind |
| `Skills.DedupeIsIdempotent` | apps/api/src/modules/candidates/candidates.service.ts:465-477 | Deduplicating twice is deduplicating once |
| `Skills.CsvWithin` | apps/api/src/modules/candidates/candidates.service.ts:483-491 | The longest prefix whose joined form fits the column in UTF-16 units, or NULL; never a cut name |
| `Text.TrimDropsSpaces` | apps/api/src/modules/candidates/candidates.service.ts:469-469 | Trimming takes white space off both ends and nothing else |
| `Skills.JoinedReadsBack` | apps/api/src/modules/candidates/candidates.service.ts:446-451 | Splitting the joined form of clean, comma-free names gives those names |
| `Skills.ReadBackIffCommaFree` | apps/api/src/modules/candidates/candidates.service.ts:446-451 | Clean names read back exactly if and only if none holds a comma |
| `Skills.WantedIsTyped` | apps/api/src/modules/candidates/candidates.service.ts:781-783 | Matching master tags against the deduplicated names is matching them against the typing |
| `Skills.SaveKeySkills` | apps/api/src/modules/candidates/candidates.service.ts:766-790 | The column gets the longest fitting prefix of the deduplicated names, or NULL; the tag index gets every master tag whose name was typed, whether it fits the column or not |
| `Skills.SaveAndRead` | apps/api/src/modules/candidates/candidates.service.ts:625-630 | With something stored, the editor is shown exactly the stored prefix if and only if none of its names holds a comma; with the column NULL it is shown the typed names the master list knows |
| `Skills.NothingStoredIffFirstTooLong` | apps/api/src/modules/candidates/candidates.service.ts:483-491 | A non-empty list stores NULL if and only if its first name alone is too long, however short the others are |
| `Text.SplitIsExact` | apps/web/src/hooks/useSSE.ts:90-92 | Splitting at a separator loses nothing and leaves no separator inside a part |
| `Text.SplitAppend` | apps/web/src/hooks/useSSE.ts:89-92 | More text re-splits the unfinished last part only |
| `SseStream.ChunkExtends` | apps/web/src/hooks/useSSE.ts:89-105 | One turn of the read loop hands on exactly the payloads that the longer text has and the shorter had not |
| `SseStream.PayloadsAppend` | apps/web/src/hooks/useSSE.ts:94-105 | Payloads of two batches of lines are the payloads of both |
| `SseStream.DataOf` | apps/web/src/hooks/useSSE.ts:94-105 | The loop over lines yields the data payloads in order |
| `SseStream.PayloadOfLine` | apps/web/src/hooks/useSSE.ts:95-96 | A line that starts with data: and a space hands on what follows; any other hands on nothing |
| `SseStream.SseClient.OnChunk` | apps/web/src/hooks/useSSE.ts:89-105 | The buffer is the unfinished last line of everything read, and what has been handed on is the data of every finished line |
| `SseStream.SseClient.Consume` | apps/web/src/hooks/useSSE.ts:81-106 | However the stream is cut into chunks, the parser is handed the data payloads of the complete lines of the whole text |
| `SseStream.SseClient.Connected` | apps/web/src/hooks/useSSE.ts:78-83 | A new connection starts with an empty buffer and the first delay |
| `SseStream.SseClient.ScheduleReconnect` | apps/web/src/hooks/useSSE.ts:121-127 | The k-th reconnect since the last success waits min(1000 * 2^k, 30000) ms |
| `SseStream.DelayReachesCap` | apps/web/src/hooks/useSSE.ts:121-127 | The delay doubles up to its cap and stays there |
| `InstituteKey.SearchKeyIsKeyWords` | apps/api/prisma/data/india-institutes.ts:802-811 | The chain of replacements computes: split into maximal runs of letters and digits, drop the four connectives, join by single spaces |
| `InstituteKey.FoldedNamesShareKeys` | apps/api/prisma/data/india-institutes.ts:803-806 | Only the folded text counts: names that fold alike share their key |
| `InstituteKey.DropApostrophesConcat` | apps/api/prisma/data/india-institutes.ts:806-806 | Apostrophes are dropped character by character, the others stay in place |
| `InstituteKey.NonStopsConcat` | apps/api/prisma/data/india-institutes.ts:808-808 | Connectives are dropped word by word, the others stay in place |
| `InstituteKey.SearchKeyIsIdempotent` | apps/api/prisma/data/india-institutes.ts:802-811 | The key of a key is that key |
| `InstituteKey.SameKeyIffSameWords` | apps/api/prisma/data/india-institutes.ts:795-811 | Two spellings collide on the UNIQUE key if and only if they have the same words less connectives |
| `InstituteKey.SquashKeepsWords` | apps/api/prisma/data/india-institutes.ts:807-807 | Turning punctuation into spaces keeps the words |
| `InstituteKey.DropStopsKeepsOthers` | apps/api/prisma/data/india-institutes.ts:808-808 | The word-boundary scan removes exactly the whole connectives, and no part of a longer word |
| `InstituteKey.TrimmedSquashIsJoin` | apps/api/prisma/data/india-institutes.ts:809-810 | Collapsing and trimming spaces leaves the words joined by single spaces |
| `InstituteKey.SearchTextIsWordsAndInitials` | apps/api/prisma/data/india-institutes.ts:826-833 | The search text is the key words and the word of their initials |
| `InstituteKey.InitialsAreFirstLetters` | apps/api/prisma/data/india-institutes.ts:828-831 | One letter for each word, its first |
| `InstituteKey.TokensAreKeyWords` | apps/api/src/modules/candidates/candidates.service.ts:320-333 | The tokens of a query, by the same chain, are its first six key words, or all of them if there are no more |
| `InstituteKey.SubsetQueryFinds` | apps/api/src/modules/candidates/candidates.service.ts:316-350 | A query made of any of a name's key words, or of the start of its initials, matches that row |
| `IstCalendar.StartOfDayIsTheMidnight` | apps/api/src/shared/hiring.ts:37-40 | For every instant, also before 1970: the start of day is the one IST midnight with the instant in the day it opens |
| `IstCalendar.StartOfDayLaws` | apps/api/src/shared/hiring.ts:37-40 | Idempotent, monotone, and equal exactly for instants on one IST day |
| `IstCalendar.IstDateAfterNamesTheDay` | apps/api/src/shared/hiring.ts:47-50 | The stored date is the IST date of the instant n days on, at UTC midnight |
| `IstCalendar.StartOfWeekIsTheMonday` | apps/api/src/shared/hiring.ts:53-57 | The start of week is the one IST Monday midnight with the instant in the seven days it opens |
| `IstCalendar.StartOfWeekLaws` | apps/api/src/shared/hiring.ts:53-57 | Idempotent and monotone |
| `IstCalendar.KnownMonday` | apps/api/src/shared/hiring.ts:53-57 | Ties the weekday numbering to a known date: 1 January 2024 is a Monday |
| `IstCalendar.CalendarDaysExact` | apps/api/src/shared/hiring.ts:62-64 | The rounding never rounds: the quotient is the exact difference of IST days |
| `IstCalendar.CalendarDaysAdd` | apps/api/src/shared/hiring.ts:62-64 | Day counts add up over any midpoint |
| `IstCalendar.ReviewDaysAddUp` | apps/api/src/shared/hiring.ts:70-78 | Day of the window plus days left is always 14 |
| `IstCalendar.ReviewDayCounts` | apps/api/src/shared/hiring.ts:70-78 | Day n + 1 runs from the n-th IST midnight after the sending to the next, clamped to 1 and 14, with 13 - n days left |
| `IstCalendar.ExpiringFromDayTwelve` | apps/api/src/shared/hiring.ts:361-372 | An unshortlisted, unexpired referral is Expiring if and only if now is at or after the IST midnight that opens day 12, so it turns once and never back |
| `IstCalendar.ReviewStateDecided` | apps/api/src/shared/hiring.ts:361-372 | Each state of a referral under exactly its condition: expired, shortlisted with or without slots, expiring from day 12, else in review |
| `StageFilter.FilterAgreesWithStage` | apps/api/src/modules/admin/admin.service.ts:820-834 | The SQL filter keeps a row if and only if its stage is the one asked for, on NULL and unknown statuses too |
| `StageFilter.StagesAreTheseStatuses` | apps/api/src/modules/admin/admin.service.ts:79-107 | Each stage as its set of status ids; whatever is unset or in none of them is Screening |
| `StageFilter.NullNeedsItsOwnTest` | apps/api/src/modules/admin/admin.service.ts:828-831 | Without the test for NULL an unset status would be on no tab, since NOT IN is unknown on it |
| `StageFilter.TotalCountsRows` | apps/api/src/modules/admin/admin.service.ts:849-867 | A tab's total is the number of selected rows whose stage is that tab's |
| `StageFilter.CoveredIsTotal` | apps/api/src/modules/admin/admin.service.ts:858-867 | The groups of a stage count its rows once each |
| `StageFilter.ByStage` | apps/api/src/modules/admin/admin.service.ts:866-867 | The fold over the groups gives each tab the total its own stage filter would give |
| `StageFilter.TabsAddUp` | apps/api/src/modules/admin/admin.service.ts:820-867 | The tabs' totals add up to the total without the stage filter |

## Left out

- Migration.Migrate: assumes what the target schema guarantees (`WellKeyed`: table names differ, a column carries one foreign key, referenced and primary-key columns are NOT NULL, a table with a deferrable key has a primary key); the condition in terms of skipped parents is stated under `KeysUntouched` (a referenced column is NOT NULL and no sentinel column, and neither end of a key is the password column of tblSecUser; in the shipped key file no referenced column is a sentinel column and no key touches that password column); other constraints than foreign and primary keys are taken to accept the rows.
- Migration.Migration.Run: the second pass's literals are values; the source writes them unquoted and through JSON, so text keys in a deferred column or its primary key would be rejected by SQL there.
- LoadOrder.LoadOrder: a foreign key from a table to itself takes no part in the ordering; the model checks it for orphans but its database does not enforce it; the shipped key file has none.
- Migration.BuildParentKeys: values are compared as values; the source compares their text forms, which agree on ids.
- Loader.CleaningIsExact: NULL and a missing property are both an absent key, and Argon2 is an uninterpreted function of the password.
- Identity sequences, the back-fill of login links after the load, and the per-table counts it logs: they do not change what is proved about rows and keys.
- OfflineQueue.OfflineQueue.Add: read, change and rewrite is one step, as JavaScript runs it within a tab; two tabs writing the shared storage at the same moment are not modelled.
- OfflineSync.Replay: requires distinct ids, which random ids give; the queue's `clear` has no caller and is not modelled.
- OfflineSync.NothingLost: "delivered" is arrival at the server; what the server does with a repeated arrival is not part of this model.
- Otp.OtpService.PeekPayload and Otp.OtpService.ReleaseSend, like the single statements of the migration (`Truncate`, `InsertChunk`, `FillRow`), only name a step; what they mean is stated by the members that use them.
- AuthService.AuthService.Login: takes the password check as a parameter; resolving a login by e-mail address, which excludes staff created by an administrator, is not modelled.
- Sessions.OneBranchPerLogin: access tokens, which live until they expire, and the browser's refresh interceptor are not modelled.
- Password reset is modelled as the deletion of all of a user's sessions only (Sessions.ResetLeavesNewSessions): its used check runs outside its transaction, so single use is not claimed for overlapping calls.
- OtpRuns.RunWideGuessBound: takes the cooldown's `SET NX` and the `TTL` read as one step; Redis may expire the key between the two, and the source then reports no wait and sends without a new cooldown.
- RegistrationService.RegistrationService.Register: the look-ups that refuse a taken address or number, and the e-mail's normal form, come before and are not modelled; whether the mail is queued is a parameter.
- OtpRuns.GuessesPerCode: codes are compared by their hashes, and the hash is taken as given; how likely a guess is to be right is not stated.
- Accounts.ResolversAgree: starts from empty tables; candidates migrated without a SubscriberID, and rows edited by hand, are outside it.
- AccountService.AccountService.CreateStaffLogin: the role is one of the staff roles, as its callers ensure; the name look-up precedes the transaction, so two overlapping calls may both pass it, which is why uniqueness of names is not stated.
- AccountService.AccountService.ReviewEmployer: the name and city look-ups are parameters.
- AccountService.AccountService.RegisterEmployer: the look-up of the address is a parameter, and the form's other fields are not modelled.
- Accounts.ResolversAgree also stops at the profile row a login resolves to; the fallback texts for missing names and addresses are not modelled.
- CsvExport.CsvRoundTrip: cells are texts already; turning numbers into text and UTF-8 encoding are left out, and so are the XLSX and PDF renderers.
- Skills.CsvWithin: its result is stated for lists without blank entries, which is what deduplication hands it; a text with a lone half of a surrogate pair is not a text here.
- Skills.DedupeSkills: lower-casing is a parameter, any function.
- Skills.SaveAndRead: the order in which the database returns the tags is not stated, nor are the separate saves interleaved with others; the extras row's other fields are not modelled.
- SseStream.SseClient.Consume: starts from decoded text; the decoder's handling of characters cut between chunks, JSON parsing and the component's mounted flag are left out.
- InstituteKey.SearchKeyIsIdempotent: lower-casing and decomposition are one parameter, of which only this is asked: it leaves lower-case letters, digits and spaces alone.
- InstituteKey.SubsetQueryFinds: states that the row matches, not its rank or whether it is within the page limit.
- StageFilter.ByStage: counts and groups are taken over one snapshot; the source reads them in parallel queries.
- Mail, job queues, audit records, file storage, the recruiter workspaces' own stage derivation, master data and the user interface: input and output, or finite tables with nothing to add to the above.
- Moderating jobs in bulk: its conflict is raised after the update, so an all-or-nothing claim would be wrong.

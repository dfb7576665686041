# Vacps: verified models of the native agent and the control worker

This project models, in Dafny, the parts of Vacps in which a mistake would be hard to see: the pooled
HTTP client and the HTTP server of the native agent, its positioned file I/O and its text codecs; and
in the control worker the cron search, the schedule cursor protocol, the task index with its retention
and create-idempotency rules, list paging, and the canonical printers.  `dafny verify dfyconfig.toml`
checks everything.

## How it is laid out

| files | what they hold |
|---|---|
| `HttpPool`, `HttpClient`, `HttpRuns`, `HttpFairness` | pools, gates and leases as values; the client that updates them in place; every interleaving of requests, one event per await point and per destructor; the order in which gates serve |
| `HttpServer` | phases, child counter, waiters and closers as values (module `Lifecycle`), with every interleaving of turns; the same turns on the mutable state, keeping the invariant (class `ServerState`) |
| `Cron`, `Utc` | field lists, the minute walk and the bounded backlog advance, over an arbitrary projection from instants to wall-clock fields; UTC as one such projection |
| `ScheduleRow`, `ScheduleRuns`, `ScheduleService` | what the guarded row updates of the schedule service compute; every interleaving of them from snapshots however old; the service on a mutable row, each statement one event of such a run |
| `Retention`, `TaskRow`, `TaskRuns` | retention policy; the single statements on a task row; every interleaving of them |
| `TaskStore`, `TaskIndex`, `TaskKeys` | the task table with its tombstones as values; the service over mutable tables; create idempotency over whole runs |
| `Paging`, `QueryCursor` | what following next offsets sees; cursors bound to their filters |
| `FileIo` | 64-bit range checks, the two partial-transfer backends, and the file handle above them |
| `StableJson`, `ShellQuote`, `Hex`, `Base64` | printers and codecs with their inverses |

An operation that the source performs by changing things in place is a method on a class, proved equal
to a function of the old state; what the system promises is proved about those functions, as
invariants over every run and as lemmas relating several operations.  In the interleaved models an
event carries every choice the environment has (which snapshot an operation read, what time it is,
which of two equally old connections goes), so that the set of runs is the set of interleavings.

## What turned out not to hold

Five promises fail at a corner.  The code is modelled as it is; for each corner there is an input on
which the promise fails and the exact condition under which it is kept.

* One backlog advance leaves at most 32 missed minutes behind: the documented promise that the new
  cursor is in the future holds exactly for backlogs of at most 32 (`Cron.AdvanceLeavesBacklog`).  Input:
  a rule due every minute, 33 minutes behind, in any time zone (`Cron.BacklogOutlastsOneAdvance`).
* A run-now that read a schedule without a cursor writes without a cursor guard; then one occurrence can
  be claimed twice.  Some run of that run-now and acknowledgements does so if and only if the row it read
  is enabled without a cursor and its rule has an occurrence (`ScheduleRuns.RunNowClaimsTwiceExactlyWhenUnguarded`).
  Input: midnight on 29 February in UTC, created in March 2021 (`ScheduleRuns.LeapDayIsClaimedTwice`).
* A spawn that throws something other than `std::exception` leaves the child counter one too high; the
  server then never gets out of Closing (`Lifecycle.InvHoldsExactlyAfterCleanSpawns`,
  `Lifecycle.StrandedForGood`).  Input: listening and then closing when the first spawn throws so
  (`Lifecycle.StrandedListener`).  The input is hypothetical: what allocation and the operating system
  make a spawn throw is a `std::exception`.
* At a page size of 200 the task list loses its probe row and the first page claims to be the last
  (`Paging.TasksAreSeenOnceIff`).  Input: 201 tasks (`Paging.LastTaskIsLost`).
* A cleanup preview counts soft-deleted rows that a soft run cannot take, and its default scan limit is
  ten times the run's, so a run guarded by the previewed count can be refused with nothing having
  changed (`TaskIndex.PreviewAgreesWithRun`, `TaskIndex.DefaultGuardNeedsSmallScope`).  Inputs: one
  soft-deleted task (`TaskIndex.SoftDeletedIsOvercounted`), 501 deletable ones
  (`TaskIndex.FiveHundredAndOne`).

The purge's hard pass is not guarded by pin or hold either (`TaskRuns.HardPassMissesLatePin`); nothing in
the source promises more.  And one check turns out to be needless: after an error-free transfer the
cursor never overflows, because the kernel lets no file grow past the offset maximum
(`FileIo.File.ReadHandle`, `FileIo.File.WriteHandle`).

## Model

| member | source | states |
|---|---|---|
| HttpRuns.StepKeepsInv | apps/vacps-native/src/http/client.cpp:309-415 | Every event of every request keeps the joint invariant: permits match holders and queues at each gate, user counts match requests, idle plus leased connections fit the origin cap, each connection is in one place |
| HttpRuns.RunsNeverUnderflow | apps/vacps-native/src/http/client.cpp:417-511 | In no run is a counter decremented at zero or a pool touched that was erased |
| HttpRuns.RunsAreBounded | apps/vacps-native/src/http/client.cpp:438-470 | In every reachable state idle plus leased connections per origin, origin permits, global permits and the global idle count are within their limits, and the idle counter is the sum of the idle lists |
| HttpRuns.RunsKeepConnectionsApart | apps/vacps-native/src/http/client.cpp:369-398 | A connection is in exactly one idle list or one lease and never leaves the origin it was opened to |
| HttpRuns.PushFitsReserve | apps/vacps-native/src/http/client.cpp:452-470 | The `push_back` inside the noexcept `release` never outgrows the capacity reserved once, in any interleaving |
| HttpRuns.LeasedPoolsSurvive | apps/vacps-native/src/http/client.cpp:430-436 | Release, pruning and eviction by one request never erase the pool of another request's lease |
| HttpRuns.IdleConnectionsAreKept | apps/vacps-native/src/http/client.cpp:472-511 | An idle connection stops being idle only by being handed out, by having been idle longer than the timeout, or, at the limit and when none has been idle so long, by being the globally oldest one evicted |
| HttpRuns.IdleConnectionsAreReturned | apps/vacps-native/src/http/client.cpp:452-470 | A connection becomes idle only by its own exchange returning it for reuse, stamped then, at the back of its own origin |
| HttpRuns.LeaseReusesExactlyTheFresh | apps/vacps-native/src/http/client.cpp:438-450 | A lease gets a connection exactly when one of its origin has been idle no longer than the timeout: one that was idle there, with none so fresh behind it |
| HttpRuns.QuietGatesAreEmpty | apps/vacps-native/src/http/client.cpp:352-367 | On every exit path permits come back: with no request left, no gate holds a permit or a waiter |
| HttpRuns.SomebodyRuns | apps/vacps-native/src/http/client.cpp:755-797 | Behind every queued request there is one that holds the permit waited for and is not itself queued |
| HttpRuns.NoDeadlock | apps/vacps-native/src/http/client.cpp:755-797 | While a request is left, one can go on without anyone cancelling, timing out or failing |
| HttpRuns.KeepAliveCanFinish | apps/vacps-native/src/http/client.cpp:452-511 | In every reachable state an exchange can return its connection for reuse: eviction finds one to evict whenever it is needed, and the returned connection is idle at its own origin |
| HttpRuns.EveryRequestEnds | apps/vacps-native/src/http/client.cpp:674-804 | Without arrivals any run that stops stops with no request and all permits back, after a bounded number of events |
| HttpFairness.WaitersAreServedInOrder | apps/vacps-native/src/http/client.cpp:755-782 | Through any run in which a request stays queued at a gate it never falls back, and every permit that comes back to the gate brings it one place forward |
| HttpFairness.OvertakingIsBounded | apps/vacps-native/src/http/client.cpp:322-367 | From any reachable state, no more permits come back to a gate while a request is queued there than stood before it |
| HttpPool.OldestExists | apps/vacps-native/src/http/client.cpp:489-511 | With an idle connection left there is a globally oldest one to evict |
| HttpPool.PruneIsSound | apps/vacps-native/src/http/client.cpp:472-487 | Pruning keeps the idle counter equal to the idle lists and leaves no pool without users or connections |
| HttpPool.RoomByAge | apps/vacps-native/src/http/client.cpp:452-470 | Making room costs nothing below the global limit; at it, the connections past the timeout if there are any and otherwise exactly one |
| HttpPool.ReleaseIsSound | apps/vacps-native/src/http/client.cpp:452-470 | Returning a connection keeps the accounting and the global idle limit |
| HttpClient.Client.TakeIdle | apps/vacps-native/src/http/client.cpp:438-450 | In milliseconds: what it hands out was idle no longer than the timeout, everything behind it was idle longer and is dropped, none is handed out only if all were; the counter falls by all it popped |
| HttpClient.Client.PruneExpiredIdle | apps/vacps-native/src/http/client.cpp:472-487 | In milliseconds: each pool keeps exactly the connections idle no longer than the timeout, in order, with its users and gate, and is erased exactly when it has then neither user nor connection |
| HttpClient.Client.EvictOldestIdle | apps/vacps-native/src/http/client.cpp:489-511 | The search removes one globally oldest connection and its pool if that leaves it dead |
| HttpClient.Client.Release | apps/vacps-native/src/http/client.cpp:452-470 | A reusable connection, stamped now, ends up at the back of its origin's list after room was made: below the limit nothing else changes, at it the count stays if nothing is past the timeout; any other connection changes nothing |
| HttpClient.Client.AcquirePool | apps/vacps-native/src/http/client.cpp:417-428 | Finds or opens the origin's pool and counts one user more |
| HttpClient.Client.ReleasePool | apps/vacps-native/src/http/client.cpp:430-436 | Counts one user less and erases the pool exactly when it is then dead |
| Lifecycle.RunsAreSound | apps/vacps-native/src/http/server.cpp:343-406 | In every reachable state the child counter is the accept loop plus the sessions, Listening has its loop, Closing has children, Created and Closed have none, finalisation happened at most once, and no wakeup was lost |
| Lifecycle.NobodyAwaitsClosed | apps/vacps-native/src/http/server.cpp:992-1017 | The wait for Closed inside close is never slept on: draining the children always finalises first |
| Lifecycle.PhasesAdvance | apps/vacps-native/src/http/server.cpp:519-540 | Phases only advance, Closed absorbs, and a closing server admits no new child |
| Lifecycle.ChildrenFollowTurns | apps/vacps-native/src/http/server.cpp:944-976 | A socket becomes a session exactly when it is accepted while Listening and its spawn starts; a session goes only by ending, the accept loop comes with a listen and goes with its end |
| Lifecycle.PhaseFollowsTurns | apps/vacps-native/src/http/server.cpp:519-569 | For each phase exactly the turns that leave it and where they lead |
| Lifecycle.ThrownSpawnUndoes | apps/vacps-native/src/http/server.cpp:948-976 | A listen or an accept whose spawn throws a `std::exception` leaves the state as it was |
| Lifecycle.EveryCloserReturns | apps/vacps-native/src/http/server.cpp:542-569 | Once a close has begun, through any turns, only so many can end something: one for each child and closer left and one for each further close; when none of that can happen any more the server is Closed and every concurrent close has returned |
| Lifecycle.InvHoldsExactlyAfterCleanSpawns | apps/vacps-native/src/http/server.cpp:948-976 | The invariant survives a turn if and only if a spawn throws nothing but `std::exception`; otherwise the server is stranded |
| Lifecycle.StrandedForGood | apps/vacps-native/src/http/server.cpp:383-406 | Over any run a stranded server stays in Closing and no call of close ever returns |
| Lifecycle.StrandedListener | apps/vacps-native/src/http/server.cpp:1195-1223 | A fresh server whose first spawn throws outside `std::exception` is stranded, and so is whoever closes it |
| HttpServer.ServerState.WakeDrainWaiters | apps/vacps-native/src/http/server.cpp:355-365 | Takes the whole list and wakes exactly the closers on it |
| HttpServer.ServerState.TryFinalizeClose | apps/vacps-native/src/http/server.cpp:383-406 | Finalises exactly in Closing with no children, closing the acceptor and waking both lists |
| HttpServer.ServerState.ChildDec | apps/vacps-native/src/http/server.cpp:345-353 | The last child wakes the drain list and finalises; any other only counts down |
| HttpServer.ServerState.BeginClose | apps/vacps-native/src/http/server.cpp:519-540 | Closes from each phase as the source does, finalising at once when nothing runs |
| HttpServer.ServerState.AsyncListen | apps/vacps-native/src/http/server.cpp:1077-1223 | From Created with a spawn that starts: Listening, the acceptor open, the loop counted as the one child; a clean turn that does not get there changes nothing, and every clean turn keeps the invariant |
| HttpServer.ServerState.Accepted | apps/vacps-native/src/http/server.cpp:944-976 | While Listening, a spawn that starts adds the session and counts it, and one that throws a `std::exception` changes nothing; in any other phase the loop ends; a clean turn keeps the invariant |
| HttpServer.ServerState.AcceptEnd | apps/vacps-native/src/http/server.cpp:907-921 | The loop goes and the sessions stay; the server is Closing if there are any, else Closed; the invariant is kept |
| HttpServer.ServerState.CloseImpl | apps/vacps-native/src/http/server.cpp:992-1017 | The server is Closed if it had no child and Closing if it had; at Closed the closer returns, else it sleeps on the drain list with children left; the children are untouched and the invariant is kept |
| HttpServer.ServerState.Resume | apps/vacps-native/src/http/server.cpp:542-569 | A woken closer finds the server Closed and returns |
| Cron.ExpandField | packages/contracts/src/cron-next.ts:153-190 | Null exactly for a field with a wildcard part; else the set is the union of the clipped progressions its parts denote, to which a part the source skips adds nothing |
| Cron.ExpandDow | packages/contracts/src/cron-next.ts:192-219 | The same for days of the week, 7 read as Sunday |
| Cron.PartByArithmetic | packages/contracts/src/cron-next.ts:153-190 | What each kind of part allows in arithmetic: bounds, and whole steps from the first value |
| Cron.DowPartByArithmetic | packages/contracts/src/cron-next.ts:192-219 | The same for days of the week, with 7 for Sunday and a stepped single day standing alone |
| Cron.FieldIsUnion | packages/contracts/src/cron-next.ts:153-190 | A field allows exactly what one of its parts allows |
| Cron.DowFieldIsUnion | packages/contracts/src/cron-next.ts:192-219 | The same for days of the week |
| Cron.PlainRuleAllows | packages/contracts/src/cron-next.ts:139-150 | A rule of five numbers allows exactly the wall clock with those five numbers, each within its range |
| Cron.NextCronRunAfter | packages/contracts/src/cron-next.ts:17-36 | The minute walk returns the next run of the rule under any projection |
| Cron.NextRunIsNext | packages/contracts/src/cron-next.ts:17-36 | The next run is the least due minute strictly after the given instant within 366 days, and none exactly when there is none |
| Cron.NextRunWithinAYear | packages/contracts/src/cron-next.ts:17-36 | In milliseconds: the first due full minute strictly after the instant, looked for over 366 days |
| Cron.NextIsUnique | packages/contracts/src/cron-next.ts:17-36 | There is only one such answer |
| Cron.AuthoritativeNextAfterOccurrence | packages/contracts/src/cron-next.ts:85-121 | The loops compute the bounded iterate of the next-run function for each misfire policy |
| Cron.AdvanceLeavesBacklog | packages/contracts/src/cron-next.ts:76-121 | A defined advance is in the future exactly when at most 32 minutes were missed, and then it is the next run after now |
| Cron.RepeatedAdvances | packages/contracts/src/cron-next.ts:76-121 | Repeated advances pass now in exactly a 33rd of the backlog plus one, rounded up, and land on the next run after now |
| Cron.BacklogOutlastsOneAdvance | packages/contracts/src/schedule-semantics.ts:35-56 | In every time zone, a rule due every minute and 33 minutes behind advances to now itself, not past it |
| Cron.CatchUpAdds | packages/contracts/src/cron-next.ts:99-108 | Catching up by j and then by k is catching up by j + k below the cap |
| Cron.AuthoritativeGrows | packages/contracts/src/cron-next.ts:85-121 | Whatever the policy, the cursor goes strictly forward or is cleared |
| ScheduleService.ScheduleTable.ApplyUpdate | apps/control-worker/src/schedules/schedule-service.ts:280-365 | Wins exactly at the revision it read, conflicts otherwise, and is a no-op exactly when the patch gives nothing new; winning, every part of the patch takes effect, the rest stays, and the cursor is the next run of the new rule after now; the row invariants of all runs are kept |
| ScheduleService.ScheduleTable.RunNow | apps/control-worker/src/schedules/schedule-service.ts:482-540 | Writes exactly at the revision it read and, if it read a cursor, at that cursor; then the cursor is the next run after the claimed occurrence, or after now if there was none, and only the run stamps change besides; the row invariants are kept |
| ScheduleService.ScheduleTable.AckOccurrence | apps/control-worker/src/schedules/schedule-service.ts:563-734 | Exactly when it is applied: revision, enablement and occurrence agree with the snapshot and the row still has that revision and that cursor, in its stored or its canonical spelling; then the cursor is the authoritative one of the policy and it is one claim more; on a row unchanged since the snapshot, which of the answers it is by comparing cursor and occurrence; any other answer changes nothing |
| ScheduleRow.DecideByCursor | apps/control-worker/src/schedules/schedule-service.ts:584-650 | Which answer a snapshot gives by comparing revision, enablement, and the instants of cursor and occurrence; otherwise the compare-and-swap is tried on the stored spelling |
| ScheduleRow.AckAdvances | apps/control-worker/src/schedules/schedule-service.ts:652-666 | Catching up, one next run on for each task enqueued and at most 32; else past a backlog of at most 32 missed minutes to the next run after now; always later than the occurrence |
| ScheduleRow.UpdateTakesEffect | apps/control-worker/src/schedules/schedule-service.ts:291-341 | Every part of a patch takes effect, what it does not give stays, and the cursor restarts from now under the new rule |
| ScheduleRow.RunNowAdvances | apps/control-worker/src/schedules/schedule-service.ts:505-519 | The next run after the claimed occurrence, after now without one, and none for a disabled schedule |
| ScheduleRuns.RevisionsIdentifyConfigurations | apps/control-worker/src/schedules/schedule-service.ts:280-365 | Over any interleaving a revision determines rule, zone, task, policy and enablement, never goes back, is won from at most once, and a disabled row has no cursor |
| ScheduleRuns.RevisionStep | apps/control-worker/src/schedules/schedule-service.ts:330-365 | A winning update raises the revision by one, nothing else changes it |
| ScheduleRuns.CursorMovesForward | apps/control-worker/src/schedules/schedule-service.ts:499-531 | Every cursor-guarded write moves the cursor strictly later or clears it |
| ScheduleRuns.ClaimedAtMostOnce | apps/control-worker/src/schedules/schedule-service.ts:563-734 | In runs without the unguarded write no occurrence of a revision is claimed twice |
| ScheduleRuns.RepeatedAckChangesNothing | apps/control-worker/src/schedules/schedule-service.ts:610-640 | Acknowledging again under a later cursor is answered as already advanced and changes nothing |
| ScheduleRuns.RunNowIsSafeExactlyWhenGuarded | apps/control-worker/src/schedules/schedule-service.ts:499-531 | Whatever state it meets, a run-now leaves no applied claim to be made again, if and only if its snapshot had a cursor or it has none to write |
| ScheduleRuns.UnguardedRunNowClaimsTwice | apps/control-worker/src/schedules/schedule-service.ts:523-530 | From every enabled schedule without a cursor whose rule has an occurrence, a run of run-nows and acknowledgements claims that occurrence twice |
| ScheduleRuns.RunNowClaimsTwiceExactlyWhenUnguarded | apps/control-worker/src/schedules/schedule-service.ts:482-540 | From a stored row, some run of one run-now of it, repeated, and acknowledgements claims an occurrence twice if and only if the row is enabled without a cursor and its rule has an occurrence after now |
| ScheduleRuns.LeapDayIsClaimedTwice | apps/control-worker/src/schedules/schedule-service.ts:523-530 | For example 29 February 2024, midnight UTC, under a schedule created in March 2021 |
| Retention.TestTaskAtCreation | apps/control-worker/src/tasks/retention.ts:53-70 | Exactly which labels make a test task, through trimming of the environment and blank suites |
| TaskRuns.StepKeepsInv | apps/control-worker/src/tasks/task-service.ts:1456-1506 | Every statement, from any snapshot, keeps the stamps consistent and the written ones unchanged |
| TaskRuns.StampsAreWrittenOnce | apps/control-worker/src/tasks/task-service.ts:1490-1504 | Terminal, output-expiry, class and deletion stamps are never rewritten in any interleaving |
| TaskRuns.ExpiryFollowsPolicy | apps/control-worker/src/tasks/retention.ts:72-130 | Stamps appear together; a row lives 3 days after its terminal stamp exactly if it is a test, else 14 or 30, and its output as long as asked for or else 7 days |
| TaskRuns.FirstTerminalStatusDecides | apps/control-worker/src/tasks/task-service.ts:1456-1506 | The first terminal status, from whatever snapshot, fixes the terminal and output stamps of every later state; a success lives 14 days, a test 3, any other 30 |
| TaskRow.StatusByPolicy | apps/control-worker/src/tasks/retention.ts:72-129 | In milliseconds: what a status write makes of each column, by status, test labels and the output time asked for |
| TaskRow.UnpinByPolicy | apps/control-worker/src/tasks/task-service.ts:1113-1142 | In milliseconds: unpinning a terminal task counts its expiry again from its terminal stamp |
| TaskRuns.EventsWriteTheirColumns | apps/control-worker/src/tasks/task-service.ts:1213-1274 | Which event writes which column and what; only the two hard deletions take a row away |
| TaskRow.PurgeSelects | apps/control-worker/src/tasks/task-service.ts:1213-1261 | Column by column, which rows the soft and the hard pass select |
| TaskRuns.TerminalIsStamped | apps/control-worker/src/tasks/task-service.ts:1456-1506 | After one terminal status write the stamps stay even if the status becomes active again |
| TaskRuns.PurgeSparesProtected | apps/control-worker/src/tasks/task-service.ts:1229-1249 | The soft pass changes no row that is pinned or held at the moment of its UPDATE |
| TaskRuns.PurgeWaitsForGrace | apps/control-worker/src/tasks/task-service.ts:1251-1273 | The hard pass removes a row only 24 hours after its deletion stamp |
| TaskRuns.RemovedInTwoPasses | apps/control-worker/src/tasks/task-service.ts:1206-1284 | Left to the purge, a live row disappears only by a soft deletion of a row that was read as terminal and expired and is neither pinned nor held, and at least a day later a hard deletion |
| TaskRuns.HardPassMissesLatePin | apps/control-worker/src/tasks/task-service.ts:1251-1273 | A run in which the hard pass removes a row pinned after its SELECT |
| TaskIndex.TaskTable.FindByIdempotency | apps/control-worker/src/tasks/task-service.ts:1348-1420 | A live tombstone answers first, else the row that has the key |
| TaskIndex.TaskTable.Create | apps/control-worker/src/tasks/task-service.ts:155-352 | On a bound key nothing changes and the answer is the bound task, or a refusal exactly when the hashes are known to differ; on a free key it dispatches once and, by the backend's answer, leaves a queued task, a failed one or nothing, with the key bound for 7 days after a test and 30 after any other or free again |
| TaskIndex.TaskTable.SetStatus | apps/control-worker/src/tasks/task-service.ts:1456-1506 | The status written, with the stamps the policy computes where there were none (`TaskRow.StatusByPolicy`); no stamp is rewritten |
| TaskIndex.TaskTable.Unpin | apps/control-worker/src/tasks/task-service.ts:1113-1142 | Clears the pin and refreshes the expiry of a terminal task, within the policy |
| TaskIndex.TaskTable.Delete | apps/control-worker/src/tasks/task-service.ts:790-850 | Which of the five answers is given when, and that only an inactive unprotected row is changed |
| TaskIndex.TaskTable.CleanupPreview | apps/control-worker/src/tasks/task-service.ts:873-931 | Matched is deletable plus protected and is the sum of the status breakdown, whose every count is exact |
| TaskIndex.TaskTable.CleanupRun | apps/control-worker/src/tasks/task-service.ts:1001-1067 | Deletes exactly the selected rows, or nothing when the count is not the expected one |
| TaskIndex.TaskTable.PurgeExpired | apps/control-worker/src/tasks/task-service.ts:1206-1284 | The soft pass, the hard pass and the sweep, as one function of the tables; exactly unexpired tombstones are left, stamps and policy are kept |
| TaskIndex.PurgeTakesTheExpired | apps/control-worker/src/tasks/task-service.ts:1213-1274 | A purge that runs alone stamps only terminal, expired rows neither pinned nor held, removes only such rows deleted a day ago, and takes all of either kind unless there are more than 500 |
| TaskIndex.PurgeSweepsTombs | apps/control-worker/src/tasks/task-service.ts:1276-1281 | It drops exactly the tombstones whose time has passed, but for those its own removals renew |
| TaskIndex.CleanupTakesTheScope | apps/control-worker/src/tasks/task-service.ts:958-1060 | A cleanup that runs alone takes only terminal rows of its filter, neither pinned nor held and not yet deleted unless a hard run includes those, and all of them unless its limit binds |
| TaskIndex.PreviewCountsTheScope | apps/control-worker/src/tasks/task-service.ts:885-931 | A preview whose limit does not bind counts exactly the terminal rows of its filter, the pinned and held apart |
| TaskIndex.CountIsSize | apps/control-worker/src/tasks/task-service.ts:913-921 | The breakdown by status counts the selected rows with that status |
| TaskIndex.HardDeleteEntombs | apps/control-worker/src/tasks/task-service.ts:1286-1346 | A removal leaves a tombstone marked deleted, for 7 days after a test and 30 after any other task |
| TaskIndex.PurgeSparesProtected | apps/control-worker/src/tasks/task-service.ts:1206-1284 | A purge that runs alone leaves every pinned or held row as it was |
| TaskIndex.CleanupSparesProtected | apps/control-worker/src/tasks/task-service.ts:1001-1060 | A bulk cleanup that runs alone, soft or hard, leaves every pinned or held row as it was |
| TaskIndex.PassesAreDisjoint | apps/control-worker/src/tasks/task-service.ts:1206-1284 | A purge never removes what it has just soft-deleted |
| TaskIndex.SoftRunExhausts | apps/control-worker/src/tasks/task-service.ts:1038-1060 | After a soft cleanup whose limit did not bind, its filter matches nothing |
| TaskIndex.PreviewAgreesWithRun | apps/control-worker/src/tasks/task-service.ts:873-1017 | With no limit binding, the previewed deletable count is the run's count exactly when no soft-deleted unprotected row is in scope of a soft run, and then the rows are the same |
| TaskIndex.DefaultGuardNeedsSmallScope | apps/control-worker/src/tasks/task-service.ts:883-962 | With default limits the guard accepts the previewed count exactly up to 500 deletable rows |
| TaskIndex.SoftDeletedIsOvercounted | apps/control-worker/src/tasks/task-service.ts:873-1017 | One soft-deleted task previewed with includeDeleted: one row promised, none found by a soft run |
| TaskIndex.FiveHundredAndOne | apps/control-worker/src/tasks/task-service.ts:883-962 | 501 deletable tasks under default limits: 501 rows promised, 500 found |
| TaskKeys.StepKeepsInv | apps/control-worker/src/tasks/task-service.ts:1286-1346 | Every operation keeps keys unique and tombstones in agreement with rows |
| TaskKeys.OwnedStep | apps/control-worker/src/tasks/task-service.ts:1286-1346 | A key stays with its row or passes to a tombstone whose time to live starts at that removal |
| TaskKeys.KeyFreedOnlyAfterTtl | apps/control-worker/src/tasks/task-service.ts:1286-1420 | A key leaves its task only after the row was removed and then 7 days for a test, 30 for any other task, have passed |
| TaskKeys.EntombedIsFound | apps/control-worker/src/tasks/task-service.ts:1286-1420 | A tombstone keeps its key exactly until its time has passed |
| TaskKeys.KeyedCreateIsDispatchedOnce | apps/control-worker/src/tasks/task-service.ts:199-220 | Until its time to live has passed, through any run, the key finds its task and no create on it is dispatched: an equal hash gets the task, a known different one is refused, and where none is known any request gets it |
| TaskKeys.FreeCreateBinds | apps/control-worker/src/tasks/task-service.ts:222-345 | A create on a free key dispatches once and binds it, unless the capability is missing: then the key is free again |
| Paging.SchedulesAreSeenOnce | apps/control-worker/src/schedules/schedule-service.ts:59-95 | Following next offsets sees every schedule once, in order, for every limit given |
| Paging.BackendsAreSeenOnce | apps/control-worker/src/mcp/server.ts:1531-1581 | The same for backends and any positive limit |
| Paging.ZeroLimitNeverEnds | apps/control-worker/src/mcp/server.ts:1562-1574 | A zero limit would never end, which is why the input schema excludes it |
| Paging.TasksAreSeenOnceIff | apps/control-worker/src/tasks/task-service.ts:354-379 | The same for tasks exactly if the limit is below 200 or one page holds all |
| Paging.TaskProbeIsLost | apps/control-worker/src/tasks/task-service.ts:354-379 | At 200 every page claims to be the last |
| Paging.LastTaskIsLost | apps/control-worker/src/tasks/task-service.ts:354-379 | With 201 tasks and a page size of 200 the last task is never seen |
| QueryCursor.FingerprintTells | apps/control-worker/src/mcp/server.ts:1875-1878 | Two queries have one fingerprint exactly when they have the same filters, in whichever order they were set |
| QueryCursor.CursorIsBound | apps/control-worker/src/mcp/server.ts:1838-1873 | A cursor gives its offset back under its own filters and is refused under others |
| QueryCursor.UnboundCursor | apps/control-worker/src/mcp/server.ts:1855-1872 | A cursor without filters in it holds while there are none and is refused under any |
| QueryCursor.NegativeOffsetIsInvalid | apps/control-worker/src/mcp/server.ts:1852-1854 | A negative offset is an invalid cursor under any filters |
| QueryCursor.ForeignTextIsInvalid | apps/control-worker/src/mcp/server.ts:1846-1851 | So is text with a character no base64 has |
| QueryCursor.EncodeQueryCursor | apps/control-worker/src/mcp/server.ts:1838-1844 | Makes a cursor of url characters that gives the offset back under these filters and under no others |
| FileIo.CheckRangeIsExact | apps/vacps-native/src/fs/file.cpp:180-210 | The 64-bit checks accept exactly the ranges whose every offset fits `off_t` |
| FileIo.NoOffsetWraps | apps/vacps-native/src/fs/file.cpp:494-505 | Inside an accepted range no loop computes an offset that wraps or leaves `off_t` |
| FileIo.OverlaysJoin | apps/vacps-native/src/fs/file.cpp:538-555 | Storing a range in consecutive pieces is storing it at once |
| FileIo.WrittenIsRead | apps/vacps-native/src/fs/file.cpp:465-559 | Written bytes are read back and ranges apart from them are unchanged |
| FileIo.OverlayAt | apps/vacps-native/src/fs/file.cpp:652-697 | A write changes exactly its range, and a gap before it reads as zeros |
| FileIo.File.PreadLoop | apps/vacps-native/src/fs/file.cpp:485-506 | However the kernel splits and interrupts, the loop ends with the bytes of the range that the file has, or with the kernel's failure, which a reliable kernel gives only for a range that ends past the offset maximum |
| FileIo.File.PwriteLoop | apps/vacps-native/src/fs/file.cpp:671-693 | However the kernel splits and interrupts, the whole range is stored, or a first part of it when the kernel fails, which a reliable kernel does only past the offset maximum |
| FileIo.File.AsyncReadAt | apps/vacps-native/src/fs/file.cpp:795-895 | The Asio loop gives the same bytes for every split, unless it fails or is stopped |
| FileIo.File.AsyncWriteAt | apps/vacps-native/src/fs/file.cpp:897-985 | The Asio loop stores the same bytes for every split, or a first part of them when it fails or is stopped |
| FileIo.File.AdvanceCursor | apps/vacps-native/src/fs/file.cpp:235-242 | Moves the cursor exactly when the sum fits `off_t`, else leaves it |
| FileIo.File.ReadHandle | apps/vacps-native/src/modules/fs.cpp:198-247 | Both backends give the same bytes, errors and cursor for every read not broken off, never a cursor overflow, and an untouched cursor for a read broken off |
| FileIo.File.WriteHandle | apps/vacps-native/src/modules/fs.cpp:288-338 | Both backends give the same answer, contents and cursor for every write not broken off, never a cursor overflow; a write broken off leaves the cursor and a first part of its data |
| FileIo.File.AppendWrite | apps/vacps-native/src/fs/file.cpp:612-650 | The data goes to the end, and the cursor follows the size or, without it, the count; broken off, a first part is appended and the cursor stays |
| FileIo.ConsecutiveReads | apps/vacps-native/src/fs/file.cpp:561-610 | Two cursor reads are one longer read |
| FileIo.WriteThenRead | apps/vacps-native/src/fs/file.cpp:561-697 | Reading the range of a write gives the data and the same cursor |
| FileIo.ReadOkExactly | apps/vacps-native/src/fs/file.cpp:561-610 | Exactly when a cursor read that is not broken off succeeds, which error it gives otherwise, and that a failed one leaves the cursor; the accepted ranges that a kernel may still refuse are exactly those with cursor plus limit one past the offset maximum |
| FileIo.WriteOkExactly | apps/vacps-native/src/fs/file.cpp:652-697 | Exactly when a cursor write that is not broken off succeeds, a closed handle never, and byte by byte what it leaves; a failed one changes nothing |
| FileIo.AtOkExactly | apps/vacps-native/src/fs/file.cpp:465-559 | The same for reads and writes at an offset, where that may be out of range |
| FileIo.AppendOkExactly | apps/vacps-native/src/fs/file.cpp:612-650 | An append succeeds exactly on an open handle and adds the data behind what was there |
| FileIo.AppendThenRead | apps/vacps-native/src/fs/file.cpp:612-650 | An append keeps what was there and is found at the old end |
| FileIo.ReadStaysInRange | apps/vacps-native/src/fs/file.cpp:602-605 | No read leaves the cursor past the offset maximum |
| StableJson.StringifyIsInjective | apps/control-worker/src/tasks/task-service.ts:1701-1707 | Two JSON values print alike exactly when they are equal with objects read as maps |
| StableJson.ValueUnique | apps/control-worker/src/schedules/schedule-service.ts:847-853 | The text of a value tells the value and where it ends inside a longer text |
| StableJson.UnescapeEscape | apps/control-worker/src/tasks/task-service.ts:1701-1707 | A printed string is read back unit by unit, lone surrogates included |
| StableJson.StandardEscapes | apps/control-worker/src/tasks/task-service.ts:1701-1707 | The escapes are those of `JSON.stringify`, unit by unit |
| StableJson.ObjectText | apps/control-worker/src/tasks/task-service.ts:1701-1707 | The text of an object of two fields in either order, the lesser key first |
| StableJson.PairText | apps/control-worker/src/tasks/task-service.ts:1701-1707 | The text of an array of two items |
| StableJson.FirstDifferenceDecides | apps/control-worker/src/tasks/task-service.ts:1701-1707 | Keys are ordered by the first unit in which they differ, prefixes first |
| ShellQuote.CommandReadsBack | packages/contracts/src/task.ts:180-203 | A POSIX shell reads a command task as exactly its program and arguments, whatever is in them |
| ShellQuote.QuoteReads | packages/contracts/src/task.ts:201-203 | A quoted value extends the word being read by exactly that value |
| ShellQuote.CommandsAreDistinguishable | packages/contracts/src/task.ts:180-188 | Command tasks shown alike are the same |
| Hex.ToHex | apps/vacps-native/src/crypto/crypto.cpp:62-71 | Lower-case digits, two a byte, high half first |
| Hex.FromHex | apps/vacps-native/src/crypto/crypto.cpp:73-93 | The bytes the digits spell, in either case, and which of the two errors otherwise |
| Hex.DigitValues | apps/vacps-native/src/crypto/crypto.cpp:62-93 | Which characters are digits and their values; a byte is spelled high half first |
| Hex.EncodeThenDecode | apps/vacps-native/src/crypto/crypto.cpp:62-93 | Decoding an encoding gives the bytes back |
| Hex.DecodeThenEncode | apps/vacps-native/src/crypto/crypto.cpp:62-93 | Encoding a decoding lower-cases the text |
| Base64.NativeUrlEncode | apps/vacps-native/src/crypto/crypto.cpp:163-171 | The in-place replacement and the stripping loop leave exactly the unpadded section 5 text |
| Base64.NativeBase64Decode | apps/vacps-native/src/crypto/crypto.cpp:120-161 | Blanks stripped, padding restored, characters checked, groups decoded and padding trimmed |
| Base64.NativeUrlDecode | apps/vacps-native/src/crypto/crypto.cpp:181-198 | The same behind the url alphabet |
| Base64.WorkerUrlEncode | apps/control-worker/src/security/request-signatures.ts:101-105 | The worker writes the same text as the native side |
| Base64.NativeRoundTrip | apps/vacps-native/src/crypto/crypto.cpp:163-198 | The native side decodes either side's encoding of any bytes, whose length is 4n/3 rounded up |
| Base64.PaddedRoundTrip | apps/vacps-native/src/crypto/crypto.cpp:120-198 | So it does the padded text of any bytes, in either alphabet |
| Base64.BlanksAreIgnored | apps/vacps-native/src/crypto/crypto.cpp:121-128 | Blanks anywhere in the text make no difference |
| Base64.RefusedExactly | apps/vacps-native/src/crypto/crypto.cpp:133-138 | Text is refused exactly when some character is no letter, digit, `+`, `/` or `=` |
| Base64.FooVector | apps/vacps-native/src/crypto/crypto.cpp:95-110 | "foo" is encoded as section 10 of RFC 4648 has it |
| Base64.UrlVector | apps/vacps-native/src/crypto/crypto.cpp:163-171 | Two octets whose url text has both characters of its own |
| Base64.WorkerRoundTrip | apps/control-worker/src/security/request-signatures.ts:101-118 | The worker does so for all bytes but none |
| Base64.NativeAgreesWithWorker | apps/control-worker/src/security/request-signatures.ts:107-118 | Whatever text the worker accepts, the native side decodes to the same bytes |

## Left out

- TLS, DNS, Beast, io_uring and Asio internals: an await completes, fails or is cancelled.
- The HTTP client being destroyed while requests wait, and the order in which the pool map is walked: a tie between two oldest connections is broken either way.
- A lapsed request deadline is one more way for a request to stop waiting or to fail; its clock is not modelled.
- HTTP sessions beyond their start and end: parsing, handlers and responses.
- HttpServer.ServerState.CloseImpl: an allocation failure inside a wait is not modelled, so a close never returns an error.
- Time-zone data: the projection from instants to wall-clock fields is a parameter, so no statement depends on how a zone behaves.
- Cron tokens that JavaScript would read as fractions or in another radix: tokens are parsed integers. Dates beyond the range of Date are left out likewise.
- ScheduleService.ScheduleTable.AckOccurrence: runs without another operation between its two attempts; such interleavings are runs of ScheduleRuns, where each attempt is an event. The drift note in an answer, the check that the caller is the schedule's own backend, agent synchronisation, reconciliation and operation replay are left out.
- Which rows a binding LIMIT picks: a SELECT may answer with any of the matching rows, and the model's statements hold for each such answer.
- TaskIndex.TaskTable.Create: database errors and creates that overlap each other; the unique index on backend and key (apps/control-worker/migrations/0009_task_idempotency.sql) is then never hit. The backend-disabled and capability preflight refusals come before any of this and change nothing.
- TaskIndex.TaskTable.Delete: deletion notes, replay of a keyed deletion and the deleted-by columns.
- Retries of tasks, remote status synchronisation and output redaction: other writers of a task row go through the status write modelled here; the row a retry inserts has no key.
- TaskRuns.ExpiryFollowsPolicy: rows from before the retention migration have no output stamp and are not among the starting states; the operations of TaskTable keep the stamps of such rows too, but no policy on them.
- TaskKeys.KeyedCreateIsDispatchedOnce: hashes are opaque; that unequal requests have unequal hashes is not claimed. Rows and tombstones from before the migrations may have none and are then reused for any request, as in the source.
- QueryCursor.CursorIsBound: JSON parsing is modelled on printed text only, and UTF-8 is a parameter assumed to return that text; text that cannot be decoded is an invalid cursor, whichever exception says so. Offsets printed with an exponent, which are fractions near zero or too large to be reached, are left out. Label names that look like array indices, which JavaScript prints first, are left out.
- StableJson.StringifyIsInjective: undefined, functions and non-finite numbers, which the printer maps to no JSON text; two numbers are equal when their ECMAScript texts are.
- ShellQuote.CommandReadsBack: the shell's expansions and operators are not modelled; the model refuses text in which one could stand unquoted, and the quoted text has none.
- FileIo.File.WriteHandle: cancellation while a blocking transfer waits for its worker thread, whose queue is not part of this model; the Asio loops are stopped wherever the source looks for a stop request. Error texts and operation names are left out.
- FileIo.File.AppendWrite: other writers to the same file.
- Base64.NativeBase64Decode: inputs longer than an int can count, which OpenSSL's functions would see truncated.
- Signing, hashing, sealing and key handling: no cryptographic claims are made.
- OAuth, tunnels, registration, the user interface, telemetry, configuration and the command line.

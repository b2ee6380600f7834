# GPU rental hub: a verified model

The hub rents out GPU nodes. A rental is a row of one table, and several independent workers drive it: HTTP handlers, the
confirmation worker, pod events, expiry, timeouts, chain events and batch settlement. This project models that row protocol,
the capacity tracker behind it, the ingestion of contract events, the billing arithmetic and the query algorithms, and proves
what holds over every input, run or interleaving.

`dafny verify dfyconfig.toml` checks everything.

| part | modules |
|---|---|
| sessions as a concurrent row protocol | `Rental`, `SessionTable`, `SessionManagement`, `Interleaving`, `Lifecycle`, `Workers`, `Extensions`, `Expiration`, `HubStops` |
| capacity and provisioning | `Capacity`, `PodResources`, `Reservations`, `Provisioning` |
| chain events | `ChainEvents`, `Ingestion`, `Indexer`, `Delivery` |
| money | `Decimal`, `Billing`, `Settlement`, `Totals` |
| queries and formats | `History`, `ImageReference`, `ReferenceGrammar`, `Matching` |

**Two models of the sessions.** In `Interleaving` every SQL statement is one atomic step, and a manager's load and its later
full-row write are two, with anything in between; a creation's two checks and its insert are three. The state is the table, the
snapshots still held, the sessions the confirmation worker has listed, and the creations under way. All workers are instances of
its steps: confirmation sets the hash, and every transition, whichever worker asks for it and with whatever data, is a load and a
commit. `Lifecycle` restricts commits to
snapshots that are not stale, which covers manager calls that run alone, and proves the stronger run properties. The classes in
`SessionTable`, `SessionManagement`, `Workers`, `Expiration`, `Settlement` and `Provisioning` do the work in place and are proved
against the same functions on tables.

**Conventions.** Instants and durations are exact nanoseconds and amounts whole wei. I/O, clocks and the answers of the cluster,
the chain and the database are parameters. What an operation writes is stated in columns and numbers, as well as by the
function from table to table that the runs are made of.

**What the code does not do.** These are stated as lemmas, each with its exact condition:

- Terminal states are not absorbing under stale writes (`StaleStartRevives`), since the update has no guard on the stored state; a
  session keeps its state exactly while no write to another one is accepted (`StateKeptExactly`).
- Stops from the hub all write the empty transaction hash, so the unique index lets one of them stand at a time, until its hash
  is overwritten (`HubStopAccepted`, `HubStopBlocks`); a sweep stops one session at most, and only the earliest
  (`ProcessExpiredSessions`). A sweep works from a listing, so an extension made since does not save a session (`StopIsEarlyExactly`);
  and it deletes and releases each listed session before it tries to stop it, so exactly the sessions whose stop was refused are
  listed and released again by the next sweep (`ListedAgainExactly`). Without stale commits the workers that release after an accepted stop or failure do so
  once (`GuardedEndsOnce`); the expiry sweep and a stop request release regardless.
- Extensions that overlap can exceed the limit and lose time that was paid for (`OverlappingExtensions`, `ElevenExtensions`).
- A stop loaded before a session is settled and written after it moves the end under the recorded amount, and the record is wrong
  exactly when the times it writes bill other minutes (`LateStopMovesCost`, `RecordIsCostExactly`).
- Recording a hash does not refuse one that is already set, and a stop does not store the settlement cost (`StopDoesNotRecordCost`);
  the comments say otherwise. Sessions without heartbeat fail after 24 hours, where a comment says 30 seconds.
- One active session per user is checked before the insert and not with it, so two requests can both pass (`CreationsRace`); the
  exact condition over every interleaving is `OneActiveExactly`. When an active-session query fails, its check is skipped (`UncheckedInsert`).
- A second release of a session frees capacity others hold (`SecondReleaseUndercounts`), a refresh forgets sessions whose Pods are
  still starting (`RefreshAccounts`) but otherwise repairs any record (`RefreshRepairs`), and deleting a CPU-only session releases
  one GPU (`ZeroBecomesOne`). A refused allocation
  with a negative count would not leave the record as it was (`StagesAreAllOrNothing`), but no caller here can send one
  (`NeverNegative`). A Pod whose start was refused and whose cleanup delete fails keeps its reservation (`ProcessSession`).
- A crash between a handler and its mark handles a transaction twice (`HandledAtMostOnceExactly`); the history tables do not show
  it (`RunIsSingleDelivery`, `AnyHistoryIsSingleDelivery`).
- Ingestion deduplicates by transaction, so it handles every log exactly when none share one (`AllHandledIffOnePerTx`); and one log
  processed out of turn, after a failed backfill or before a crash inside its block, can move the checkpoint past others (`OneLogCovers`).
- A stop that is seen before its start, or two different stops, make redelivery visible (`AtLeastOnceIsExactlyOnce`).
- Pending settlement also counts settled sessions (`PendingCountsSettled`); minutes remaining wraps at 64 bits (`MinutesRemainingIsAdjoint`).
- A row with id 0, or the zero time, cannot be a cursor (`NextPageContinues`); a client that asks for more than 100 providers and
  advances by what it asked for misses some (`RequestedStepCovers`); a search by model alone gets no useful recommendations
  (`ModelOnlySearch`).

## Model

| member | source | states |
|---|---|---|
| Rental.TransitionTable | internal/domain/rental.go:25-82 | the terminal states are exactly those without successors, every allowed transition uses up one of at most two steps and none leads back to PENDING |
| SessionTable.RentalSessionRepository.Create | internal/adapters/postgres/rental_repo.go:27-68 | the insert adds exactly the row, and is refused exactly when its id, its rental or, undeleted, its hash is already there |
| SessionTable.RentalSessionRepository.GetByID | internal/adapters/postgres/rental_repo.go:71-86 | finds a session exactly when it exists and is not soft-deleted |
| SessionTable.RentalSessionRepository.GetByRentalID | internal/adapters/postgres/rental_repo.go:89-104 | finds an undeleted session of the rental whenever there is one |
| SessionTable.RentalSessionRepository.Update | internal/adapters/postgres/rental_repo.go:107-137 | writes exactly state, times, rental, hash and block of the snapshot and the update time over the stored row, whatever its state, and is refused exactly on a missing row or when another row holds the rental or, undeleted, the hash |
| SessionTable.RentalSessionRepository.TouchSession | internal/adapters/postgres/rental_repo.go:140-156 | moves updated_at of an existing row and nothing else |
| SessionTable.RentalSessionRepository.SetTxHash | internal/adapters/postgres/rental_repo.go:373-393 | sets the hash of an undeleted session and nothing else, exactly when no other undeleted row holds it; a hash already set is overwritten, although the comment promises an error |
| SessionTable.RentalSessionRepository.SoftDeletePendingBefore | internal/adapters/postgres/rental_repo.go:397-416 | deletes exactly the undeleted PENDING rows without hash created before the cutoff and counts them; a row with a hash is untouched |
| SessionTable.RentalSessionRepository.UpdateExtension | internal/adapters/postgres/rental_repo.go:475-498 | extends exactly a RUNNING undeleted session, adding one to the count and the minutes to the total |
| SessionTable.RentalSessionRepository.UpdateSettlement | internal/adapters/postgres/rental_repo.go:332-352 | records amount and time on an existing row and changes no other column but updated_at |
| SessionTable.RentalSessionRepository.Collect | internal/adapters/postgres/rental_repo.go:585-624 | the scan loop returns every matching row exactly once and nothing else, in the order of the query |
| SessionTable.RentalSessionRepository.ListPendingWithTxHash | internal/adapters/postgres/rental_repo.go:419-441 | lists exactly the undeleted PENDING sessions with a hash, each once, oldest first |
| SessionTable.RentalSessionRepository.FindByUserAndState | internal/adapters/postgres/rental_repo.go:254-276 | lists exactly the user's undeleted sessions in the state, each once, newest first |
| SessionTable.RentalSessionRepository.FindStale | internal/adapters/postgres/rental_repo.go:226-250 | lists exactly the undeleted sessions of the state not updated since the cutoff, each once, longest ago first |
| SessionTable.RentalSessionRepository.FindAllPendingSettlement | internal/adapters/postgres/rental_repo.go:307-329 | lists exactly the undeleted STOPPED sessions without settlement time, each once, oldest first |
| SessionTable.RentalSessionRepository.FindPendingSettlement | internal/adapters/postgres/rental_repo.go:280-304 | lists every undeleted STOPPED session of the user, settled ones included, each once, newest first |
| SessionTable.RentalSessionRepository.FindExpiringSessions | internal/adapters/postgres/rental_repo.go:445-471 | at most 100 due sessions in order of expiry, each once; a due session is missing only behind a full batch of sessions that expire no later |
| SessionManagement.SizedExactly | internal/sessions/manager.go:137-169 | each size by itself: a positive request within a known node total, or with the total unknown, is granted exactly, one above it gives the total, a missing or non-positive one gives 1 GPU, 4 cores, 16 GB and 50 GB of storage under the same totals, and a node without GPUs gives none |
| SessionManagement.SessionManager.CreateSession | internal/sessions/manager.go:105-176 | inserts a PENDING session with exactly the requested columns, no times, hash or settlement, and sizes granted resource by resource as above; refuses exactly when a lookup fails or the id is taken, with the error of the first that does, and without changing anything |
| SessionManagement.SessionManager.LoadAndValidate | internal/sessions/manager.go:204-215 | returns the stored row exactly when it is live and the table allows the move, with the right error otherwise |
| SessionManagement.SessionManager.TransitionToRunning | internal/sessions/manager.go:219-238 | an accepted call writes exactly state, rental, block, hash, start and update time over the row and touches no other; a missing or deleted session, and one that is not PENDING, are refused with their own errors |
| SessionManagement.SessionManager.TransitionToStopped | internal/sessions/manager.go:243-262 | an accepted call writes exactly state, end, hash, block and update time; a missing or deleted session, and one that is not RUNNING, are refused with their own errors |
| SessionManagement.SessionManager.TransitionToFailed | internal/sessions/manager.go:266-283 | an accepted call writes exactly state, the current time as end, and update time; a missing or deleted session, and a terminal one, are refused with their own errors |
| SessionManagement.SessionManager.TransitionToCancelled | internal/sessions/manager.go:287-304 | an accepted call writes exactly state, the current time as end, and update time; a missing or deleted session, and one that is not PENDING, are refused with their own errors |
| SessionManagement.RunningColumns | internal/sessions/manager.go:219-238 | a start is written exactly when the session is live and PENDING and neither its rental nor its hash is another's |
| SessionManagement.StoppedColumns | internal/sessions/manager.go:243-262 | with the indexes in place a stop is written exactly when the session is live and RUNNING and its hash is no other's |
| SessionManagement.EndedColumns | internal/sessions/manager.go:266-304 | with the indexes in place a failure or cancellation is written exactly when the table allows it |
| SessionManagement.StopDoesNotRecordCost | internal/sessions/manager.go:243-262 | a stop never changes the stored settlement amount, whatever cost it is given (the comment says it saves it) |
| SessionManagement.SessionManager.ExtendSession | internal/sessions/manager.go:308-397 | succeeds exactly when duration (30 minutes), state, count (10), price and balance allow it; then exactly expiry, count, total and update time move, the expiry to the minutes past the later of now and the old one; otherwise nothing does, and the error is that of the first failing check, with the missing amount |
| SessionManagement.CostSoFarIs | internal/sessions/manager.go:344-352 | what the balance must also cover is the price times the whole seconds the session has run |
| Interleaving.OverwrittenKeeps | internal/adapters/postgres/rental_repo.go:107-137 | writing back any snapshot that satisfies the stable predicate keeps the row well formed, keeps its identity columns, never returns it to PENDING and never revives a deleted row into RUNNING or STOPPED |
| Interleaving.StepRow | internal/adapters/postgres/rental_repo.go:107-498 | every SQL statement and every stale commit does to an existing row only what is allowed, and keeps it well formed |
| Interleaving.StepTasks | internal/sessions/manager.go:204-304 | every statement keeps the stable predicate (hash set or state past PENDING) that all in-flight snapshots carry |
| Interleaving.StepUnique | migrations/007_adr_001_confirmation.sql:12-14 | every statement keeps both unique indexes |
| Interleaving.HashInColumns | internal/adapters/postgres/rental_repo.go:373-393 | as a step, recording a hash writes exactly hash and update time, when no other undeleted row holds it |
| Interleaving.DeletionInColumns | internal/adapters/postgres/rental_repo.go:397-416 | as a step, the TTL delete marks exactly the undeleted PENDING rows without hash from before the cutoff |
| Interleaving.ExtensionInColumns | internal/adapters/postgres/rental_repo.go:475-498 | as a step, an extension writes exactly expiry, count, total and update time of a RUNNING undeleted row |
| Interleaving.BookkeepingInColumns | internal/adapters/postgres/rental_repo.go:140-352 | as steps, a heartbeat and a settlement write exactly their columns |
| Interleaving.RunInv | internal/adapters/postgres/rental_repo.go:373-441 | the invariant and the row relation hold over every interleaving of any length |
| Interleaving.EveryRunWellFormed | internal/sessions/manager.go:204-304 | from the empty table, in every interleaving: RUNNING has rental, start, hash and block and no end; STOPPED has rental, start and end; FAILED and CANCELLED have an end; indexes hold |
| Interleaving.DeletedStaysDead | internal/adapters/postgres/rental_repo.go:373-441 | once soft-deleted, a session keeps that deletion, never gets a hash and never becomes RUNNING or STOPPED, in every interleaving |
| Interleaving.ShieldedForever | internal/adapters/postgres/rental_repo.go:397-416 | a session with a hash, or past PENDING, is never soft-deleted in any interleaving |
| Interleaving.NeverPendingAgain | internal/sessions/manager.go:219-304 | no interleaving returns a session to PENDING |
| Interleaving.LoadThenCommitIsOneCall | internal/sessions/manager.go:204-304 | a load immediately followed by its commit is exactly one manager call, so the step model refines the sequential one |
| Interleaving.CreateInserts | internal/sessions/manager.go:105-176 | an undisturbed creation for a user without an active session inserts exactly the row |
| Interleaving.ListedPending | internal/adapters/postgres/rental_repo.go:419-441 | the situation the next lemma starts from arises from the empty table by a creation, a confirmation and a listing |
| Interleaving.StaleStartRevives | internal/adapters/postgres/rental_repo.go:107-137 | terminal states are not absorbing: whenever the start's identifiers are free, a start loaded before a cancellation and written after it makes the cancelled session RUNNING |
| Interleaving.HubStopAccepted | migrations/007_adr_001_confirmation.sql:12-14 | a stop from the hub, which writes the empty hash, is accepted exactly when no other undeleted row holds it |
| Lifecycle.GuardedStep | internal/domain/rental.go:64-75 | with no stale commit, every state change is one the table allows and no session becomes active again |
| Lifecycle.GuardedRunsAreShort | internal/domain/rental.go:25-82 | over any run without stale commits a session changes state at most twice and never after it is terminal |
| Lifecycle.StepKeepsState | internal/adapters/postgres/rental_repo.go:107-137 | one statement moves a session's state exactly when it is an accepted write of that session to another state |
| Lifecycle.StateKeptExactly | internal/adapters/postgres/rental_repo.go:107-137 | over every interleaving a session, terminal or not, keeps its state throughout exactly when no accepted write of it targets another state |
| Lifecycle.GuardedEndsOnce | internal/sessions/manager.go:243-287 | over any run without stale commits a session's stop or failure is accepted at most once, so a worker that releases after an accepted one releases it at most once |
| Lifecycle.CommitActivates | internal/sessions/manager.go:219-304 | a commit makes an inactive session active exactly when it is an accepted start |
| Lifecycle.CommitKeepsOneActive | internal/adapters/postgres/rental_repo.go:107-137 | a commit, stale or not, keeps at most one active session per user exactly when it is no accepted start of an inactive session beside an active one |
| Lifecycle.OtherStepsKeepOneActive | internal/adapters/postgres/rental_repo.go:140-498 | no statement other than an insert or a commit makes a second active session |
| Lifecycle.InsertKeepsOneActive | internal/adapters/http/rental_handler.go:202-220 | an insert keeps at most one active session per user exactly when its user has none at that moment, or it is refused |
| Lifecycle.OneActiveExactly | internal/adapters/http/rental_handler.go:202-220 | over every interleaving, stale commits included, each user has at most one undeleted PENDING or RUNNING session throughout, exactly when every accepted insert's check is still true when it is written and no accepted start revives a session beside an active one |
| Lifecycle.GuardedCommitsAreFresh | internal/sessions/manager.go:204-304 | without stale commits no start does, so the inserts alone decide |
| Lifecycle.CreationsRace | internal/adapters/http/rental_handler.go:202-220 | from the empty table, two requests that both ask before either inserts end with two active sessions, every query answered and no commit stale |
| Lifecycle.OneActiveInTheAtomicModel | internal/adapters/http/rental_handler.go:202-220 | when checks and insert of a creation are not interrupted, each user has at most one active session over any run |
| Lifecycle.UncheckedInsert | internal/adapters/http/rental_handler.go:204-220 | when both queries fail the insert makes a second active session exactly when the user has one |
| Lifecycle.CommitFollowsTable | internal/adapters/postgres/rental_repo.go:107-137 | a commit that moves a terminal row is always one whose snapshot is stale |
| Workers.K8sStateHandler.CalculateSettlementAmount | internal/sessions/k8s_handler.go:44-59 | price times whole seconds for a started, positive, priced duration, and zero otherwise |
| Workers.K8sStateHandler.OnPodRunning | internal/sessions/k8s_handler.go:62-102 | a heartbeat on a RUNNING session; nothing else changes, and exactly a missing session is an error |
| Workers.K8sStateHandler.OnPodFailed | internal/sessions/k8s_handler.go:105-154 | a live PENDING or RUNNING session becomes FAILED with the current time as end, and with the indexes in place always; then its Pod is deleted and what it held released; nothing else changes |
| Workers.K8sStateHandler.OnPodSucceeded | internal/sessions/k8s_handler.go:157-192 | a live RUNNING session becomes STOPPED now with the empty hash and block 0, exactly when no other undeleted row holds that hash; a terminal one is no error, a PENDING or missing one is, and nothing else changes |
| Workers.K8sStateHandler.OnPodDeleted | internal/sessions/k8s_handler.go:195-234 | the same for a RUNNING session; any other one, or none, is no error and changes nothing |
| Workers.RepeatedEventIsIdle | internal/sessions/k8s_handler.go:105-234 | delivering a failed, succeeded or deleted event again at any later time leaves the table as it is |
| Workers.FailingFits | internal/sessions/manager.go:266-283 | failing a RUNNING session is never refused by an index and moves only state, end and update time |
| Workers.TimeoutEnforcer.EnforcePendingTimeouts | internal/sessions/timeouts.go:117-136 | soft-deletes exactly the PENDING sessions without hash older than ten minutes |
| Workers.TimeoutEnforcer.EnforceRunningTimeouts | internal/sessions/timeouts.go:141-172 | exactly the undeleted RUNNING sessions not updated for 24 hours (a comment says 30 seconds) become FAILED, the longest silent first, each with the time of its turn as end, and no other row is touched |
| Workers.EventProcessor.HandleRentalStopped | internal/blockchain/processor.go:64-115 | stops the undeleted session of the rental with exactly the event's end, hash and block, then deletes its container and releases what it held; reports the manager's error, and skips unknown rentals |
| Workers.RepeatedStopIsRefused | internal/blockchain/processor.go:64-115 | the same stop delivered again is an invalid transition |
| Extensions.ExtensionStep | internal/sessions/manager.go:308-397 | one accepted extension keeps the bounds |
| Extensions.ExtensionBounds | internal/sessions/manager.go:308-397 | over any run of requests one after another: at most ten extensions, at least thirty minutes each, first time + total <= expiry <= last time + total |
| Extensions.WrittenIsTheStatement | internal/adapters/postgres/rental_repo.go:475-498 | the write of an extension adds to the stored count and total but takes the expiry computed from the loaded snapshot |
| Extensions.PromisedExactly | internal/sessions/manager.go:374-380 | for any snapshot at all, an extension keeps the limit and adds its minutes to the time bought exactly when the stored count is below the limit and the stored expiry is past or not beyond the snapshot's |
| Extensions.StoredIsExact | internal/sessions/manager.go:369-380 | among writes that kept their promise this is so exactly when the stored expiry is still the snapshot's, or past |
| Extensions.OverlappingExtensions | internal/sessions/manager.go:308-397 | over every run of overlapping requests, each accepted on any row of the run and written in any order, every promise is kept exactly when that holds at each write |
| Extensions.OverlappingBounds | internal/sessions/manager.go:308-397 | and then at most ten extensions of at least thirty minutes each lead to an expiry of at least the first request written, and at most some request, plus the total |
| Extensions.ElevenExtensions | internal/sessions/manager.go:376-380 | two requests loaded at the ninth extension are both written: eleven extensions, and only the second's expiry |
| Extensions.ExtensionReaches | internal/sessions/manager.go:369-374 | an extension never shortens a session: the expiry lies at least the granted minutes past both the request and the earlier expiry |
| Expiration.AtMostOneStopped | migrations/007_adr_001_confirmation.sql:12-14 | two sessions stopped from the hub would share the empty hash, so at most one of a sweep's stops is written |
| Expiration.ExpirationWorker.DeletePod | internal/k8s/job_executor.go:149-191 | what the session holds is released on its node when the deletion works, and no other record of any provider changes |
| Expiration.ExpirationWorker.ExpireSession | internal/sessions/expiration_worker.go:110-164 | the Pod is deleted and what it held released first, whatever becomes of the stop; the amount is the per-second amount and the outcome that of one stop |
| Expiration.ExpirationWorker.ProcessExpiredSessions | internal/sessions/expiration_worker.go:85-107 | a sweep with nothing in between stops, of the listed sessions, exactly the earliest when no undeleted row holds the empty hash, exactly the one that holds it already otherwise, and no other; each at or after its expiry. Every listed session, stopped or not, is deleted once, and the capacity records are exactly what these deletions leave, in order |
| Expiration.ListedAgainExactly | internal/sessions/expiration_worker.go:85-107 | a listed session is listed, and so released, by the next sweep too only if its stop was refused, and then always, unless more than a hundred sessions are due no later than it |
| Expiration.HubStopFits | migrations/007_adr_001_confirmation.sql:12-14 | stopping a session from the hub is accepted exactly when no other undeleted row holds the empty hash |
| Expiration.FreeAtItsTurn | internal/sessions/expiration_worker.go:85-107 | at each turn of the sweep the hash is free exactly for the session the sweep is to stop |
| HubStops.EmptyHashStep | internal/adapters/postgres/rental_repo.go:107-137 | an undeleted row with the empty hash keeps it exactly until a hash is recorded or committed over it; nothing deletes it |
| HubStops.HubStopBlocks | migrations/007_adr_001_confirmation.sql:12-14 | in every interleaving, one accepted hub stop blocks every later hub stop of another session until its hash is overwritten |
| HubStops.BringsRunning | internal/sessions/confirmation_worker.go:116-184 | an undisturbed creation, confirmation and start make a session RUNNING |
| HubStops.SecondHubStopIsRefused | internal/sessions/k8s_handler.go:157-234 | a run from the empty table in which the hub stops one of two RUNNING sessions and is refused the other |
| HubStops.ExpiryFollowsExtensions | internal/adapters/postgres/rental_repo.go:475-498 | along every interleaving the expiry is what the last accepted extension wrote |
| HubStops.StopIsEarlyExactly | internal/sessions/expiration_worker.go:110-164 | a session listed as due and stopped later ends before its expiry exactly when it was extended since, the last time to beyond the stop |
| HubStops.ExtendedWhileStopping | internal/sessions/expiration_worker.go:110-164 | an extension between load and write of the stop ends a session before its new expiry |
| Capacity.NodeCapacity.constructor | internal/k8s/capacity.go:164-212 | a discovered record has one GPU type and availability floored at zero |
| Capacity.NodeCapacity.AllocateGPU | internal/k8s/capacity.go:258-267 | takes the GPUs exactly when enough are available, else changes nothing |
| Capacity.NodeCapacity.AllocateCPU | internal/k8s/capacity.go:269-280 | takes the cores, or gives the GPUs back |
| Capacity.NodeCapacity.AllocateMemory | internal/k8s/capacity.go:282-295 | takes the memory, or gives GPUs and cores back |
| Capacity.NodeCapacity.Allocate | internal/k8s/capacity.go:225-314 | the in-place stages and rollbacks compute the staged specification |
| Capacity.NodeCapacity.Release | internal/k8s/capacity.go:318-395 | releases with both clamps on each resource, on the charged GPU type |
| Capacity.NodeCapacity.ResolveType | internal/k8s/capacity.go:239-248 | an empty or untracked GPU type is charged to the primary model |
| Capacity.StagesAreAllOrNothing | internal/k8s/capacity.go:225-314 | an allocation succeeds exactly when all three resources suffice and then takes all three; a refused one leaves the record as it was exactly when no negative count was rolled back |
| Capacity.AllocationInNumbers | internal/k8s/capacity.go:225-314 | an allocation of counts from zero up is refused exactly with the first of GPU, CPU and memory that falls short and then changes nothing, and otherwise moves exactly the counts from available to in use, on the type asked for if the node has it and on its own model otherwise |
| Capacity.ReleaseInNumbers | internal/k8s/capacity.go:318-395 | a release takes each count from in use, not below zero, and adds it to available, not above the total, on that type and no other |
| Capacity.NodeInNumbers | internal/k8s/capacity.go:164-212 | a fresh record shows the node's totals, what its Pods use, and the rest as available, never below zero |
| Capacity.CapacityTracker.Discover | internal/k8s/capacity.go:182-212 | installs one node's fresh record and leaves every other one in place |
| Capacity.CapacityTracker.GetCapacity | internal/k8s/capacity.go:399-407 | the record of a known node, else none |
| Capacity.CapacityTracker.AllocateResources | internal/k8s/capacity.go:225-314 | unknown provider and node errors, otherwise the all-or-nothing outcome on that node's record |
| Capacity.CapacityTracker.ReleaseResources | internal/k8s/capacity.go:318-395 | releases on a known node and ignores an unknown one |
| Capacity.DiscoveryBalanced | internal/k8s/capacity.go:164-212 | a refresh starts with available + in use = total exactly when no more is used than there is |
| Capacity.ReserveKeepsBalance | internal/k8s/capacity.go:225-314 | a successful reservation keeps available + in use = total and the totals |
| Capacity.ReleaseKeepsBalance | internal/k8s/capacity.go:318-395 | a release keeps the balance exactly when no negative count exceeds what is available, so every over-release does |
| Capacity.ReleaseInvertsReserve | internal/k8s/capacity.go:225-395 | releasing what was just reserved restores the record exactly |
| Capacity.RunKeepsBalance | internal/k8s/capacity.go:225-395 | available + in use = total per resource and GPU type over every run of allocations and releases, over-releases included |
| Capacity.DiscoveryRestorable | internal/k8s/capacity.go:164-212 | every discovered record, also one with more used than there is, is left alone by the clamps when a reservation is undone |
| Capacity.CapacityTracker.DiscoverCapacity | internal/k8s/capacity.go:108-220 | every listed node that is ready and not control plane gets a fresh record; a control-plane node, one that is not ready and one that is not listed keep exactly the entry they had, or none; without a list nothing changes |
| Reservations.OpenAccounts | internal/k8s/capacity.go:225-314 | an allocation adds its session to the books, and a refused one changes nothing |
| Reservations.ReleaseAccounts | internal/k8s/capacity.go:318-395 | releasing an open session, or what its Pod reads as, keeps the books right, whether it was opened before or after the last refresh |
| Reservations.CountedTotals | internal/k8s/capacity.go:526-562 | a refresh counts the GPUs and cores of the open sessions exactly and their memory low by one GB each |
| Reservations.RefreshAccounts | internal/k8s/capacity.go:108-220 | a refresh leaves the books right exactly when every open session's Pod is running and the requested memory fits; a session still starting is forgotten |
| Reservations.MoveAccounts | internal/k8s/capacity.go:108-395 | right books stay right through one allocation, release, monitor release or refresh, except exactly through a refresh that finds an open session's Pod not running or more memory requested than there is |
| Reservations.RunAccounts | internal/k8s/capacity.go:108-395 | over every run of them in which each session is opened once and released once, the books are right throughout exactly when no refresh is such: GPUs and cores in use are exactly those of the open sessions, and memory lies between their sum less one GB per session the last refresh counted and their sum plus one GB per release from a Pod since |
| Reservations.RefreshRepairs | internal/k8s/capacity.go:108-220 | from any record, whatever went wrong before, a refresh that finds every open session's Pod running makes the books right exactly when what they hold fits the node |
| Reservations.SecondReleaseUndercounts | internal/k8s/job_executor.go:149-191 | after a session is released the books are right, and after it is released again exactly when nothing of the kind is left in use, or the memory bound has room |
| PodResources.ExtractPodResources | internal/k8s/capacity.go:549-562 | sums what the containers of a Pod request |
| PodResources.ReadBack | internal/k8s/job.go:91-127 | reading a reservation back from its Pod is exact for GPUs and cores and one GB low in memory, for every size from one up |
| PodResources.RequestsInNumbers | internal/k8s/job.go:91-127 | a session's Pod requests its GPUs, half a core less than its cores and half a gibibyte less than its memory |
| PodResources.UsageAdds | internal/k8s/capacity.go:549-562 | the containers of a Pod add up, CPU rounded up to whole cores and memory down to whole gibibytes |
| PodResources.CountUsedResources | internal/k8s/capacity.go:526-546 | sums the running session Pods of the node and no others |
| PodResources.CountedUsage | internal/k8s/capacity.go:526-562 | counted usage equals the live reservations in GPUs and cores and is one GB per Pod below in memory |
| PodResources.CountedElsewhere | internal/k8s/capacity.go:526-546 | Pods of other nodes, and Pods that do not run, add nothing |
| PodResources.ReleaseOn | internal/k8s/capacity.go:318-395 | a release on one node leaves the provider's other records alone |
| PodResources.CheckPod | internal/k8s/expiration.go:83-126 | a due Pod gives back what its requests read, on its own node only |
| PodResources.PodGivesBack | internal/k8s/expiration.go:83-126 | in the Pod's fields: once it has finished, or its time is past, exactly what its requests add up to is given back on its node |
| PodResources.CheckCluster | internal/k8s/expiration.go:72-159 | the loop gives back exactly the due Pods' requests, node by node |
| PodResources.MonitorReleasesLess | internal/k8s/expiration.go:83-126 | the monitor's release after a reservation restores everything but one GB of memory, and never gives back more than was reserved |
| Provisioning.K8sJobExecutor.CreateGPUSession | internal/k8s/job_executor.go:55-146 | succeeds exactly when the cluster cooperates and a resolved node has room; then exactly the reservation is added, and otherwise the record is as before |
| Provisioning.K8sJobExecutor.DeleteGPUSession | internal/k8s/job_executor.go:149-191 | releases the session's sizes, 1 GPU, 4 cores and 16 GB for non-positive ones, exactly when its Pod was deleted on a resolved node; a missing cluster counts as deleted |
| Provisioning.CreationSizes | internal/sessions/manager.go:137-169 | the sizes a session is created with suit its node |
| Provisioning.CreatedStaysSized | internal/adapters/postgres/rental_repo.go:107-137 | they still do after any interleaving, since no statement writes them |
| Provisioning.NeverNegative | internal/sessions/confirmation_worker.go:218-265 | no reservation of the worker and no release of a deletion has a negative count |
| Provisioning.WorkerReservesSession | internal/sessions/confirmation_worker.go:187-318 | defaulting and capping in manager, worker and executor agree: what is reserved is what the session's columns say |
| Provisioning.DeletionInvertsReservation | internal/k8s/job_executor.go:149-191 | deleting restores the record exactly, although it names no GPU type and turns zero GPUs into one |
| Provisioning.ZeroBecomesOne | internal/k8s/job_executor.go:149-191 | the extra GPU of a CPU-only session is absorbed exactly when the node has none in use and none missing |
| Provisioning.ConfirmationWorker.BuildSpec | internal/sessions/confirmation_worker.go:218-265 | the step-by-step defaults and caps give the worker's specification |
| Provisioning.ConfirmationWorker.StartOrCleanUp | internal/sessions/confirmation_worker.go:267-318 | with the Pod made and the reservation held: the session starts exactly when the manager accepts it; the reservation stays held when it does or when the cleanup delete fails, and is undone exactly otherwise |
| Provisioning.ConfirmationWorker.HandleConfirmedTransaction | internal/sessions/confirmation_worker.go:187-318 | which of started, failed and left alone is decided exactly by node, room, cluster and the manager, whatever other workers did to the table meanwhile; afterwards exactly the reservation is held when the session started, or when a Pod was made, the start refused and the cleanup delete failed, and the capacity is as before otherwise |
| Provisioning.ConfirmationWorker.ProcessSession | internal/sessions/confirmation_worker.go:116-184 | a session becomes RUNNING only with the rental id and start time of the first start log of the contract in a mined, successful receipt naming its user and provider; a readable receipt that does not confirm it fails it, a confirming one leads exactly to the outcome above, an undecided one changes nothing, and no other row changes; exactly the reservation is held when the session started, or when on a confirming receipt a Pod was made, the start refused and the cleanup delete failed, and the capacity is unchanged otherwise |
| Provisioning.StartsFromEvents | internal/blockchain/verifier.go:140-158 | the row so started carries the rental id, the parties and the receipt's block of the event emitted first, and its start time in seconds since the epoch, exactly when id and time fit the words they pass through |
| Ingestion.LogsInMembers | internal/blockchain/listener.go:195-204 | a query returns exactly the chain's logs of its block range |
| Ingestion.WindowsJoin | internal/blockchain/listener.go:188-214 | two consecutive windows read exactly the logs of their union, in the same order |
| Ingestion.CheckpointStore.UpdateCheckpoint | internal/blockchain/checkpoint.go:44-51 | the checkpoint moves to the block or stays, never back |
| Ingestion.CheckpointStore.MarkProcessed | internal/blockchain/checkpoint.go:66-73 | adds the transaction, again or for the first time, and nothing else |
| Ingestion.CheckpointStore.SaveFailedEvent | internal/blockchain/checkpoint.go:77-83 | appends to the dead-letter queue and changes nothing else |
| Ingestion.EventListener.ProcessLog | internal/blockchain/listener.go:221-297 | duplicates and unknown events are skipped, failures dead-lettered without moving the checkpoint, successes marked and checkpointed |
| Ingestion.EventListener.ProcessWindow | internal/blockchain/listener.go:201-211 | processes every log of the window in order, continuing after failures |
| Ingestion.EventListener.Backfill | internal/blockchain/listener.go:169-217 | the windows read tile the range from the checkpoint without gap or overlap, exactly their logs are processed, and all of the range unless a query failed; it terminates |
| Ingestion.BackfillCovers | internal/blockchain/listener.go:169-297 | a backfill to any height accounts for every known log up to it and keeps everything at or below the checkpoint accounted for |
| Ingestion.EveryRunCovers | internal/blockchain/listener.go:169-297 | after any sequence of backfills, with failing handlers and crashes between blocks, every known log at or below the checkpoint is processed or dead-lettered, and the checkpoint never decreases |
| Ingestion.NoWrapExactly | internal/blockchain/listener.go:189-193 | the 64-bit loop arithmetic never wraps exactly when the first start past the current block fits; when it wraps the loop goes on from the first blocks |
| Ingestion.RunCoversExactly | internal/blockchain/listener.go:119-297 | over any run of backfills, live logs and crashes, nothing at or below the checkpoint is ever lost exactly when every single log comes in turn |
| Ingestion.OneLogCovers | internal/blockchain/listener.go:119-151 | a single log, live or before a crash inside its block, keeps that coverage exactly when the other known logs it moves below the checkpoint were already accounted for |
| Ingestion.HandledOnce | internal/blockchain/listener.go:221-297 | without crashes inside a log, every transaction is handled successfully at most once, and the processed set is exactly the handled transactions |
| Ingestion.AtMostOnceExactly | internal/blockchain/listener.go:221-297 | whatever is delivered later, no transaction is handled twice exactly when none was and every handled one is marked |
| Ingestion.HandledAtMostOnceExactly | internal/blockchain/listener.go:276-295 | over any run of backfills, live logs and crashes, every transaction is handled at most once, then and later, exactly when no crash fell between a success and its mark |
| Ingestion.AllHandledIffOnePerTx | internal/blockchain/checkpoint.go:55-73 | without handler failures a first backfill handles every known log exactly when no two of them share a transaction |
| Indexer.IndexerRepository.InsertDepositWithdraw | internal/indexer/repository.go:56-70 | inserts unless the (transaction, log index) key exists |
| Indexer.IndexerRepository.InsertRentalStarted | internal/indexer/repository.go:75-90 | inserts unless the rental id exists |
| Indexer.IndexerRepository.UpdateRentalStopped | internal/indexer/repository.go:95-112 | writes the stop columns and the duration of an existing rental, and nothing for a missing one |
| Indexer.IndexerProcessor.HandleDeposited | internal/indexer/processor.go:31-43 | stores the event's values as a deposit stamped with the current time |
| Indexer.IndexerProcessor.HandleWithdrawn | internal/indexer/processor.go:47-59 | stores the event's values as a withdrawal stamped with the current time |
| Indexer.IndexerProcessor.HandleRentalStarted | internal/indexer/processor.go:63-74 | opens the rental's row with the event's renter, provider, start time, transaction and block, unless there is one, and changes nothing else |
| Indexer.IndexerProcessor.HandleRentalStopped | internal/indexer/processor.go:78-88 | closes the rental's row, if there is one, with the event's end, cost, transaction and block and the time between, and changes nothing else |
| Indexer.RentalsDelivered | internal/indexer/repository.go:75-112 | after any deliveries a rental's row is made by its first start and closed by its last stop after that |
| Indexer.RentalColumns | internal/indexer/processor.go:63-74 | after any deliveries a new rental's row shows renter, provider, start time, transaction and block of its first start |
| Indexer.RentalStaysOpen | internal/indexer/repository.go:75-112 | it is open as long as no stop comes after that start |
| Indexer.StopColumnsDelivered | internal/indexer/repository.go:95-112 | then it shows end, cost, transaction and block of the last stop after that start, and the seconds between start and end |
| Indexer.TransfersDelivered | internal/indexer/repository.go:56-70 | after any deliveries a deposit or withdrawal row is the first one delivered for its key |
| Indexer.AtLeastOnceIsExactlyOnce | internal/indexer/repository.go:56-112 | for every pattern of repeats and every clock, repeated delivery leaves the tables of single delivery (clock readings aside) exactly when each rental with a row has one effective stop |
| Indexer.ContractOrderSuffices | internal/indexer/repository.go:56-112 | chains with one stop per rental, after its start, always meet that condition |
| Indexer.RestartIsHarmless | internal/blockchain/listener.go:284-295 | a crash between handler and mark, or anywhere, followed by redelivery of already handled events, leaves the tables of an uninterrupted run |
| Delivery.BackfillHandles | internal/blockchain/listener.go:169-217 | a backfill that starts with nothing lost extends the handled events, first occurrences only, to a longer prefix of the chain |
| Delivery.RunIsSingleDelivery | internal/blockchain/listener.go:169-297 | with handlers that never fail and one known log per transaction: whatever a run of backfills, live logs and crashes delivers again, the history tables end as if the first events of the chain had been delivered once each, and where the checkpoint lost nothing these are all up to it |
| Delivery.AnyHistoryIsSingleDelivery | internal/blockchain/listener.go:119-297 | with failing handlers and shared transactions too, whatever was handled, in whatever order and however often, leaves the tables of handling each event once, in order of its first time, whenever each rental with a row has one effective stop, and for every pattern of repeats exactly then |
| Billing.CostIsBounded | internal/settlement/calculator.go:33-47 | cost is at most the balance exactly when the duration is at most balance div (60 price) minutes |
| Billing.MinutesRemainingIsAdjoint | internal/settlement/calculator.go:100-112 | minutes remaining is that adjoint for all sessions exactly when the quotient fits 63 bits |
| Billing.WrapsToWord | internal/settlement/calculator.go:100-112 | beyond that the result is the signed word that agrees with the quotient modulo 2^64 |
| Billing.CostMonotone | internal/settlement/calculator.go:33-47 | a longer session never costs less |
| Billing.SplitCost | internal/settlement/calculator.go:33-47 | splitting a session at any point costs at least as much and at most one more minute |
| Billing.SecondsAgainstMinutes | internal/sessions/k8s_handler.go:44-59 | the per-second amount is at most the per-minute cost and at most one minute's price below it |
| Billing.ListingTotal | internal/settlement/calculator.go:68-94 | a sum accumulated over a query result in any order is the sum over the matching rows |
| Billing.CostUntilIs | internal/settlement/calculator.go:33-47 | a session with a start and a price costs sixty times the price for each minute begun, up to any instant and in full up to its end |
| Billing.CostsNothing | internal/settlement/calculator.go:53-96 | one without a start, a usable price or time passed costs nothing |
| Billing.CalculatePendingSettlement | internal/settlement/calculator.go:53-96 | the loops return the cost so far of the user's undeleted RUNNING sessions plus the full cost of the undeleted STOPPED ones |
| Billing.PendingCountsSettled | internal/adapters/postgres/rental_repo.go:280-304 | the stopped part is the unsettled cost exactly when every settled session of the user was free |
| Settlement.BatchProcessor.SettleSession | internal/settlement/processor.go:134-186 | records the exact cost of a due, priced session, skips others, and reports exactly a failed write |
| Settlement.BatchProcessor.ProcessBatch | internal/settlement/processor.go:96-131 | exactly the undeleted STOPPED sessions without settlement time that have times and a price, and whose write succeeds, get their cost and the current time recorded, and no other column or row changes |
| Settlement.BatchConserves | internal/settlement/processor.go:96-186 | cost unsettled before = amounts recorded + cost still unsettled, whatever subset of the writes fails |
| Settlement.NothingSkipped | internal/settlement/processor.go:96-186 | after a batch a session is still due exactly when its write failed or it has no usable price or times |
| Settlement.RunConserves | internal/settlement/processor.go:96-186 | the same conservation over any number of batches, with recorded amounts never changed again |
| Settlement.RecordSurvives | internal/adapters/postgres/rental_repo.go:107-137 | a recorded amount survives every interleaving of the other workers, stale commits included |
| Settlement.TimesFollowWrites | internal/adapters/postgres/rental_repo.go:107-137 | along every interleaving a session's start and end are those of the last accepted commit of it, or unchanged without one |
| Settlement.RecordIsCostExactly | internal/settlement/processor.go:134-186 | after a settlement and any interleaving without another, the recorded amount is still the session's cost exactly when no commit of it was accepted since, or it is free, or the times the last accepted one wrote bill the same minutes |
| Settlement.OnlyStaleCommitsRewrite | internal/adapters/postgres/rental_repo.go:107-137 | only a commit whose snapshot was loaded before the stop rewrites the times of a STOPPED session |
| Settlement.LateStopMovesCost | internal/sessions/manager.go:243-262 | two stops loaded together, with the settlement in between, leave an amount that is not the cost |
| Decimal.PriceRoundTrip | internal/sessions/expiration_worker.go:14-19 | a price printed with any fraction reads back as its whole amount |
| Decimal.OtherPrices | internal/sessions/expiration_worker.go:14-19 | a sign is read; nothing before the point, or a character that is no digit, is no price |
| History.BelowKth | internal/indexer/query_repository.go:59-68 | the rows below the k-th row's key are exactly the rest of the listing |
| History.SelectedIsExact | internal/indexer/query_repository.go:59-68 | a request selects exactly the rows below its cursor, strictly descending |
| History.PageExactly | internal/indexer/query_repository.go:51-83 | a page holds rows before the cursor, where no time means now and no id the highest, newest first, as many as asked for from 1 to 100 and 50 when nothing was, and a row is left out only behind a full page of newer ones |
| History.QueryRepository.GetDepositWithdrawHistory | internal/indexer/query_repository.go:33-112 | returns the page, only rows of the user as they are stored, whether it was full, and the last row's key as cursor |
| History.QueryRepository.NoTransferMissed | internal/indexer/query_repository.go:33-112 | every deposit or withdrawal of the user before the cursor is shown, or the page is full of newer ones |
| History.QueryRepository.GetRentalHistory | internal/indexer/query_repository.go:117-183 | the same for a user's rentals, exactly those without an end marked active |
| History.QueryRepository.GetRentalHistoryByProvider | internal/indexer/query_repository.go:188-254 | the same for a provider's rentals |
| History.QueryRepository.NoRentalMissed | internal/indexer/query_repository.go:117-183 | the same for the user's rentals |
| History.QueryRepository.NoProviderRentalMissed | internal/indexer/query_repository.go:188-254 | and for those of a provider |
| History.QueryRepository.ScanRentalItems | internal/indexer/query_repository.go:258-294 | every scanned row in order, active exactly without end time |
| History.NextPageContinues | internal/indexer/query_repository.go:51-68 | after a full page the next request selects exactly the rest if and only if the last row's id is not 0 and its timestamp not the zero time; otherwise the row is listed again |
| History.FollowingListsAll | internal/indexer/query_repository.go:33-183 | following the cursors lists every row below the first cursor exactly once, newest first, in total / limit + 1 pages |
| ImageReference.ContainSound | internal/images/validator.go:22-49 | the character analysis of an expression covers every string it matches |
| ImageReference.DoubleSound | internal/images/validator.go:22-49 | the adjacency analysis covers every doubled character |
| ImageReference.GrammarPassesShapeChecks | internal/images/validator.go:95-115 | no string of the grammar has an invalid character, a leading, trailing or doubled slash, or a leading or doubled colon |
| ImageReference.GrammarPassesDigestCheck | internal/images/validator.go:117-137 | in a string of the grammar the part after the first '@' is the algorithm and exactly the right number of hex characters |
| ImageReference.ValidateDigest | internal/images/validator.go:117-137 | the loop reports the first check of the digest that fails |
| ImageReference.ValidateFormat | internal/images/validator.go:84-145 | reports the first failing check, and for ASCII input none exactly when the length is 1 to 500, the lower-cased string is in the grammar and nothing after '@' is upper case |
| ImageReference.ErrorsOfLength | internal/images/validator.go:84-95 | which error is reported, in characters: empty, too long, an invalid character |
| ImageReference.ErrorsInOrder | internal/images/validator.go:97-106 | then a leading, trailing or doubled slash, the first that holds |
| ImageReference.ColonErrors | internal/images/validator.go:106-115 | then a leading or doubled colon |
| ImageReference.DigestErrors | internal/images/validator.go:117-137 | and which error of the digest |
| ImageReference.ValidIffReference | internal/images/validator.go:25-145 | the checks and the grammar together accept exactly those references: the hand-written checks reject nothing more |
| ReferenceGrammar.NameMatches | internal/images/validator.go:25-32 | a name is lower-case letters and digits with single separators inside |
| ReferenceGrammar.RepositoryMatches | internal/images/validator.go:22-49 | a repository is names with slashes between, or a host with or without a port before them |
| ReferenceGrammar.SuffixMatches | internal/images/validator.go:22-49 | behind it comes nothing, a colon and a tag, or '@sha256:' and 64 hex characters |
| ReferenceGrammar.GrammarIs | internal/images/validator.go:22-49 | the expression matches exactly a repository and such a suffix |
| ReferenceGrammar.AcceptedExactly | internal/images/validator.go:84-145 | validation accepts exactly 1 to 500 characters that, lower-cased, are that, with no upper case after the first '@' |
| Matching.ApplyFilters | internal/matching/matcher.go:155-193 | keeps exactly the nodes that meet every given minimum and the maximum price, in order |
| Matching.KeepCounts | internal/matching/matcher.go:155-193 | a filter keeps every passing node as often as it is listed, and no other |
| Matching.PagesJoin | internal/matching/matcher.go:126-152 | consecutive pages of the effective size concatenate to the list, for every size |
| Matching.PageExactly | internal/matching/matcher.go:126-152 | one page is the nodes from the offset on, as many as asked for from 1 to 100, 20 when nothing was |
| Matching.PagesListAllWanted | internal/matching/matcher.go:67-213 | consecutive pages list the nodes with free GPUs of the type or model asked for that meet every given minimum and the maximum price, each as often as listed and no other; the cheapest first, or on request those with the most memory |
| Matching.RequestedStepCovers | internal/matching/matcher.go:126-152 | advancing by the requested limit covers the list exactly when it is at most 100 or the list is |
| Matching.GetSimilarGpus | internal/matching/matcher.go:216-261 | the two passes return the first three of one node per type, the requested family before the vendor's others |
| Matching.SimilarAreSimilar | internal/matching/matcher.go:216-261 | at most three, of distinct types, of the requested vendor, same family first |
| Matching.NamesOfVendors | internal/matching/matcher.go:264-276 | a name with one of NVIDIA's marks anywhere, in any case of letters, is NVIDIA's, and one with AMD's and none of these AMD's |
| Matching.NamesOfFamilies | internal/matching/matcher.go:279-303 | the first of the family marks that occurs in the upper-cased name decides its family |
| Matching.SimilarByName | internal/matching/matcher.go:216-261 | in the nodes' own fields: listed nodes of different types, all of the requested vendor, those of the requested family first |
| Matching.SimilarAreComplete | internal/matching/matcher.go:216-261 | another family is recommended only beside every type of the requested one, and fewer than three only when every type of the vendor is listed |
| Matching.ModelOnlySearch | internal/matching/matcher.go:118-120 | a search by model alone recommends only nodes of no known vendor |
| Matching.FindProviders | internal/matching/matcher.go:67-123 | the total, the page of the sorted wanted nodes, and recommendations exactly when nothing matches |
| ChainEvents.IdentifiedParses | internal/blockchain/events.go:211-228 | dispatch and parsers agree: an identified event can fail only on its shape, and what parses is identified |
| ChainEvents.StartedRoundTrip | internal/blockchain/events.go:58-92 | parsing an ABI-encoded start returns it exactly when its id and time are below 2^64 |
| ChainEvents.StoppedRoundTrip | internal/blockchain/events.go:98-130 | parsing an ABI-encoded stop returns its cost in full 256 bits, and all of it exactly when its id and time are below 2^64 |
| ChainEvents.TransferRoundTrip | internal/blockchain/events.go:133-199 | parsing an encoded deposit or withdrawal returns it |
| ChainEvents.FirstStartUnique | internal/blockchain/verifier.go:116-160 | at most one log is the first start log of the contract |
| ChainEvents.VerifyTransaction | internal/blockchain/verifier.go:86-164 | confirms exactly on a mined, successful receipt whose first start log of the contract names user and provider, with that log's values |
| ChainEvents.EmittedStartConfirms | internal/blockchain/verifier.go:86-164 | from the emitted event to the answer: exactly the parties it names are confirmed, with the receipt's block, and the answer carries its rental id, and its time in seconds since the epoch, exactly when they are below 2^64 and 2^63 |

## Left out

- SessionTable.RentalSessionRepository.Create: column widths, foreign keys and a database that is unreachable are not modelled; a statement either takes effect or is refused by an index.
- SessionManagement.SessionManager.ExtendSession: the extension audit record and its idempotency key are a separate table that nothing here reads.
- SessionManagement.SessionManager.CreateSession: image and node lookups are parameters; a listing of images is not part of this model.
- Billing.CostIsBounded: durations are exact, where the code goes through float64 and saturates beyond 292 years.
- Capacity.CapacityTracker.DiscoverCapacity: reading a node's labels, the database sync, mining counts and the recovery of allocations at start are not part of this model; nodes come with their counted usage.
- Capacity.NodeCapacity.Allocate: record maps that are nil, and integer overflow, are not modelled.
- PodResources.CheckCluster: a Pod's expiry annotation is parsed and requests are in whole millicores and mebibytes; quantities round up as the library documents.
- Provisioning.K8sJobExecutor.CreateGPUSession: tenant set-up, Pod creation and node resolution are answers in a parameter; the path for a Pod that already exists, which succeeds without a new Pod, counts as created. GPU counts are not negative, as every caller makes them.
- Provisioning.ConfirmationWorker.HandleConfirmedTransaction: node totals are those of creation, and SSH details are not stored.
- Provisioning.ConfirmationWorker.ProcessSession: one session; the loop over the listed sessions is this call repeated, which the interleaving model covers.
- Ingestion.EventListener.Backfill: a range so close to 2^64 that the window arithmetic wraps is excluded (exactly those, see NoWrapExactly); every store write succeeds; chain reorganisations are not modelled.
- Indexer.TransfersDelivered: the serial id of a deposit row is not modelled; addresses are compared by value, so lower-casing does nothing.
- History.QueryRepository.GetDepositWithdrawHistory: the query itself is the ordered selection by key; the text form of a cursor is not modelled.
- ImageReference.ValidateFormat: lower-casing is that of ASCII, and for other text the model does not speak; a length is in bytes.
- Matching.FindProviders: the library sort is a parameter with its documented contract, so nodes of equal key come in any fixed order.
- Matching.ApplyFilters: a node's price is the integer its text is read as, and what a text that is no number is read as is left open.
- Reservations.RunAccounts: a refresh that finds Pods of sessions the books do not know is not covered; every session's release is that of its reservation, which Provisioning shows deletions to be, and made once, which Lifecycle shows of guarded runs.
- Settlement.RunConserves: sessions that other workers stop between two batches are not part of the conserved total; what other workers do to a recorded amount is in RecordSurvives and RecordIsCostExactly.
- Expiration.ExpirationWorker.ProcessExpiredSessions: nothing else runs during one sweep; HubStops covers stops with anything in between.
- Delivery.RunIsSingleDelivery: handlers that fail and transactions with several known logs are covered by AnyHistoryIsSingleDelivery, which does not say how far along the chain the handled events reach.
- ChainEvents.VerifyTransaction: signatures are distinct constants (no hashing) and receipts are given.
- Other list queries, hash lookup, SSH data, node registration and sync, the GPU pool, tenant quotas, HTTP routing and authentication: plumbing, or members that would only be easy.
- Tickers, goroutines and back-off: each worker's body is a step or a call, and mutex-guarded methods are atomic.

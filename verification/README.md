# Verified models of the memory store's concurrent and resumable parts

This project models, in Dafny, the parts of the memory package and its benchmarks whose correctness
depends on interleavings, on data that changes between two reads, or on exact arithmetic, and proves
what their documentation and tests promise of them. `dafny verify dfyconfig.toml` checks all of it.

| files | what they model |
|---|---|
| `WorkerPool`, `PoolRuns`, `PoolClock`, `PoolObject` | the graph worker pool: every lock region is one step, any enabled step of any thread may come next |
| `LiveStores`, `LiveStoreRuns`, `LiveStoreLocks`, `LiveStoreObject` | the registry of live SQLite files: open stores, read leases, parked and deferred descriptors, queued finalizers, with whatever a path names changing between any two readings |
| `SlotMatrix`, `SpaceIndex`, `NamespaceIndex`, `RefreshObject` | the namespace's similarity index: slot matrix, map of spaces, and the incremental refresh against a store that is written between every two of its reads |
| `SiblingCache` | the byte-bounded cache of sibling stores, with states that callers keep after eviction |
| `Traversal`, `WalkTrace`, `GraphWalk` | the paged breadth-first walk over stored edges: the filtered graph, what a walk read and found, the loops |
| `PositionalScores` (on `Sorting`) | positional scores of a recall and the stable sort they feed |
| `Sweep`, `Reembed`, `CursorToken` | the resumable sweep, the two-phase re-embed run, and its cursor token |
| `RankAuc`, `McNemar`, `Allocation` | the evaluation arithmetic, in exact numbers |
| `BatchLog`, `BatchProtocol`, `BatchRuns` | the paid-batch protocol, with the process dying anywhere |

A state machine is a datatype with its step functions, an invariant proved for every step, and theorems
over every run; beside it stands a class whose fields are the source's tables and whose methods are each
proved to take exactly one of those steps. Algorithms that loop are methods proved against a
specification that is stated independently of the loop.

## What turned out not to hold

Each is shown by a lemma with a concrete run or input, and beside it stands the exact condition under
which the claim does hold.

* **An index entry can stay wrong after the row has settled.** `_sync` records the proof it read first
  with the vector it read later. If the row changes in between and later gets its first vector back, the
  recorded proof matches again and the vector is never re-read (`NamespaceIndex.ProofComesBack`). In
  every run, the proof recorded for a settled ACTIVE row is the row's own, and the row is held where it
  should be if and only if its entry is neither torn nor an orphan (`NamespaceIndex.RowRightIff`). Torn
  means that the last step that wrote the entry read a record placed elsewhere than the proof it had
  read, or added another vector under a proof already recorded (`NamespaceIndex.TornIff`). An entry is
  not torn if no proof that this row had lost has come back to it (`NamespaceIndex.SettledIsNotTorn`).
* **A row that lost its proof can be returned.** A row indexed by `add` and not by a refresh is in the
  index without a recorded proof, an orphan if the row then loses its own; the periodic reconcile looks
  for vanished proofs only among the recorded ones (`NamespaceIndex.OrphanIsReturned`). A query agrees
  with the plain scan if and only if no orphan scores and every torn entry scores as the row's own vector
  does (`NamespaceIndex.QueryAgreesIff`).
* **A parked descriptor's close can drop a read lock.** The leases keep store inodes apart, but an inode
  that a reader has locked may turn up later as some store's sidecar; a second descriptor on it is then
  parked, and closed with that store (`LiveStoreRuns.ParkedCloseDropsReadLock`). Unparking drops a read
  lock if and only if a parked inode that is no longer live is read-locked
  (`LiveStoreRuns.UnparkingDropsReadLockIff`); in every run this is the only way any close of the module
  drops one (`LiveStoreLocks.DropsReadLockIff`), and it is never the inode of a store that was itself
  open (`LiveStoreRuns.MainStoreIsNotReadLocked`).
* **`decode_token` reads more than `encode_token` writes**, against its documentation
  (`CursorToken.ReadButNotWritten`); a token that reads is the encoder's own if and only if it is plainly
  spelled and within the encoder's limits (`CursorToken.ReadTokenIsWrittenIff`).
* **The stratified sample can be short.** A type with a single question can be allotted two
  (`Allocation.ShortSample`); the sample has exactly `limit` questions if and only if that does not
  happen (`Allocation.SampleSize`).
* **Of several edges to one node, the first-written need not be the one kept**, against the comment in
  `graph_query`: pages come in (edge type, rowid) order (`WalkTrace.FirstWrittenIsNotReported`). From the
  node that discovers the target, the first-written edge is the one reported if and only if no edge to
  that target has a smaller type (`WalkTrace.FirstWrittenIff`).

## Model

| member | source | states |
|---|---|---|
| PoolRuns.BooksAreExact | src/trw_memory/_graph_worker_pool.py:271-375 | in every reachable state `_owner_pending` and `_owner_running` are the true counts and hold only owners with such jobs, a mark is only on such an owner, a registered worker's `pending` is what it holds and has queued, jobs precede STOPs in every queue, and a dead worker has nothing left |
| PoolRuns.AbandonCutsExactly | src/trw_memory/_graph_worker_pool.py:377-392 | of the owner's jobs accepted when `abandon_owner` took the lock, those that have run since or may still write are, at any later time, exactly those committed then, and the returned count is their number |
| PoolRuns.CutJobsNeverStart | src/trw_memory/_graph_worker_pool.py:320-335 | jobs waiting at an abandon stay waiting under the mark, or are skipped or dropped, in every continuation |
| PoolRuns.OutcomeIsFinal | src/trw_memory/_graph_worker_pool.py:337-375 | no accepted job is run, skipped or dropped twice |
| PoolClock.SkippedOnlyIfAbandoned | src/trw_memory/_graph_worker_pool.py:320-335 | in every run a job is skipped only if its owner was abandoned before |
| PoolClock.IdleRetires | src/trw_memory/_graph_worker_pool.py:311-318 | in every run an empty poll retires a worker exactly if it is registered, has finished all it was given, and was last given or finished a job at least 300 seconds before |
| PoolClock.LastActiveIs | src/trw_memory/_graph_worker_pool.py:271-303 | a worker's `last_active` is the time it was last given or finished a job |
| PoolClock.SubmitMakesRoom | src/trw_memory/_graph_worker_pool.py:294-303 | a submit for a new store retires a worker exactly if 16 are registered and one has nothing pending, and then one of those none of which was active earlier |
| PoolClock.RetiredWorkersLeave | src/trw_memory/_graph_worker_pool.py:305-318 | in every run a live worker that is not registered any more has a STOP queued or is on its way out |
| WorkerPool.StepKeeps | src/trw_memory/_graph_worker_pool.py:198-412 | every lock region of every thread keeps the pool's invariant |
| WorkerPool.AbandonCuts | src/trw_memory/_graph_worker_pool.py:377-392 | the result counts exactly the owner's committed jobs; all its other unfinished ones are cut off |
| WorkerPool.MarkSurvives | src/trw_memory/_graph_worker_pool.py:347-354 | an abandon mark goes only when the owner's last unfinished job does |
| WorkerPool.CutForever | src/trw_memory/_graph_worker_pool.py:320-354 | the cut survives every run |
| WorkerPool.ExactAbandonCut | src/trw_memory/_graph_worker_pool.py:377-392 | the same from any state that satisfies the invariant |
| WorkerPool.CommittedRuns | src/trw_memory/_graph_worker_pool.py:320-354 | a job once committed stays committed until it has run |
| WorkerPool.TerminalForever | src/trw_memory/_graph_worker_pool.py:337-375 | a finished job keeps its outcome in every run |
| WorkerPool.FifoAndNothingStranded | src/trw_memory/_graph_worker_pool.py:207-236 | what a worker has finished is a prefix of what it accepted, the rest is what it holds followed by its queue, and only a crashed worker loses jobs |
| WorkerPool.HistoryGrows | src/trw_memory/_graph_worker_pool.py:271-303 | no step reorders or forgets what a worker accepted or finished |
| WorkerPool.AcceptedOnRegisteredWorker | src/trw_memory/_graph_worker_pool.py:271-309 | an accepted job waits last in the queue of the worker registered for its store, which has no STOP; a refused one is queued nowhere |
| WorkerPool.DrainIsSound | src/trw_memory/_graph_threads.py:50-75 | on an empty snapshot no job of the owner is queued, held or running, and no submit of it can still queue one |
| PoolObject.GraphWorkerPool.Submit | src/trw_memory/_graph_worker_pool.py:271-303 | takes exactly the submit step, at the soft cap retiring a least recently active idle worker |
| PoolObject.GraphWorkerPool.Retire | src/trw_memory/_graph_worker_pool.py:305-309 | unregisters and queues a stop |
| PoolObject.GraphWorkerPool.RetireIfIdle | src/trw_memory/_graph_worker_pool.py:311-318 | leaves the loop exactly if registered, without pending work and inactive for 300 seconds |
| PoolObject.GraphWorkerPool.StartUnlessAbandoned | src/trw_memory/_graph_worker_pool.py:320-335 | commits the held job exactly if its owner is not marked |
| PoolObject.GraphWorkerPool.JobFinished | src/trw_memory/_graph_worker_pool.py:337-354 | releases the accounting of a job that ran or was skipped |
| PoolObject.GraphWorkerPool.WorkerExited | src/trw_memory/_graph_worker_pool.py:356-363 | takes the worker out of the registry and the live set |
| PoolObject.GraphWorkerPool.DropDrained | src/trw_memory/_graph_worker_pool.py:364-375 | releases the accounting of a drained job |
| PoolObject.GraphWorkerPool.AbandonOwner | src/trw_memory/_graph_worker_pool.py:377-392 | marks an owner with unfinished jobs and returns its running count |
| PoolObject.GraphWorkerPool.StopAll | src/trw_memory/_graph_worker_pool.py:394-403 | retires every live worker |
| PoolObject.Wait | src/trw_memory/_graph_threads.py:50-75 | returns at the first view without a matching live handle, or at the first past the deadline; in the first case, for views of any run of the pool, no job of the owner was then queued, held, running or still to be queued |
| LiveStoreRuns.NeverOpenAndLeased | src/trw_memory/_live_stores.py:353-407 | in every run, whatever paths name at each reading, no store inode is both open and leased, and no reader descriptor was ever closed while its inode was an open store |
| LiveStoreRuns.BooksBalance | src/trw_memory/_live_stores.py:189-256 | connection counts are exact under any mix of closes and finalizers, the memoised live set is unset or equals the union, every parked inode is live |
| LiveStoreRuns.PutOffUntilUnlocked | src/trw_memory/_live_stores.py:471-482 | a deferred descriptor is open, leased, listed once, and its inode read-locked and no open store |
| LiveStoreRuns.LastExitCloses | src/trw_memory/_live_stores.py:520-529 | a holder's exit closes exactly the deferred descriptors of its inode if it is the last, nothing otherwise |
| LiveStoreRuns.ParkedIsCapped | src/trw_memory/_dir_trust.py:290-302 | at most 64 are parked if readers open through `open_component_fd` |
| LiveStoreRuns.LeasedInodeIsNotOpened | src/trw_memory/_live_stores.py:364-391 | an inode with a lease that a descriptor still backs is never registered; if the path names it at the check, the connect waits |
| LiveStoreRuns.ReleasedOnce | src/trw_memory/_live_stores.py:227-239 | close and finalizer share one release |
| LiveStoreRuns.UnparkingDropsReadLockIff | src/trw_memory/_live_stores.py:242-248 | unparking drops a read lock exactly if a parked, no longer live inode is read-locked |
| LiveStoreLocks.DropsReadLockIff | src/trw_memory/_live_stores.py:242-248 | in every run, of all the closes of any operation, exactly those of parked descriptors on read-locked inodes that the operation finds no longer live drop a read lock, and it makes one exactly if there is such a descriptor |
| LiveStoreLocks.CloseParkedUnparks | src/trw_memory/_live_stores.py:242-248 | unparking closes exactly the parked descriptors of inodes not live and keeps the others |
| LiveStoreRuns.ParkedCloseDropsReadLock | src/trw_memory/_live_stores.py:242-248 | a run in which it does |
| LiveStoreRuns.MainStoreIsNotReadLocked | src/trw_memory/_live_stores.py:498-511 | an open store's own inode is never read-locked |
| LiveStores.NextKeeps | src/trw_memory/_live_stores.py:181-529 | every operation keeps the registry's invariant, and only a direct admission can exceed the parked cap |
| LiveStores.DecideKeeps | src/trw_memory/_live_stores.py:364-399 | however the three readings of the path differ, a connection is registered only on an inode without a lease |
| LiveStores.DecideAnswers | src/trw_memory/_live_stores.py:364-399 | which of the five answers a round of the connect loop gives, told by the readings of the path and the leases a descriptor still backs; in particular exactly when a connection is counted, and on which inode |
| LiveStores.AdmitIff | src/trw_memory/_live_stores.py:454-468 | a descriptor is parked exactly if its inode is an open store, a sidecar or a lock file, and leased otherwise |
| LiveStores.OpenComponentIff | src/trw_memory/_dir_trust.py:290-302 | a reader's open goes through exactly if there is something to open, fewer than 64 are parked and the name is not known to be live |
| LiveStores.CheckLeasesKeeps | src/trw_memory/_live_stores.py:420-437 | stale leases are dropped and no backed one is |
| LiveStores.CloseParkedKeeps | src/trw_memory/_live_stores.py:242-248 | unparking closes only descriptors of inodes that are not live |
| LiveStores.ExitKeeps | src/trw_memory/_live_stores.py:520-529 | leaving a read lock keeps the readers' books and closes what was put off |
| LiveStores.DrainSpares | src/trw_memory/_live_stores.py:189-191 | applying queued releases touches no descriptor a reader has |
| LiveStoreObject.LiveFiles.LiveIdentities | src/trw_memory/_live_stores.py:209-218 | probes exactly the stores with an unrecorded name, records every sidecar beside a name that still names the inode and nothing else, and recomputes the memo only if it is unset |
| LiveStoreObject.LiveFiles.RecordSidecars | src/trw_memory/_live_stores.py:194-206 | records every sidecar beside a name that still names the inode, no other inode, and only names beside which a WAL index lies |
| LiveStoreObject.LiveFiles.CloseUnparked | src/trw_memory/_live_stores.py:242-248 | takes exactly the unparking step |
| LiveStoreObject.LiveFiles.ApplyRelease | src/trw_memory/_live_stores.py:227-239 | drops one count once |
| LiveStoreObject.LiveFiles.DrainFinalized | src/trw_memory/_live_stores.py:189-191 | applies the whole queue in order |
| LiveStoreObject.LiveFiles.Release | src/trw_memory/_live_stores.py:221-224 | an explicit close is one step |
| LiveStoreObject.LiveFiles.TrackLockFile | src/trw_memory/_live_stores.py:251-255 | the lock file comes or goes, and unparking follows |
| LiveStoreObject.LiveFiles.LiveLeases | src/trw_memory/_live_stores.py:420-437 | keeps exactly the leases whose descriptor is open on the inode |
| LiveStoreObject.LiveFiles.ConnectRound | src/trw_memory/_live_stores.py:353-407 | one round of the connect loop is one step; its answer is the one `LiveStores.Answers` tells from the readings and the backed leases, and a counted connection has its path and the sidecars beside it recorded |
| LiveStoreObject.LiveFiles.NoteStoreSidecars | src/trw_memory/_live_stores.py:410-417 | one more name of an open store |
| LiveStoreObject.LiveFiles.IsKnownLive | src/trw_memory/_live_stores.py:440-451 | refuses exactly a known live name, and everything past the cap |
| LiveStoreObject.LiveFiles.AdmitReaderFd | src/trw_memory/_live_stores.py:454-468 | leases the descriptor exactly if its inode is not live, and parks it otherwise |
| LiveStoreObject.LiveFiles.OpenComponentFd | src/trw_memory/_dir_trust.py:290-302 | name check, open and admission as one section, never past the cap; a descriptor comes back only leased and of an inode that is not live, and nothing comes back only for a reason |
| LiveStoreObject.LiveFiles.CloseReaderFd | src/trw_memory/_live_stores.py:471-495 | closes, or defers exactly while the inode is read-locked |
| LiveStoreObject.LiveFiles.EnterReadLock | src/trw_memory/_live_stores.py:498-519 | shares the lock, or takes it exactly if the system grants it |
| LiveStoreObject.LiveFiles.ExitReadLock | src/trw_memory/_live_stores.py:520-529 | gives the share back; the last holder closes what was deferred |
| SlotMatrix.SpaceRows.Put | src/trw_memory/_graph_namespace_index.py:89-105 | the table gains the vector, or loses the id if it is zero; ids and slots stay inverse, dead slots few |
| SlotMatrix.SpaceRows.Remove | src/trw_memory/_graph_namespace_index.py:107-118 | the table loses the id; at most max(64, live) slots are dead |
| SlotMatrix.SpaceRows.Compact | src/trw_memory/_graph_namespace_index.py:113-118 | no slot is dead, nothing else changes |
| SlotMatrix.SpaceRows.Grow | src/trw_memory/_graph_namespace_index.py:99-102 | twice the rows, the same table |
| SlotMatrix.SpaceRows.Above | src/trw_memory/_graph_namespace_index.py:120-134 | exactly the table's hits, each once, for thresholds of either sign |
| SlotMatrix.CandidateVectors.Above | src/trw_memory/_graph_primitives.py:159-171 | grouping by dimension changes neither hits nor order |
| SlotMatrix.HitsFromRows | src/trw_memory/_graph_primitives.py:120-147 | the groups' rows give the scan's hits |
| SlotMatrix.HitsAre | src/trw_memory/_graph_primitives.py:159-171 | a hit is a listed vector of the query's dimension, not zero, above the threshold |
| SlotMatrix.AgreesWithScan | src/trw_memory/_graph_namespace_index.py:120-134 | the matrix and a scan built afresh from the live vectors have the same hits |
| SpaceIndex.IndexState.Put | src/trw_memory/_graph_namespace_index.py:149-160 | one table from id to (space, vector): the id moves, or is dropped if the dimension is wrong |
| SpaceIndex.IndexState.Drop | src/trw_memory/_graph_namespace_index.py:162-165 | the id leaves its space |
| SpaceIndex.IndexState.Sync | src/trw_memory/_graph_namespace_index.py:344-367 | for every id at once: what the two loops make of its entry, its proof just read and its record |
| SpaceIndex.IndexState.Score | src/trw_memory/_graph_namespace_index.py:263-269 | the hits among the vectors held in that space |
| NamespaceIndex.FeedCovers | src/trw_memory/storage/_change_feed.py:47-53 | a row that is not in the feed and has settled since the new token had not changed since the old one |
| NamespaceIndex.RefreshKeeps | src/trw_memory/_graph_namespace_index.py:324-367 | a refresh interleaved with any writes keeps: recorded proofs were once the row's, and the proof recorded for an ACTIVE row unchanged since the token is the row's own |
| NamespaceIndex.AddKeeps | src/trw_memory/_graph_namespace_index.py:254-258 | so does `add` with the row's current vector |
| NamespaceIndex.RunKeeps | src/trw_memory/_graph_namespace_index.py:295-367 | so does every run |
| NamespaceIndex.RefreshIsCurrent | src/trw_memory/_graph_namespace_index.py:324-341 | after a refresh the recorded token equals the one just read unless the index is given up, which is exactly if it is too large or was given up and no reconcile is due; a due reconcile records every settled row's ACTIVE proof |
| NamespaceIndex.EqualTokensMean | src/trw_memory/storage/_change_feed.py:10-27 | between equal tokens no row has gone, and every changed row carries the newest stamp |
| NamespaceIndex.TornIff | src/trw_memory/_graph_namespace_index.py:344-367 | in every run an entry is held elsewhere than its recorded proof says exactly if the last step that wrote it read a record placed elsewhere than the proof it had read, or added another vector under a recorded proof |
| NamespaceIndex.RowRightIff | src/trw_memory/_graph_namespace_index.py:344-367 | in every run a settled ACTIVE row has its own proof recorded, and is held in exactly its place if and only if its entry is neither torn nor an orphan |
| NamespaceIndex.SettledIsNotTorn | src/trw_memory/_graph_namespace_index.py:344-367 | a settled row to which no lost proof has come back is not torn |
| NamespaceIndex.RowAgrees | src/trw_memory/_graph_namespace_index.py:263-281 | such a row, and no orphan, is returned exactly if the plain scan returns it, with the same score |
| NamespaceIndex.QueryAgreesIff | src/trw_memory/_graph_namespace_index.py:263-281 | with nothing changed since the token, the results are the plain scan's if and only if no orphan scores and every torn entry scores as the row's own vector |
| NamespaceIndex.ProofComesBack | src/trw_memory/_graph_namespace_index.py:344-367 | a run after which a settled row is never returned |
| NamespaceIndex.OrphanIsReturned | src/trw_memory/_graph_namespace_index.py:354-357 | a run after which an unproven row is returned |
| RefreshObject.CachedIndex.Refresh | src/trw_memory/_graph_namespace_index.py:324-341 | the branches of `_refresh`, in order, take exactly the refresh step; it gives up exactly if the matrices exceed the budget, or it reads all and finds too many |
| SiblingCache.SiblingCandidateCache.Lookup | src/trw_memory/_graph_sibling_index.py:116-125 | a current state, moved to the end; a stale one is dropped; counters exact |
| SiblingCache.SiblingCandidateCache.Install | src/trw_memory/_graph_sibling_index.py:127-133 | the state replaces its key's, then the oldest go until the total fits; counters exact |
| SiblingCache.SiblingCandidateCache.AddNamespace | src/trw_memory/_graph_sibling_index.py:135-146 | exact for a state still cached, evicted, or replaced under its key; the total never exceeds the budget |
| SiblingCache.SharedMiscounts | src/trw_memory/_graph_sibling_index.py:135-146 | the counter for a state cached under two keys stays exact only if the state's size does not change |
| SiblingCache.SiblingCandidateCache.Drop | src/trw_memory/_graph_sibling_index.py:148-149 | one store less, counter exact |
| SiblingCache.SiblingCandidateCache.Evict | src/trw_memory/_graph_sibling_index.py:151-153 | leaves what `Kept` says |
| SiblingCache.KeptIsLongest | src/trw_memory/_graph_sibling_index.py:151-153 | the longest run of most recently used stores that fits the budget |
| Traversal.SeeksCoverTheRest | src/trw_memory/_graph_traversal.py:265-315 | what lies behind the cursor is exactly the rows of the two seeks, in (edge type, rowid) order |
| Traversal.MatchingAre | src/trw_memory/_graph_traversal.py:250-274 | the edges walked over are the stored ones of the asked types and namespace, each once, in index order |
| Traversal.LinkIsHop | src/trw_memory/_graph_traversal.py:314-332 | one may go from a node to another exactly by such an edge to a memory of the asked namespace, ACTIVE if asked |
| Traversal.WithinIsPath | src/trw_memory/_graph_traversal.py:284-334 | being within k links is having a path of at most k such edges from one of the first thousand roots that are in the namespace |
| Traversal.RankedIsAsked | src/trw_memory/_graph_traversal.py:314-332 | every result is in the asked namespace, ACTIVE if asked, no root, within depth, and reported by a stored edge that may be followed |
| Traversal.ReadPage | src/trw_memory/_graph_traversal.py:291-323 | a page is the next consecutive slice of the node's matching edges, short only at the end |
| GraphWalk.ExpandNode | src/trw_memory/_graph_traversal.py:291-334 | a node's matching edges are examined once each, all of them unless the walk is full or the budget spent |
| Traversal.TakeKeeps | src/trw_memory/_graph_traversal.py:322-332 | a row that adds a node adds it at its true distance |
| Traversal.NodeDone | src/trw_memory/_graph_traversal.py:284-290 | when a node is done and its level with it, the next level is complete |
| WalkTrace.AllReadAllKnown | src/trw_memory/_graph_traversal.py:284-334 | once all that was queued is read, everything within the depth limit is found |
| WalkTrace.OneResult | src/trw_memory/_graph_traversal.py:284-334 | the contract of `GraphWalk.GraphQuery` leaves one result: nodes, order, reported edges and the place of a cut are determined |
| WalkTrace.CutIff | src/trw_memory/_graph_traversal.py:281-334 | a walk is cut if and only if the reachable nodes reach `max_nodes` or the edges of the roots and of the nodes above the depth limit reach the budget; otherwise it examined exactly those edges and returned every node within the limit |
| WalkTrace.FirstWrittenIff | src/trw_memory/_graph_traversal.py:239-270 | the first-written of several edges from the discovering node is reported exactly if none has a smaller type |
| WalkTrace.FirstWrittenIsNotReported | src/trw_memory/_graph_traversal.py:239-270 | two edges of which the later-written is reported |
| GraphWalk.GraphQuery | src/trw_memory/_graph_traversal.py:164-339 | what was asked for, over the fields of store and request (`Traversal.Asked`): distinct non-roots, nearest first, each at its true shortest distance and after every nearer node even when cut; exactly what was to be discovered in the edges examined, by the first edge in queue and index order; stopped only by the cap, by the budget it never exceeds, or at the end; complete within min(depth, 3) if the request fits both |
| PositionalScores.ScorePositions | src/trw_memory/_client_recall_hybrid.py:319-347 | an undemoted row's score is that of its place before the demotion, the number of rows of smaller recorded rank or of equal rank and earlier; so is every score if a row was not observed; a demoted row is placed between the rows around it |
| PositionalScores.OwnIsPlaceScore | src/trw_memory/_client_recall_hybrid.py:319-326 | the score of place n is 10000 / (1 + n) rounded to the nearest, ties to even, with n counted from the recorded ranks |
| PositionalScores.NearestIsOne | src/trw_memory/_client_recall_hybrid.py:326 | only one whole number is nearest |
| PositionalScores.ClampedIsPlaced | src/trw_memory/_client_recall_hybrid.py:331-347 | a demoted row is never above a row ahead of it in its bucket, and, unless it meets one, never below its own score or an undemoted row behind it, nor higher than it has to be |
| PositionalScores.ScoringKeepsDemotion | src/trw_memory/_client_recall_helpers.py:371-414 | with the returned scores no demoted row sorts ahead of one the pipeline ranked before it under the same leading key |
| PositionalScores.FinalOrder | src/trw_memory/_client_recall_helpers.py:384-414 | eligible rows first, then by bucket, without fallback, by weighted score, ties in input order |
| PositionalScores.OvertakenIff | src/trw_memory/_client_recall_hybrid.py:308-314 | a demoted row never outweighs one ahead of it; exactly when a row overtakes another inside a bucket |
| PositionalScores.DemotionHolds | src/trw_memory/_client_recall_helpers.py:371-414 | the stable sort never puts a demoted row ahead of one the pipeline ranked before it under the same leading key |
| PositionalScores.OrderKeptIff | src/trw_memory/_client_recall_hybrid.py:331-347 | inside buckets the pipeline's order is kept if and only if the undemoted rows' own scores keep it |
| PositionalScores.PipelineOrderReproduced | src/trw_memory/_client_recall_hybrid.py:319-347 | with one leading key and weights 1, weighted rows or not, observed or not, the scores never rise and the stable sort returns the pipeline's order |
| PositionalScores.DemotionOnlyLowers | src/trw_memory/retrieval/source_policy.py:94-110 | of a descending list only a distilled row and an undistilled one behind it can change places |
| Sorting.SortOrders | src/trw_memory/_client_recall_helpers.py:414 | a stable sort lists every index once, in the order of key and position |
| Sorting.PlaceCounts | src/trw_memory/_client_recall_hybrid.py:319-322 | an index stands at the place that counts the indices before it |
| Sweep.PageOfIsPage | src/trw_memory/storage/_query_ops.py:382-406 | a keyed page is an ascending run without a gap, short only at the end |
| Sweep.Run | src/trw_memory/_sweep.py:37-76 | whatever the source does: its pages, what was consumed of each, and why it ended; no page is fetched after one that was consumed in part or ended past the deadline, and at most `rows` rows are visited; over a table that changes between pages, ascending and missing no key that stays |
| Sweep.OneRun | src/trw_memory/_sweep.py:55-76 | what a run visits and how it ends are determined by its source and budgets |
| Sweep.StopsInTime | src/trw_memory/_sweep.py:74-75 | only the last fetch of a run may end past the deadline |
| Sweep.PageExtends | src/trw_memory/_sweep.py:65-75 | one page more, consumed in part or whole |
| Reembed.Reembed | src/trw_memory/_client_reembed.py:124-177 | one call: rows up to the ceiling, then warm, within its row budget, and bounded ones within their time |
| Reembed.CallAdvances | src/trw_memory/_client_reembed.py:149-177 | every cursor handed back is further on, by at least one row or a phase |
| Reembed.ChainIsComplete | src/trw_memory/_client_reembed.py:149-177 | a finished chain of bounded calls visited every row up to the first call's ceiling that existed throughout exactly once, and every such warm row, under any churn |
| Reembed.ChainSoFar | src/trw_memory/_client_reembed.py:149-177 | an unfinished one has missed nothing before its cursor |
| Reembed.UnboundedIsComplete | src/trw_memory/_client_reembed.py:149-177 | one call that is not bounded visits every lasting row up to its ceiling and every lasting warm row |
| Reembed.Joined | src/trw_memory/_sweep.py:63-76 | a sweep resumed after another is one sweep |
| CursorToken.RoundTrip | src/trw_memory/_sweep.py:79-95 | every accepted key fits the token limit and reads back exactly |
| CursorToken.AcceptedIff | src/trw_memory/_sweep.py:79-84 | a key is accepted exactly with at most three parts of at most 4096 characters |
| CursorToken.ReadIsBounded | src/trw_memory/_sweep.py:88-95 | a token is read only within the limit and as the asked number of parts |
| CursorToken.WrittenAsJson | src/trw_memory/_sweep.py:85 | the text of a part that needs every kind of escape |
| CursorToken.TokensAreDistinct | src/trw_memory/_sweep.py:79-85 | two keys never share a token |
| CursorToken.ReadTokenIsWrittenIff | src/trw_memory/_sweep.py:88-95 | a token that reads is the encoder's exactly if plainly spelled and within limits |
| CursorToken.ReadButNotWritten | src/trw_memory/_sweep.py:88-95 | two tokens that read and were not written |
| RankAuc.AveragedRanks | benchmarks/locomo/jev_calibration.py:29-39 | each item's tie-averaged rank is its place among all the scores |
| RankAuc.RankSumAuc | benchmarks/locomo/jev_calibration.py:29-41 | the script's AUC is the pairwise AUC |
| RankAuc.RankSumIsPairwise | benchmarks/locomo/jev_judge.py:242-244 | rank sum less P(P+1)/2 is the sum over all pairs of wins and half ties |
| RankAuc.PairsShared | benchmarks/locomo/jev_judge.py:242-244 | swapping the two sides gives the complement |
| McNemar.TwoSidedIsTwiceSmallerTail | benchmarks/retrieval_paired_compare.py:58-72 | the two-sided value is min(1, twice the smaller one-sided tail) |
| McNemar.Symmetric | benchmarks/retrieval_paired_compare.py:58-64 | and symmetric |
| McNemar.TailsOverlapOnce | benchmarks/retrieval_paired_compare.py:67-72 | the two tails sum to 1 + C(n, a)/2^n |
| McNemar.OneIffBalanced | benchmarks/locomo/compare.py:52-59 | exactly 1 if and only if the counts differ by at most one |
| McNemar.MoreLopsidedIsSmaller | benchmarks/retrieval_paired_compare.py:58-64 | a more lopsided split never has a larger value |
| McNemar.CopiesAgree | benchmarks/engmem/score.py:145-148 | doubling before the division gives the same value |
| Allocation.Allocate | benchmarks/longmemeval/retrieval_eval.py:105-111 | sums to the limit, at least one per type when it allows, largest remainders unless the guaranteed ones already overfill it |
| Allocation.Cut | benchmarks/longmemeval/retrieval_eval.py:110-111 | the cut loop ends at the limit, leaves every type one, and brings the largest down to one level, the first of them to one below it |
| Allocation.LevelledIsOne | benchmarks/longmemeval/retrieval_eval.py:110-111 | that leaves one result |
| Allocation.ToppedIs | benchmarks/longmemeval/retrieval_eval.py:106-109 | one more question goes to exactly the types with the largest remainders, equal ones in dictionary order |
| Allocation.SampleSize | benchmarks/longmemeval/retrieval_eval.py:112-113 | the sample has `limit` questions exactly if no one-question type is topped up |
| Allocation.ShortSample | benchmarks/longmemeval/retrieval_eval.py:105-113 | types of 1, 3 and 3 questions, limit 6: two each are allotted and five picked |
| BatchLog.AppendRows | benchmarks/locomo/batch_judge.py:257-269 | wherever an append is cut, the old rows and a prefix of the new are read back |
| BatchLog.ResultsAre | benchmarks/locomo/batch_judge.py:239-245 | content is reported exactly if an attempt had any, and it is the last such attempt |
| BatchLog.FailureReplacesNothing | benchmarks/locomo/batch_judge.py:239-245 | later failures change no reported reply |
| BatchLog.ResultsStore.AddResults | benchmarks/locomo/batch_judge.py:257-269 | ends a half line first; nothing reported is lost, killed or not |
| BatchLog.ResultsStore.ReadResults | benchmarks/locomo/batch_judge.py:230-245 | computes that report |
| BatchProtocol.NextKeeps | benchmarks/locomo/batch_judge.py:383-465 | every persisted write, server call, server step and crash keeps the protocol's invariant |
| BatchProtocol.ResolveIs | benchmarks/locomo/batch_judge.py:591-601 | adopting or abandoning goes through exactly with one unresolved row; it takes that row out, an adopted one comes back running under the given id |
| BatchRuns.NothingPaidTwice | benchmarks/locomo/batch_judge.py:383-465 | in every history no request is in two running batches nor in two live rows, and at most one submission is unresolved |
| BatchRuns.PostsOnlyResolved | benchmarks/locomo/batch_judge.py:392-423 | at every POST the only unresolved row is its own intent, and no live row asks for its requests |
| BatchRuns.ContentIsNeverLost | benchmarks/locomo/batch_judge.py:239-269 | content once reported is reported ever after |
| BatchRuns.BatchRun.SubmitOne | benchmarks/locomo/batch_judge.py:396-420 | intent, POST, record |
| BatchRuns.BatchRun.SubmitBatches | benchmarks/locomo/batch_judge.py:383-423 | a finished round's rows ask for exactly its requests, each for `chunk` of them but the last; an unanswered POST ends it with its intent on disk |
| BatchRuns.BatchRun.PollPass | benchmarks/locomo/batch_judge.py:434-463 | exactly the batches the server says have ended become terminal, and their replies, no others, are appended before in the order of the rows; killed, the log is as it was and a prefix of them is there |
| BatchRuns.BatchRun.PollBatches | benchmarks/locomo/batch_judge.py:426-465 | the log and the results are those of the passes completed, and of a killed pass a prefix; it ends only with none of the role running, killed, or stopped, and stops on an unresolved intent before fetching anything |
| BatchRuns.CollectedAre | benchmarks/locomo/batch_judge.py:445-449 | the replies of a batch that ended stand together, behind those of earlier rows |
| BatchRuns.TerminalIsGathered | benchmarks/locomo/batch_judge.py:434-463 | a batch goes terminal only in a pass that was told that it had ended, and all it was told then is gathered |

## Left out

- SQLite and its SQL text: tables are maps or sequences in the order of the query, and a page is the first rows that match.
- Threads, fork handling, weak references and the drivers' locks: steps are atomic and the schedule is arbitrary.
- WorkerPool: worker objects are records under a number; among equally long idle workers the one retired is any of them, where the source takes the first in the table's order; a backend close that raises something unlisted, and so skips `worker_exited`, is not modelled.
- LiveStores: which inode the driver's own open reaches is not observable to the module, so a path swapped to another file and back inside one connect is not modelled; sidecar and lock-file inodes can be leased while live, and disjointness is stated for store inodes only.
- LiveStores: readers keep to their side (each closes a descriptor once, and never closes behind the module's back one that a read lock is held on or that is deferred); a descriptor closed by hand otherwise is modelled.
- NamespaceIndex: float32 rounding; a score is the exact dot product of two given unit vectors, and a proof determines its vector.
- NamespaceIndex: writers stamp every change with a clock that does not run back, insert above every rowid, and bump the epoch on every delete; a delete by another process that bumps nothing is not modelled.
- NamespaceIndex: the least-recently-used eviction of whole indexes, which is the sibling cache's with a count bound.
- SiblingCache.SiblingCandidateCache.AddNamespace: requires that a state is cached under no other key, as the one caller sees to; what goes wrong otherwise is `SiblingCache.SharedMiscounts`.
- Traversal: derived tag neighbours, appended after the walk; edges and memories do not change during one walk.
- PositionalScores: scores are exact, so `round` is half to even of the exact quotient.
- Reembed: what a page re-encodes, and its counts; a visit consumes the whole page.
- CursorToken: JSON of other shapes is refused without saying how.
- RankAuc and McNemar: exact numbers in place of floating point.
- BatchProtocol: sync mode, budgets and prices; the server's status words other than running and terminal; `--adopt` and `--abandon-uncertain` are taken to be truthful.
- BatchLog: power loss; a killed process leaves a prefix of what it was writing.
- The small pure helpers (filters, coercions, date words, ratios), the ownership and mode checks of directories, telemetry and client wiring.

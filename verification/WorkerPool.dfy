/**
 The graph worker pool: one worker and one FIFO queue per store, per-owner counters, an abandon
 mark, idle and soft-cap retirement, STOP sentinels, and draining after an abnormal exit.

 Every lock region of the source is one atomic step on a `Pool` value. Threads are interleaved by
 a nondeterministic scheduler: any enabled step of any worker, submitter or owner may come next.
 `accepted`, `handled`, `crashed`, `jobs`, `submitting`, `refused` and `seen` are history that no
 step of the source reads; everything else is a field of the source.
 */
module WorkerPool {
  import opened Prelude

  type Owner = nat
  type JobId = nat
  type WorkerId = nat
  type Key = nat

  const MAX_WORKERS := 16
  const IDLE_EVICT := 300

  /** A queue element: a job's handle or the STOP sentinel. */
  datatype Item = Job(id: JobId) | Stop

  /** Where a worker thread stands between two lock regions. */
  datatype Phase =
    | Polling                  // in queue.get
    | Holding(id: JobId)       // dequeued, not yet started or refused
    | Running(id: JobId)       // counted as running; job.run() may be executing
    | Skipping(id: JobId)      // refused by the mark, accounting not yet released
    | Finished(id: JobId)      // accounting released, handle not yet finished
    | Woken(id: JobId)         // the handle's event is set, not yet untracked
    | Exiting                  // the loop is left
    | Draining                 // unregistered, emptying its own queue
    | Dropping(id: JobId)      // drained a job, accounting not yet released
    | Dropped(id: JobId)
    | DropWoken(id: JobId)
    | Dead

  datatype Worker = Worker(
    key: Key, queue: seq<Item>, pending: int, lastActive: int, phase: Phase,
    crashed: bool, accepted: seq<JobId>, handled: seq<JobId>)

  /** What became of an accepted job: Waiting and Committed are unfinished. */
  datatype Status = Waiting | Committed | Ran | Skipped | Lost

  datatype JobRec = JobRec(owner: Owner, worker: WorkerId, status: Status)

  datatype Pool = Pool(
    workers: map<Key, WorkerId>,        // _workers
    live: set<WorkerId>,                // _live
    abandoned: set<Owner>,              // _abandoned_owners
    pending: map<Owner, int>,           // _owner_pending
    running: map<Owner, int>,           // _owner_running
    threads: map<WorkerId, Worker>,     // every worker ever created
    tracked: map<JobId, Owner>,         // GRAPH_THREADS._owners (its keys are _threads)
    done: set<JobId>,                   // handles whose event is set
    submitting: map<JobId, Owner>,      // tracked, submit's lock region still to come
    refused: set<JobId>,                // submit failed, untrack still to come
    seen: set<JobId>,
    jobs: map<JobId, JobRec>)           // every accepted job

  const EMPTY := Pool(map[], {}, {}, map[], map[], map[], map[], {}, map[], {}, {}, map[])

  // ------------------------------------------------------------------ queues

  function JobsIn(queue: seq<Item>): (ids: seq<JobId>) {
    if queue == [] then []
    else (if queue[0].Job? then [queue[0].id] else []) + JobsIn(queue[1..])
  }

  function Held(phase: Phase): seq<JobId> {
    match phase
    case Holding(id) => [id]
    case Running(id) => [id]
    case Skipping(id) => [id]
    case Dropping(id) => [id]
    case _ => []
  }

  /** The worker has not yet passed worker_exited's first lock region. */
  predicate InLoop(phase: Phase) {
    phase.Polling? || phase.Holding? || phase.Running? || phase.Skipping?
    || phase.Finished? || phase.Woken? || phase.Exiting?
  }

  function Get(m: map<Owner, int>, o: Owner): int { if o in m then m[o] else 0 }

  // ------------------------------------------------------------------ lock regions

  /** GRAPH_THREADS.track, before submit takes the pool lock. */
  function Track(s: Pool, j: JobId, o: Owner): Pool {
    s.(tracked := s.tracked[j := o], submitting := s.submitting[j := o], seen := s.seen + {j})
  }

  function Unregister(workers: map<Key, WorkerId>, k: Key, w: WorkerId): map<Key, WorkerId> {
    if k in workers && workers[k] == w then workers - {k} else workers
  }

  function Enqueued(t: Worker, j: JobId, now: int): Worker {
    t.(pending := t.pending + 1, lastActive := now, queue := t.queue + [Job(j)], accepted := t.accepted + [j])
  }

  function Released(t: Worker, now: int): Worker
    requires t.phase.Running? || t.phase.Skipping?
  {
    t.(pending := t.pending - 1, lastActive := now, phase := Finished(t.phase.id), handled := t.handled + [t.phase.id])
  }

  /** _retire: unregister if registered, then queue a stop. */
  function Retire(s: Pool, w: WorkerId): Pool
    requires w in s.threads
  {
    var t := s.threads[w];
    s.(workers := Unregister(s.workers, t.key, w),
       threads := s.threads[w := t.(queue := t.queue + [Stop])])
  }

  function Create(s: Pool, k: Key, w: WorkerId, now: int): Pool {
    s.(workers := s.workers[k := w], live := s.live + {w},
       threads := s.threads[w := Worker(k, [], 0, now, Polling, false, [], [])])
  }

  function Enqueue(s: Pool, j: JobId, k: Key, now: int): Pool
    requires j in s.submitting && k in s.workers && s.workers[k] in s.threads
  {
    var o, w := s.submitting[j], s.workers[k];
    s.(threads := s.threads[w := Enqueued(s.threads[w], j, now)],
       pending := s.pending[o := Get(s.pending, o) + 1],
       jobs := s.jobs[j := JobRec(o, w, Waiting)],
       submitting := s.submitting - {j})
  }

  function Refuse(s: Pool, j: JobId): Pool {
    s.(submitting := s.submitting - {j}, refused := s.refused + {j})
  }

  /** submit's lock region. `start` says whether the new thread could be started: when it could not,
      a worker retired to make room stays retired. */
  function Submit(s: Pool, j: JobId, k: Key, w: WorkerId, lru: Option<WorkerId>, start: bool, now: int): Pool
    requires SubmitEnabled(s, j, k, w, lru)
    requires RegistryOk(s.workers, s.live, s.threads)
  {
    if k in s.workers then Enqueue(s, j, k, now) else
    var r := if lru.Some? then Retire(s, lru.value) else s;
    if start then Enqueue(Create(r, k, w, now), j, k, now) else Refuse(r, j)
  }

  predicate Idle(s: Pool, w: WorkerId) { w in s.workers.Values && w in s.threads && s.threads[w].pending == 0 }

  /** The worker _create retires first: at the cap, a least recently active idle one if any is idle. */
  predicate LruChoice(s: Pool, lru: Option<WorkerId>) {
    match lru
    case None => |s.workers| < MAX_WORKERS || forall w :: w in s.workers.Values ==> !Idle(s, w)
    case Some(v) => |s.workers| >= MAX_WORKERS && Idle(s, v)
                    && forall w :: w in s.workers.Values && Idle(s, w) ==> s.threads[v].lastActive <= s.threads[w].lastActive
  }

  predicate SubmitEnabled(s: Pool, j: JobId, k: Key, w: WorkerId, lru: Option<WorkerId>) {
    j in s.submitting && w !in s.threads && (k !in s.workers ==> LruChoice(s, lru))
  }

  /** submit's except branch, after the lock region raised. */
  function Forget(s: Pool, j: JobId): Pool {
    s.(refused := s.refused - {j}, tracked := s.tracked - {j})
  }

  function Dequeue(s: Pool, w: WorkerId): Pool
    requires w in s.threads && s.threads[w].queue != []
  {
    var t := s.threads[w];
    s.(threads := s.threads[w := t.(queue := t.queue[1..],
                                    phase := if t.queue[0].Stop? then Exiting else Holding(t.queue[0].id))])
  }

  /** retire_if_idle, after an empty poll. */
  function RetireIfIdle(s: Pool, w: WorkerId, now: int): Pool
    requires w in s.threads
  {
    var t := s.threads[w];
    if t.key in s.workers && s.workers[t.key] == w && t.pending == 0 && now - t.lastActive >= IDLE_EVICT then
      s.(workers := Unregister(s.workers, t.key, w), threads := s.threads[w := t.(phase := Exiting)])
    else s
  }

  /** start_unless_abandoned for the job `w` holds. */
  function Start(s: Pool, w: WorkerId): Pool
    requires w in s.threads && s.threads[w].phase.Holding? && s.threads[w].phase.id in s.jobs
  {
    var t := s.threads[w];
    var j := t.phase.id;
    var rec := s.jobs[j];
    if rec.owner in s.abandoned then s.(threads := s.threads[w := t.(phase := Skipping(j))])
    else s.(running := s.running[rec.owner := Get(s.running, rec.owner) + 1],
            threads := s.threads[w := t.(phase := Running(j))],
            jobs := s.jobs[j := rec.(status := Committed)])
  }

  /** _owner_done_locked: the new pending table and marks. */
  function OwnerDone(pending: map<Owner, int>, running: map<Owner, int>, abandoned: set<Owner>, o: Owner)
    : (map<Owner, int>, set<Owner>)
  {
    var remaining := Get(pending, o) - 1;
    if remaining <= 0 && o !in running then (pending - {o}, abandoned - {o})
    else (pending[o := remaining], abandoned)
  }

  function RunningDown(running: map<Owner, int>, o: Owner): map<Owner, int> {
    var left := Get(running, o) - 1;
    if left > 0 then running[o := left] else running - {o}
  }

  /** job_finished, for a job that ran (started) or was skipped. */
  function Finish(s: Pool, w: WorkerId, now: int): Pool
    requires w in s.threads && (s.threads[w].phase.Running? || s.threads[w].phase.Skipping?)
    requires s.threads[w].phase.id in s.jobs
  {
    var t := s.threads[w];
    var j := t.phase.id;
    var rec := s.jobs[j];
    var running := if t.phase.Running? then RunningDown(s.running, rec.owner) else s.running;
    var (pending, abandoned) := OwnerDone(s.pending, running, s.abandoned, rec.owner);
    s.(pending := pending, running := running, abandoned := abandoned,
       threads := s.threads[w := Released(t, now)],
       jobs := s.jobs[j := rec.(status := if t.phase.Running? then Ran else Skipped)])
  }

  /** _GraphJob.finish, first half: the event is set. */
  function Wake(s: Pool, w: WorkerId): Pool
    requires w in s.threads && (s.threads[w].phase.Finished? || s.threads[w].phase.Dropped?)
  {
    var t := s.threads[w];
    var j := t.phase.id;
    s.(done := s.done + {j}, threads := s.threads[w := t.(phase := if t.phase.Finished? then Woken(j) else DropWoken(j))])
  }

  /** _GraphJob.finish, second half: untrack. `raised` is a job error the worker does not swallow. */
  function Untrack(s: Pool, w: WorkerId, raised: bool): Pool
    requires w in s.threads && (s.threads[w].phase.Woken? || s.threads[w].phase.DropWoken?)
  {
    var t := s.threads[w];
    s.(tracked := s.tracked - {t.phase.id},
       threads := s.threads[w := if t.phase.DropWoken? then t.(phase := Draining)
                                 else if raised then t.(phase := Exiting, crashed := true)
                                 else t.(phase := Polling)])
  }

  /** An idle worker's thread dies without retiring. */
  function Crash(s: Pool, w: WorkerId): Pool
    requires w in s.threads
  {
    s.(threads := s.threads[w := s.threads[w].(phase := Exiting, crashed := true)])
  }

  /** worker_exited's first lock region. */
  function Leave(s: Pool, w: WorkerId): Pool
    requires w in s.threads
  {
    var t := s.threads[w];
    s.(workers := Unregister(s.workers, t.key, w),
       live := s.live - {w}, threads := s.threads[w := t.(phase := Draining)])
  }

  /** One get_nowait of worker_exited's drain. */
  function DrainOne(s: Pool, w: WorkerId): Pool
    requires w in s.threads
  {
    var t := s.threads[w];
    s.(threads := s.threads[w :=
      if t.queue == [] then t.(phase := Dead)
      else if t.queue[0].Stop? then t.(queue := t.queue[1..])
      else t.(queue := t.queue[1..], phase := Dropping(t.queue[0].id))])
  }

  /** worker_exited's second lock region, for one drained job. */
  function Drop(s: Pool, w: WorkerId): Pool
    requires w in s.threads && s.threads[w].phase.Dropping? && s.threads[w].phase.id in s.jobs
  {
    var t := s.threads[w];
    var j := t.phase.id;
    var rec := s.jobs[j];
    var (pending, abandoned) := OwnerDone(s.pending, s.running, s.abandoned, rec.owner);
    s.(pending := pending, abandoned := abandoned,
       threads := s.threads[w := t.(phase := Dropped(j), handled := t.handled + [j])],
       jobs := s.jobs[j := rec.(status := Lost)])
  }

  /** abandon_owner; its result is Get(s.running, o). */
  function Abandon(s: Pool, o: Owner): Pool {
    if Get(s.pending, o) != 0 then s.(abandoned := s.abandoned + {o}) else s
  }

  /** stop_all's lock region, over an enumeration of the live workers. */
  function RetireAll(s: Pool, ws: seq<WorkerId>): Pool
    requires forall w :: w in ws ==> w in s.threads
    decreases |ws|
  {
    if ws == [] then s else RetireAll(Retire(s, ws[0]), ws[1..])
  }

  // ------------------------------------------------------------------ steps and runs

  datatype Step =
    | DoTrack(j: JobId, o: Owner)
    | DoSubmit(j: JobId, k: Key, spare: WorkerId, lru: Option<WorkerId>, start: bool, now: int)
    | DoForget(j: JobId)
    | DoDequeue(w: WorkerId)
    | DoIdlePoll(w: WorkerId, now: int)
    | DoStart(w: WorkerId)
    | DoFinish(w: WorkerId, now: int)
    | DoWake(w: WorkerId)
    | DoUntrack(w: WorkerId, raised: bool)
    | DoCrash(w: WorkerId)
    | DoLeave(w: WorkerId)
    | DoDrainOne(w: WorkerId)
    | DoDrop(w: WorkerId)
    | DoAbandon(o: Owner)
    | DoStopAll(ws: seq<WorkerId>)

  ghost predicate Enabled(s: Pool, step: Step) {
    match step
    case DoTrack(j, o) => j !in s.seen
    case DoSubmit(j, k, w, lru, start, now) => SubmitEnabled(s, j, k, w, lru) && RegistryOk(s.workers, s.live, s.threads)
    case DoForget(j) => j in s.refused
    case DoDequeue(w) => w in s.threads && s.threads[w].phase.Polling? && s.threads[w].queue != []
    case DoIdlePoll(w, now) => w in s.threads && s.threads[w].phase.Polling?
    case DoStart(w) => w in s.threads && s.threads[w].phase.Holding? && s.threads[w].phase.id in s.jobs
    case DoFinish(w, now) => w in s.threads && (s.threads[w].phase.Running? || s.threads[w].phase.Skipping?)
                             && s.threads[w].phase.id in s.jobs
    case DoWake(w) => w in s.threads && (s.threads[w].phase.Finished? || s.threads[w].phase.Dropped?)
    case DoUntrack(w, raised) => w in s.threads && (s.threads[w].phase.Woken? || s.threads[w].phase.DropWoken?)
    case DoCrash(w) => w in s.threads && s.threads[w].phase.Polling?
    case DoLeave(w) => w in s.threads && s.threads[w].phase.Exiting?
    case DoDrainOne(w) => w in s.threads && s.threads[w].phase.Draining?
    case DoDrop(w) => w in s.threads && s.threads[w].phase.Dropping? && s.threads[w].phase.id in s.jobs
    case DoAbandon(o) => true
    case DoStopAll(ws) => NoDup(ws) && (forall w :: w in ws <==> w in s.live) && forall w :: w in ws ==> w in s.threads
  }

  ghost function Apply(s: Pool, step: Step): Pool
    requires Enabled(s, step)
  {
    match step
    case DoTrack(j, o) => Track(s, j, o)
    case DoSubmit(j, k, w, lru, start, now) => Submit(s, j, k, w, lru, start, now)
    case DoForget(j) => Forget(s, j)
    case DoDequeue(w) => Dequeue(s, w)
    case DoIdlePoll(w, now) => RetireIfIdle(s, w, now)
    case DoStart(w) => Start(s, w)
    case DoFinish(w, now) => Finish(s, w, now)
    case DoWake(w) => Wake(s, w)
    case DoUntrack(w, raised) => Untrack(s, w, raised)
    case DoCrash(w) => Crash(s, w)
    case DoLeave(w) => Leave(s, w)
    case DoDrainOne(w) => DrainOne(s, w)
    case DoDrop(w) => Drop(s, w)
    case DoAbandon(o) => Abandon(s, o)
    case DoStopAll(ws) => RetireAll(s, ws)
  }

  /** A run: consecutive states are linked by enabled steps. */
  ghost predicate IsRun(states: seq<Pool>, steps: seq<Step>) {
    |states| == |steps| + 1
    && forall i :: 0 <= i < |steps| ==> Enabled(states[i], steps[i]) && states[i + 1] == Apply(states[i], steps[i])
  }

  // ------------------------------------------------------------------ invariant

  predicate Unfinished(status: Status) { status.Waiting? || status.Committed? }

  function UnfinishedOf(jobs: map<JobId, JobRec>, o: Owner): set<JobId> {
    set j | j in jobs && jobs[j].owner == o && Unfinished(jobs[j].status)
  }

  function CommittedOf(jobs: map<JobId, JobRec>, o: Owner): set<JobId> {
    set j | j in jobs && jobs[j].owner == o && jobs[j].status.Committed?
  }

  /** A table entry is an exact count, and is there exactly when the count is not zero. */
  predicate Entry(table: map<Owner, int>, o: Owner, counted: set<JobId>) {
    if o in table then table[o] == |counted| && counted != {} else counted == {}
  }

  predicate OwnerExact(jobs: map<JobId, JobRec>, pending: map<Owner, int>, running: map<Owner, int>, o: Owner) {
    Entry(pending, o, UnfinishedOf(jobs, o)) && Entry(running, o, CommittedOf(jobs, o))
  }

  /** The owner tables hold exactly the owners with unfinished (running) jobs, with exact counts. */
  ghost predicate CountsExact(jobs: map<JobId, JobRec>, pending: map<Owner, int>, running: map<Owner, int>,
                              abandoned: set<Owner>)
  {
    (forall o :: OwnerExact(jobs, pending, running, o)) && abandoned <= pending.Keys
  }

  /** Every job in a queue precedes every STOP. */
  ghost predicate StopsLast(queue: seq<Item>) {
    forall i, j :: 0 <= i < j < |queue| && queue[i].Stop? ==> queue[j].Stop?
  }

  ghost predicate WorkerOk(t: Worker, w: WorkerId, isLive: bool, jobs: map<JobId, JobRec>) {
    && StopsLast(t.queue)
    && t.accepted == t.handled + Held(t.phase) + JobsIn(t.queue)
    && NoDup(t.accepted)
    && (forall j :: j in t.accepted ==> j in jobs && jobs[j].worker == w)
    && (forall j :: j in t.handled ==> !Unfinished(jobs[j].status) && (jobs[j].status.Lost? ==> t.crashed))
    && (forall j :: j in JobsIn(t.queue) ==> jobs[j].status.Waiting?)
    && (forall j :: j in Held(t.phase) ==> jobs[j].status == if t.phase.Running? then Committed else Waiting)
    && (isLive <==> InLoop(t.phase))
    && (InLoop(t.phase) ==> t.pending == |Held(t.phase)| + |JobsIn(t.queue)|)
    && ((t.phase.Exiting? || !InLoop(t.phase)) && !t.crashed ==> JobsIn(t.queue) == [] && Held(t.phase) == [])
    && (t.phase.Dead? ==> t.queue == [])
  }

  ghost predicate WorkersOk(threads: map<WorkerId, Worker>, live: set<WorkerId>, jobs: map<JobId, JobRec>) {
    forall w :: w in threads ==> WorkerOk(threads[w], w, w in live, jobs)
  }

  /** A registered worker is live, has had no STOP queued, and has left its loop only by crashing. */
  ghost predicate RegistryOk(workers: map<Key, WorkerId>, live: set<WorkerId>, threads: map<WorkerId, Worker>) {
    && live <= threads.Keys
    && forall k :: k in workers ==> workers[k] in live && Registrable(threads[workers[k]], k)
  }

  predicate Registrable(t: Worker, k: Key) {
    t.key == k && Stop !in t.queue && (t.phase.Exiting? ==> t.crashed)
  }

  ghost predicate JobsPlaced(jobs: map<JobId, JobRec>, threads: map<WorkerId, Worker>) {
    forall j :: j in jobs ==> jobs[j].worker in threads && j in threads[jobs[j].worker].accepted
  }

  /** A handle is tracked from before its job can be queued until after its accounting is released. */
  ghost predicate TrackingOk(jobs: map<JobId, JobRec>, tracked: map<JobId, Owner>, done: set<JobId>,
                             submitting: map<JobId, Owner>)
  {
    && (forall j :: j in jobs && Unfinished(jobs[j].status) ==> j in tracked && tracked[j] == jobs[j].owner && j !in done)
    && (forall j :: j in submitting ==> j in tracked && tracked[j] == submitting[j] && j !in done)
  }

  /** Handles are fresh: no two submissions share one. */
  ghost predicate FreshOk(submitting: set<JobId>, refused: set<JobId>, accepted: set<JobId>, tracked: set<JobId>,
                          done: set<JobId>, seen: set<JobId>)
  {
    && submitting !! refused && refused !! accepted && submitting !! accepted
    && accepted + submitting + refused + tracked <= seen && done <= accepted
  }

  /** The handle a worker is finishing belongs to a job whose accounting is released. */
  ghost predicate ReleasedFirst(threads: map<WorkerId, Worker>, jobs: map<JobId, JobRec>) {
    forall w :: w in threads && Releasing(threads[w].phase) ==>
      threads[w].phase.id in jobs && !Unfinished(jobs[threads[w].phase.id].status)
  }

  predicate Releasing(p: Phase) { p.Finished? || p.Woken? || p.Dropped? || p.DropWoken? }

  ghost predicate Inv(s: Pool) {
    match s
    case Pool(workers, live, abandoned, pending, running, threads, tracked, done, submitting, refused, seen, jobs) =>
      && CountsExact(jobs, pending, running, abandoned)
      && WorkersOk(threads, live, jobs)
      && RegistryOk(workers, live, threads)
      && JobsPlaced(jobs, threads)
      && TrackingOk(jobs, tracked, done, submitting)
      && FreshOk(submitting.Keys, refused, jobs.Keys, tracked.Keys, done, seen)
      && ReleasedFirst(threads, jobs)
  }

  // ------------------------------------------------------------------ lemmas: queues

  lemma {:induction false} JobsInAppend(queue: seq<Item>, item: Item)
    ensures JobsIn(queue + [item]) == JobsIn(queue) + (if item.Job? then [item.id] else [])
  {
    if queue != [] {
      JobsInAppend(queue[1..], item);
      assert (queue + [item])[1..] == queue[1..] + [item];
    } else {
      assert (queue + [item])[1..] == [];
    }
  }

  lemma {:induction false} StopFirst(queue: seq<Item>)
    requires StopsLast(queue) && queue != [] && queue[0].Stop?
    ensures JobsIn(queue) == []
  {
    if |queue| > 1 { StopFirst(queue[1..]); }
  }

  // ------------------------------------------------------------------ lemmas: counts

  /** One job's record changes: only that job moves in or out of an owner's sets. */
  lemma SetsAfter(jobs: map<JobId, JobRec>, j: JobId, rec: JobRec, o: Owner)
    requires j in jobs ==> jobs[j].owner == rec.owner
    ensures UnfinishedOf(jobs[j := rec], o)
         == if o == rec.owner && Unfinished(rec.status) then UnfinishedOf(jobs, o) + {j} else UnfinishedOf(jobs, o) - {j}
    ensures CommittedOf(jobs[j := rec], o)
         == if o == rec.owner && rec.status.Committed? then CommittedOf(jobs, o) + {j} else CommittedOf(jobs, o) - {j}
    ensures CommittedOf(jobs, o) <= UnfinishedOf(jobs, o)
    ensures j in UnfinishedOf(jobs, o) <==> j in jobs && jobs[j].owner == o && Unfinished(jobs[j].status)
    ensures j in CommittedOf(jobs, o) <==> j in jobs && jobs[j].owner == o && jobs[j].status.Committed?
  {
  }

  lemma CountAccept(jobs: map<JobId, JobRec>, pending: map<Owner, int>, running: map<Owner, int>, abandoned: set<Owner>,
                    j: JobId, o: Owner, w: WorkerId)
    requires j !in jobs
    ensures CountsExact(jobs, pending, running, abandoned) ==> CountsExact(jobs[j := JobRec(o, w, Waiting)], pending[o := Get(pending, o) + 1], running, abandoned)
  {
    var jobs', pending' := jobs[j := JobRec(o, w, Waiting)], pending[o := Get(pending, o) + 1];
    if CountsExact(jobs, pending, running, abandoned) {
      forall p ensures OwnerExact(jobs', pending', running, p) {
        assert OwnerExact(jobs, pending, running, p);
        SetsAfter(jobs, j, JobRec(o, w, Waiting), p);
      }
    }
  }

  lemma CountStart(jobs: map<JobId, JobRec>, pending: map<Owner, int>, running: map<Owner, int>, abandoned: set<Owner>,
                   j: JobId)
    requires j in jobs && jobs[j].status.Waiting?
    ensures CountsExact(jobs, pending, running, abandoned) ==> CountsExact(jobs[j := jobs[j].(status := Committed)], pending,
                        running[jobs[j].owner := Get(running, jobs[j].owner) + 1], abandoned)
  {
    var o, rec := jobs[j].owner, jobs[j].(status := Committed);
    var jobs', running' := jobs[j := rec], running[o := Get(running, o) + 1];
    if CountsExact(jobs, pending, running, abandoned) {
      forall p ensures OwnerExact(jobs', pending, running', p) {
        assert OwnerExact(jobs, pending, running, p);
        SetsAfter(jobs, j, rec, p);
      }
    }
  }

  lemma OtherOwner(jobs: map<JobId, JobRec>, j: JobId, rec: JobRec, p: Owner)
    requires j in jobs && jobs[j].owner == rec.owner != p
    ensures UnfinishedOf(jobs[j := rec], p) == UnfinishedOf(jobs, p) && CommittedOf(jobs[j := rec], p) == CommittedOf(jobs, p)
  {
    SetsAfter(jobs, j, rec, p);
  }

  lemma FinishEntry(jobs: map<JobId, JobRec>, pending: map<Owner, int>, running: map<Owner, int>, j: JobId, status: Status)
    requires j in jobs && Unfinished(jobs[j].status) && !Unfinished(status)
    requires OwnerExact(jobs, pending, running, jobs[j].owner)
    ensures var o := jobs[j].owner;
            var jobs' := jobs[j := jobs[j].(status := status)];
            var running' := if jobs[j].status.Committed? then RunningDown(running, o) else running;
            Entry(running', o, CommittedOf(jobs', o))
            && (Get(pending, o) - 1 <= 0 && o !in running' <==> UnfinishedOf(jobs', o) == {})
            && Get(pending, o) - 1 == |UnfinishedOf(jobs', o)|
  {
    var o, rec := jobs[j].owner, jobs[j].(status := status);
    SetsAfter(jobs, j, rec, o);
    SetsAfter(jobs[j := rec], j, rec, o);
    var unfinished, committed := UnfinishedOf(jobs, o), CommittedOf(jobs, o);
    assert |unfinished - {j}| == |unfinished| - 1;
    if jobs[j].status.Committed? {
      assert |committed - {j}| == |committed| - 1;
    } else {
      assert committed - {j} == committed;
    }
  }

  /** Finishing a job keeps the tables exact, and drops the owner's mark exactly with its last job. */
  lemma CountFinish(jobs: map<JobId, JobRec>, pending: map<Owner, int>, running: map<Owner, int>, abandoned: set<Owner>,
                    j: JobId, status: Status)
    requires j in jobs && Unfinished(jobs[j].status) && !Unfinished(status)
    ensures CountsExact(jobs, pending, running, abandoned) ==>
            var o := jobs[j].owner;
            var jobs' := jobs[j := jobs[j].(status := status)];
            var running' := if jobs[j].status.Committed? then RunningDown(running, o) else running;
            var (pending', abandoned') := OwnerDone(pending, running', abandoned, o);
            CountsExact(jobs', pending', running', abandoned')
            && abandoned' == (if UnfinishedOf(jobs', o) == {} then abandoned - {o} else abandoned)
  {
    var o, rec := jobs[j].owner, jobs[j].(status := status);
    var jobs' := jobs[j := rec];
    var running' := if jobs[j].status.Committed? then RunningDown(running, o) else running;
    var (pending', abandoned') := OwnerDone(pending, running', abandoned, o);
    if CountsExact(jobs, pending, running, abandoned) {
      FinishEntry(jobs, pending, running, j, status);
      forall p ensures OwnerExact(jobs', pending', running', p) {
        assert OwnerExact(jobs, pending, running, p);
        if p != o { OtherOwner(jobs, j, rec, p); }
      }
      forall p | p in abandoned' ensures p in pending' {
        assert p in pending;
      }
    }
  }

  // ------------------------------------------------------------------ lemmas: one worker at a time

  /** A step that changes one worker, and job records of that worker only, leaves the others alone. */
  lemma WorkersAfter(threads: map<WorkerId, Worker>, live: set<WorkerId>, jobs: map<JobId, JobRec>,
                     w: WorkerId, t': Worker, live': set<WorkerId>, jobs': map<JobId, JobRec>)
    requires live - {w} == live' - {w}
    requires forall j :: j in jobs && jobs[j].worker != w ==> j in jobs' && jobs'[j] == jobs[j]
    ensures WorkersOk(threads, live, jobs) && w in threads ==> WorkerOk(threads[w], w, w in live, jobs)
    ensures WorkersOk(threads, live, jobs) && WorkerOk(t', w, w in live', jobs') ==> WorkersOk(threads[w := t'], live', jobs')
  {
    if WorkersOk(threads, live, jobs) && WorkerOk(t', w, w in live', jobs') {
      forall v | v in threads && v != w ensures WorkerOk(threads[v], v, v in live', jobs') {
        assert v in live <==> v in live - {w};
        assert v in live' <==> v in live' - {w};
        RecordsKept(threads[v], v, v in live, jobs, jobs');
      }
    }
  }

  lemma RecordsKept(t: Worker, w: WorkerId, isLive: bool, jobs: map<JobId, JobRec>, jobs': map<JobId, JobRec>)
    requires WorkerOk(t, w, isLive, jobs)
    requires forall j :: j in jobs && jobs[j].worker == w ==> j in jobs' && jobs'[j] == jobs[j]
    ensures WorkerOk(t, w, isLive, jobs')
  {
    assert forall j :: j in t.handled ==> j in t.accepted;
    assert forall j :: j in JobsIn(t.queue) ==> j in t.accepted;
    assert forall j :: j in Held(t.phase) ==> j in t.accepted;
  }

  lemma RegistryAfter(workers: map<Key, WorkerId>, live: set<WorkerId>, threads: map<WorkerId, Worker>, w: WorkerId, t': Worker)
    requires w in threads && forall k :: Registrable(threads[w], k) ==> Registrable(t', k)
    ensures RegistryOk(workers, live, threads) ==> RegistryOk(workers, live, threads[w := t'])
  {
  }

  /** Once unregistered, `w` may change, and leave the live set, freely. */
  lemma UnregisteredAfter(workers: map<Key, WorkerId>, live: set<WorkerId>, threads: map<WorkerId, Worker>, w: WorkerId,
                          live': set<WorkerId>, t': Worker)
    requires w in threads && live - {w} <= live' <= live
    ensures RegistryOk(workers, live, threads) ==>
              RegistryOk(Unregister(workers, threads[w].key, w), live', threads[w := t'])
  {
    var workers' := Unregister(workers, threads[w].key, w);
    if RegistryOk(workers, live, threads) {
      forall k | k in workers' ensures workers'[k] != w && workers'[k] in live' && Registrable(threads[workers'[k]], k) {
        assert workers[k] == workers'[k] && workers[k] in live && Registrable(threads[workers[k]], k);
        assert workers[k] in live - {w};
      }
    }
  }

  lemma PlacedAfter(jobs: map<JobId, JobRec>, threads: map<WorkerId, Worker>, jobs': map<JobId, JobRec>, w: WorkerId, t': Worker)
    requires forall j :: j in jobs' ==>
               (j in jobs && jobs[j].worker == jobs'[j].worker) || (jobs'[j].worker == w && j in t'.accepted)
    requires w in threads ==> threads[w].accepted <= t'.accepted
    ensures JobsPlaced(jobs, threads) ==> JobsPlaced(jobs', threads[w := t'])
  {
    if JobsPlaced(jobs, threads) {
      forall j | j in jobs' && j in jobs && jobs[j].worker == jobs'[j].worker
        ensures jobs'[j].worker in threads && j in threads[w := t'][jobs'[j].worker].accepted
      {
        var a := threads[jobs[j].worker].accepted;
        var i :| 0 <= i < |a| && a[i] == j;
        if jobs[j].worker == w { assert t'.accepted[i] == j; }
      }
    }
  }

  lemma ReleasedAfter(threads: map<WorkerId, Worker>, jobs: map<JobId, JobRec>, jobs': map<JobId, JobRec>, w: WorkerId, t': Worker)
    requires Releasing(t'.phase) ==>
               (t'.phase.id in jobs' && !Unfinished(jobs'[t'.phase.id].status))
               || (w in threads && Releasing(threads[w].phase) && threads[w].phase.id == t'.phase.id)
    requires forall j :: j in jobs && !Unfinished(jobs[j].status) ==> j in jobs' && jobs'[j] == jobs[j]
    ensures ReleasedFirst(threads, jobs) ==> ReleasedFirst(threads[w := t'], jobs')
  {
  }

  /** A job of `w` moves to `status`, which is no less finished: its handle stays tracked as long as needed. */
  lemma StatusAfter(jobs: map<JobId, JobRec>, tracked: map<JobId, Owner>, done: set<JobId>, submitting: map<JobId, Owner>,
                    j: JobId, status: Status)
    requires j in jobs && (Unfinished(status) ==> Unfinished(jobs[j].status))
    ensures TrackingOk(jobs, tracked, done, submitting) ==>
              TrackingOk(jobs[j := jobs[j].(status := status)], tracked, done, submitting)
    ensures jobs[j := jobs[j].(status := status)].Keys == jobs.Keys
  {
  }

  /** A handle is finished only once its job's accounting is released. */
  lemma TrackingReleased(s: Pool, w: WorkerId, j: JobId)
    requires w in s.threads && Releasing(s.threads[w].phase) && s.threads[w].phase.id == j
    ensures ReleasedFirst(s.threads, s.jobs)
            && FreshOk(s.submitting.Keys, s.refused, s.jobs.Keys, s.tracked.Keys, s.done, s.seen) ==>
              && FreshOk(s.submitting.Keys, s.refused, s.jobs.Keys, s.tracked.Keys, s.done + {j}, s.seen)
              && FreshOk(s.submitting.Keys, s.refused, s.jobs.Keys, (s.tracked - {j}).Keys, s.done, s.seen)
              && (TrackingOk(s.jobs, s.tracked, s.done, s.submitting) ==>
                    && TrackingOk(s.jobs, s.tracked, s.done + {j}, s.submitting)
                    && TrackingOk(s.jobs, s.tracked - {j}, s.done, s.submitting))
  {
    assert (s.tracked - {j}).Keys == s.tracked.Keys - {j};
  }

  lemma TrackingEnqueue(s: Pool, j: JobId, rec: JobRec)
    requires j in s.submitting && rec.owner == s.submitting[j] && rec.status.Waiting?
    ensures TrackingOk(s.jobs, s.tracked, s.done, s.submitting) ==>
              TrackingOk(s.jobs[j := rec], s.tracked, s.done, s.submitting - {j})
    ensures FreshOk(s.submitting.Keys, s.refused, s.jobs.Keys, s.tracked.Keys, s.done, s.seen) ==>
              FreshOk((s.submitting - {j}).Keys, s.refused, s.jobs[j := rec].Keys, s.tracked.Keys, s.done, s.seen)
  {
    assert (s.submitting - {j}).Keys == s.submitting.Keys - {j};
    assert s.jobs[j := rec].Keys == s.jobs.Keys + {j};
  }

  /** The job a worker holds is neither handled nor queued. */
  lemma HeldAlone(t: Worker, w: WorkerId, isLive: bool, jobs: map<JobId, JobRec>)
    requires WorkerOk(t, w, isLive, jobs) && |Held(t.phase)| == 1
    ensures Held(t.phase)[0] !in t.handled && Held(t.phase)[0] !in JobsIn(t.queue)
    ensures Held(t.phase)[0] in jobs && jobs[Held(t.phase)[0]].worker == w
  {
    var n, j := |t.handled|, Held(t.phase)[0];
    assert t.accepted[n] == j;
    forall i | 0 <= i < n ensures t.handled[i] != j { assert t.accepted[i] == t.handled[i]; }
    forall i | 0 <= i < |JobsIn(t.queue)| ensures JobsIn(t.queue)[i] != j {
      assert t.accepted[n + 1 + i] == JobsIn(t.queue)[i];
    }
  }

  lemma FreshWorker(w: WorkerId, k: Key, now: int, jobs: map<JobId, JobRec>)
    ensures WorkerOk(Worker(k, [], 0, now, Polling, false, [], []), w, true, jobs)
  {
  }

  lemma LocalStop(t: Worker, w: WorkerId, jobs: map<JobId, JobRec>)
    ensures WorkerOk(t, w, true, jobs) ==> WorkerOk(t.(queue := t.queue + [Stop]), w, true, jobs)
  {
    JobsInAppend(t.queue, Stop);
  }

  lemma LocalEnqueue(t: Worker, w: WorkerId, jobs: map<JobId, JobRec>, j: JobId, rec: JobRec, now: int)
    requires j !in jobs && Stop !in t.queue && rec.worker == w && rec.status.Waiting? && (t.phase.Exiting? ==> t.crashed)
    ensures WorkerOk(t, w, true, jobs) ==> WorkerOk(Enqueued(t, j, now), w, true, jobs[j := rec])
  {
    if WorkerOk(t, w, true, jobs) {
      JobsInAppend(t.queue, Job(j));
      assert j !in t.accepted;
      assert t.handled + Held(t.phase) + (JobsIn(t.queue) + [j]) == t.accepted + [j];
      assert forall i :: 0 <= i < |t.queue| ==> t.queue[i] in t.queue && t.queue[i] != Stop;
      RecordsKept(t, w, true, jobs, jobs[j := rec]);
    }
  }

  lemma LocalPop(t: Worker, w: WorkerId, isLive: bool, jobs: map<JobId, JobRec>, phase: Phase)
    requires t.queue != [] && Held(t.phase) == [] && InLoop(phase) == InLoop(t.phase) && !phase.Running? && !phase.Dead?
    requires if t.queue[0].Stop? then Held(phase) == [] else Held(phase) == [t.queue[0].id] && !phase.Exiting?
    ensures WorkerOk(t, w, isLive, jobs) ==> WorkerOk(t.(queue := t.queue[1..], phase := phase), w, isLive, jobs)
  {
    if WorkerOk(t, w, isLive, jobs) {
      if t.queue[0].Stop? { StopFirst(t.queue); }
      else { assert t.handled + [t.queue[0].id] + JobsIn(t.queue[1..]) == t.handled + [] + JobsIn(t.queue); }
    }
  }

  /** The thread moves on without touching a job. */
  lemma LocalMove(t: Worker, w: WorkerId, isLive: bool, jobs: map<JobId, JobRec>, phase: Phase, crashed: bool, isLive': bool)
    requires Held(t.phase) == Held(phase) && t.phase.Running? == phase.Running? && (t.crashed ==> crashed)
    requires InLoop(phase) ==> InLoop(t.phase)
    requires phase.Exiting? ==> crashed || t.pending == 0
    requires !InLoop(phase) ==> t.phase.Exiting? || !InLoop(t.phase)
    requires phase.Dead? ==> t.queue == []
    ensures WorkerOk(t, w, isLive, jobs) && (isLive' <==> InLoop(phase)) ==> WorkerOk(t.(phase := phase, crashed := crashed), w, isLive', jobs)
  {
  }

  lemma LocalCommit(t: Worker, w: WorkerId, isLive: bool, jobs: map<JobId, JobRec>)
    requires t.phase.Holding?
    ensures WorkerOk(t, w, isLive, jobs) ==>
              && t.phase.id in jobs && jobs[t.phase.id].worker == w && jobs[t.phase.id].status.Waiting?
              && WorkerOk(t.(phase := Running(t.phase.id)), w, isLive, jobs[t.phase.id := jobs[t.phase.id].(status := Committed)])
  {
    if WorkerOk(t, w, isLive, jobs) {
      HeldAlone(t, w, isLive, jobs);
      assert t.phase.id in Held(t.phase);
    }
  }

  /** The held job's accounting is released: it joins the handled ones. */
  lemma LocalRelease(t: Worker, w: WorkerId, isLive: bool, jobs: map<JobId, JobRec>, t': Worker, status: Status)
    requires |Held(t.phase)| == 1 && Held(t'.phase) == [] && InLoop(t'.phase) == InLoop(t.phase)
    requires t' == t.(pending := t'.pending, lastActive := t'.lastActive, phase := t'.phase, handled := t.handled + Held(t.phase))
    requires (InLoop(t.phase) ==> t'.pending == t.pending - 1) && !t'.phase.Exiting? && !t'.phase.Dead?
    requires !Unfinished(status) && (status.Lost? ==> !InLoop(t.phase))
    ensures WorkerOk(t, w, isLive, jobs) ==>
              var j := Held(t.phase)[0];
              && j in jobs && jobs[j].worker == w && jobs[j].status == (if t.phase.Running? then Committed else Waiting)
              && WorkerOk(t', w, isLive, jobs[j := jobs[j].(status := status)])
  {
    if WorkerOk(t, w, isLive, jobs) {
      HeldAlone(t, w, isLive, jobs);
      assert Held(t.phase)[0] in Held(t.phase);
      assert t.handled + Held(t.phase) + [] + JobsIn(t.queue) == t.handled + Held(t.phase) + JobsIn(t.queue);
    }
  }

  // ------------------------------------------------------------------ lemmas: every step keeps Inv

  lemma TrackKeeps(s: Pool, j: JobId, o: Owner)
    requires Inv(s) && j !in s.seen
    ensures Inv(Track(s, j, o))
  {
    hide CountsExact, OwnerExact, WorkersOk, WorkerOk, JobsPlaced, ReleasedFirst, RegistryOk;
  }

  lemma ForgetKeeps(s: Pool, j: JobId)
    requires Inv(s) && j in s.refused
    ensures Inv(Forget(s, j))
  {
    hide CountsExact, OwnerExact, WorkersOk, WorkerOk, JobsPlaced, ReleasedFirst, RegistryOk;
  }

  lemma RefuseKeeps(s: Pool, j: JobId)
    requires Inv(s) && j in s.submitting
    ensures Inv(Refuse(s, j))
  {
    hide CountsExact, OwnerExact, WorkersOk, WorkerOk, JobsPlaced, ReleasedFirst, RegistryOk;
  }

  lemma AbandonKeeps(s: Pool, o: Owner)
    requires Inv(s)
    ensures Inv(Abandon(s, o))
  {
    hide WorkersOk, WorkerOk, JobsPlaced, TrackingOk, ReleasedFirst, RegistryOk;
    assert OwnerExact(s.jobs, s.pending, s.running, o);
  }

  lemma RetireKeeps(s: Pool, w: WorkerId)
    requires Inv(s) && w in s.threads && w in s.live
    ensures Inv(Retire(s, w))
  {
    hide CountsExact, OwnerExact, WorkersOk, WorkerOk, JobsPlaced, TrackingOk, ReleasedFirst, RegistryOk;
    var t := s.threads[w];
    var s' := Retire(s, w);
    var t' := s'.threads[w];
    LocalStop(t, w, s.jobs);
    UnregisteredAfter(s.workers, s.live, s.threads, w, s'.live, t');
    WorkersAfter(s.threads, s.live, s.jobs, w, t', s'.live, s'.jobs);
    PlacedAfter(s.jobs, s.threads, s'.jobs, w, t');
    ReleasedAfter(s.threads, s.jobs, s'.jobs, w, t');
  }

  lemma RetireAllKeeps(s: Pool, ws: seq<WorkerId>)
    requires Inv(s) && (forall w :: w in ws ==> w in s.live) && forall w :: w in ws ==> w in s.threads
    ensures Inv(RetireAll(s, ws)) && RetireAll(s, ws).jobs == s.jobs
    decreases |ws|
  {
    if ws != [] {
      RetireKeeps(s, ws[0]);
      RetireAllKeeps(Retire(s, ws[0]), ws[1..]);
    }
  }

  lemma RegistryCreate(workers: map<Key, WorkerId>, live: set<WorkerId>, threads: map<WorkerId, Worker>, w: WorkerId,
                       k: Key, t': Worker)
    requires w !in threads && Registrable(t', k)
    ensures RegistryOk(workers, live, threads) ==>
              w !in live && RegistryOk(workers[k := w], live + {w}, threads[w := t'])
  {
  }

  lemma CreateKeeps(s: Pool, k: Key, w: WorkerId, now: int)
    requires Inv(s) && k !in s.workers && w !in s.threads
    ensures Inv(Create(s, k, w, now))
  {
    hide CountsExact, OwnerExact, WorkersOk, WorkerOk, JobsPlaced, TrackingOk, ReleasedFirst, RegistryOk;
    var s' := Create(s, k, w, now);
    var t' := s'.threads[w];
    RegistryCreate(s.workers, s.live, s.threads, w, k, t');
    FreshWorker(w, k, now, s.jobs);
    WorkersAfter(s.threads, s.live, s.jobs, w, t', s'.live, s'.jobs);
    PlacedAfter(s.jobs, s.threads, s'.jobs, w, t');
    ReleasedAfter(s.threads, s.jobs, s'.jobs, w, t');
  }

  lemma EnqueueKeeps(s: Pool, j: JobId, k: Key, now: int)
    requires Inv(s) && j in s.submitting && k in s.workers
    ensures Inv(Enqueue(s, j, k, now))
  {
    hide CountsExact, OwnerExact, WorkersOk, WorkerOk, JobsPlaced, ReleasedFirst, RegistryOk, TrackingOk, FreshOk;
    RegistryEntry(s.workers, s.live, s.threads, k);
    SubmittingFresh(s, j);
    var w := s.workers[k];
    var t := s.threads[w];
    var s' := Enqueue(s, j, k, now);
    var t' := s'.threads[w];
    TrackingEnqueue(s, j, s'.jobs[j]);
    CountAccept(s.jobs, s.pending, s.running, s.abandoned, j, s.submitting[j], w);
    LocalEnqueue(t, w, s.jobs, j, s'.jobs[j], now);
    RegistryAfter(s.workers, s.live, s.threads, w, t');
    WorkersAfter(s.threads, s.live, s.jobs, w, t', s'.live, s'.jobs);
    PlacedAfter(s.jobs, s.threads, s'.jobs, w, t');
    ReleasedAfter(s.threads, s.jobs, s'.jobs, w, t');
  }

  lemma RegistryEntry(workers: map<Key, WorkerId>, live: set<WorkerId>, threads: map<WorkerId, Worker>, k: Key)
    requires k in workers
    ensures RegistryOk(workers, live, threads) ==>
              workers[k] in live && workers[k] in threads && Registrable(threads[workers[k]], k)
  {
  }

  lemma SubmittingFresh(s: Pool, j: JobId)
    requires Inv(s) && j in s.submitting
    ensures j !in s.jobs
  {
  }

  lemma SubmitKeeps(s: Pool, j: JobId, k: Key, w: WorkerId, lru: Option<WorkerId>, start: bool, now: int)
    requires Inv(s) && SubmitEnabled(s, j, k, w, lru)
    ensures Inv(Submit(s, j, k, w, lru, start, now))
  {
    hide CountsExact, OwnerExact, WorkersOk, WorkerOk, JobsPlaced, TrackingOk, ReleasedFirst;
    if k in s.workers {
      EnqueueKeeps(s, j, k, now);
    } else {
      if lru.Some? { RetireKeeps(s, lru.value); }
      var r := if lru.Some? then Retire(s, lru.value) else s;
      if start {
        CreateKeeps(r, k, w, now);
        EnqueueKeeps(Create(r, k, w, now), j, k, now);
      } else {
        RefuseKeeps(r, j);
      }
    }
  }

  lemma DequeueKeeps(s: Pool, w: WorkerId)
    requires Inv(s) && w in s.threads && s.threads[w].phase.Polling? && s.threads[w].queue != []
    ensures Inv(Dequeue(s, w))
  {
    hide CountsExact, OwnerExact, WorkersOk, WorkerOk, JobsPlaced, TrackingOk, ReleasedFirst, RegistryOk;
    var t := s.threads[w];
    var s' := Dequeue(s, w);
    var t' := s'.threads[w];
    LocalPop(t, w, w in s.live, s.jobs, t'.phase);
    RegistryAfter(s.workers, s.live, s.threads, w, t');
    WorkersAfter(s.threads, s.live, s.jobs, w, t', s'.live, s'.jobs);
    PlacedAfter(s.jobs, s.threads, s'.jobs, w, t');
    ReleasedAfter(s.threads, s.jobs, s'.jobs, w, t');
  }

  lemma RetireIfIdleKeeps(s: Pool, w: WorkerId, now: int)
    requires Inv(s) && w in s.threads && s.threads[w].phase.Polling?
    ensures Inv(RetireIfIdle(s, w, now))
  {
    hide CountsExact, OwnerExact, WorkersOk, WorkerOk, JobsPlaced, TrackingOk, ReleasedFirst, RegistryOk;
    var s' := RetireIfIdle(s, w, now);
    var t' := s'.threads[w];
    if s' != s {
      LocalMove(s.threads[w], w, w in s.live, s.jobs, Exiting, t'.crashed, w in s.live);
      UnregisteredAfter(s.workers, s.live, s.threads, w, s.live, t');
      WorkersAfter(s.threads, s.live, s.jobs, w, t', s.live, s.jobs);
      PlacedAfter(s.jobs, s.threads, s.jobs, w, t');
      ReleasedAfter(s.threads, s.jobs, s.jobs, w, t');
    }
  }

  lemma StartKeeps(s: Pool, w: WorkerId)
    requires Inv(s) && w in s.threads && s.threads[w].phase.Holding?
    ensures s.threads[w].phase.id in s.jobs && Inv(Start(s, w))
  {
    hide CountsExact, OwnerExact, WorkersOk, WorkerOk, JobsPlaced, ReleasedFirst, RegistryOk, TrackingOk, FreshOk;
    var t := s.threads[w];
    WorkersAfter(s.threads, s.live, s.jobs, w, t, s.live, s.jobs);
    LocalCommit(t, w, w in s.live, s.jobs);
    if s.jobs[t.phase.id].owner in s.abandoned { SkipKeeps(s, w); } else { CommitKeeps(s, w); }
  }

  lemma SkipKeeps(s: Pool, w: WorkerId)
    requires Inv(s) && w in s.threads && s.threads[w].phase.Holding? && s.threads[w].phase.id in s.jobs
    requires s.jobs[s.threads[w].phase.id].owner in s.abandoned
    ensures Inv(Start(s, w))
  {
    hide CountsExact, OwnerExact, WorkersOk, WorkerOk, JobsPlaced, ReleasedFirst, RegistryOk, TrackingOk, FreshOk;
    var t := s.threads[w];
    var t' := t.(phase := Skipping(t.phase.id));
    LocalMove(t, w, w in s.live, s.jobs, t'.phase, t.crashed, w in s.live);
    RegistryAfter(s.workers, s.live, s.threads, w, t');
    WorkersAfter(s.threads, s.live, s.jobs, w, t', s.live, s.jobs);
    PlacedAfter(s.jobs, s.threads, s.jobs, w, t');
    ReleasedAfter(s.threads, s.jobs, s.jobs, w, t');
  }

  lemma CommitKeeps(s: Pool, w: WorkerId)
    requires Inv(s) && w in s.threads && s.threads[w].phase.Holding? && s.threads[w].phase.id in s.jobs
    requires s.jobs[s.threads[w].phase.id].owner !in s.abandoned
    ensures Inv(Start(s, w))
  {
    hide CountsExact, OwnerExact, WorkersOk, WorkerOk, JobsPlaced, ReleasedFirst, RegistryOk, TrackingOk, FreshOk;
    var t := s.threads[w];
    var j := t.phase.id;
    WorkersAfter(s.threads, s.live, s.jobs, w, t, s.live, s.jobs);
    LocalCommit(t, w, w in s.live, s.jobs);
    CountStart(s.jobs, s.pending, s.running, s.abandoned, j);
    StatusAfter(s.jobs, s.tracked, s.done, s.submitting, j, Committed);
    var jobs' := s.jobs[j := s.jobs[j].(status := Committed)];
    var t' := t.(phase := Running(j));
    RegistryAfter(s.workers, s.live, s.threads, w, t');
    WorkersAfter(s.threads, s.live, s.jobs, w, t', s.live, jobs');
    PlacedAfter(s.jobs, s.threads, jobs', w, t');
    ReleasedAfter(s.threads, s.jobs, jobs', w, t');
  }

  lemma FinishKeeps(s: Pool, w: WorkerId, now: int)
    requires Inv(s) && w in s.threads && (s.threads[w].phase.Running? || s.threads[w].phase.Skipping?)
    ensures s.threads[w].phase.id in s.jobs && Inv(Finish(s, w, now))
  {
    hide CountsExact, OwnerExact, WorkersOk, WorkerOk, JobsPlaced, ReleasedFirst, RegistryOk, TrackingOk, FreshOk;
    var t := s.threads[w];
    var j := t.phase.id;
    var status := if t.phase.Running? then Ran else Skipped;
    WorkersAfter(s.threads, s.live, s.jobs, w, t, s.live, s.jobs);
    LocalRelease(t, w, w in s.live, s.jobs, Released(t, now), status);
    CountFinish(s.jobs, s.pending, s.running, s.abandoned, j, status);
    StatusAfter(s.jobs, s.tracked, s.done, s.submitting, j, status);
    var s' := Finish(s, w, now);
    var t' := s'.threads[w];
    RegistryAfter(s.workers, s.live, s.threads, w, t');
    WorkersAfter(s.threads, s.live, s.jobs, w, t', s'.live, s'.jobs);
    PlacedAfter(s.jobs, s.threads, s'.jobs, w, t');
    ReleasedAfter(s.threads, s.jobs, s'.jobs, w, t');
  }

  lemma DropKeeps(s: Pool, w: WorkerId)
    requires Inv(s) && w in s.threads && s.threads[w].phase.Dropping?
    ensures s.threads[w].phase.id in s.jobs && Inv(Drop(s, w))
  {
    hide CountsExact, OwnerExact, WorkersOk, WorkerOk, JobsPlaced, ReleasedFirst, RegistryOk, TrackingOk, FreshOk;
    var t := s.threads[w];
    var j := t.phase.id;
    WorkersAfter(s.threads, s.live, s.jobs, w, t, s.live, s.jobs);
    LocalRelease(t, w, w in s.live, s.jobs, t.(phase := Dropped(j), handled := t.handled + [j]), Lost);
    CountFinish(s.jobs, s.pending, s.running, s.abandoned, j, Lost);
    StatusAfter(s.jobs, s.tracked, s.done, s.submitting, j, Lost);
    var s' := Drop(s, w);
    var t' := s'.threads[w];
    RegistryAfter(s.workers, s.live, s.threads, w, t');
    WorkersAfter(s.threads, s.live, s.jobs, w, t', s'.live, s'.jobs);
    PlacedAfter(s.jobs, s.threads, s'.jobs, w, t');
    ReleasedAfter(s.threads, s.jobs, s'.jobs, w, t');
  }

  lemma WakeKeeps(s: Pool, w: WorkerId)
    requires Inv(s) && w in s.threads && (s.threads[w].phase.Finished? || s.threads[w].phase.Dropped?)
    ensures Inv(Wake(s, w))
  {
    hide CountsExact, OwnerExact, WorkersOk, WorkerOk, JobsPlaced, ReleasedFirst, RegistryOk, TrackingOk, FreshOk;
    var t := s.threads[w];
    TrackingReleased(s, w, t.phase.id);
    var s' := Wake(s, w);
    var t' := s'.threads[w];
    LocalMove(t, w, w in s.live, s.jobs, t'.phase, t'.crashed, w in s'.live);
    RegistryAfter(s.workers, s.live, s.threads, w, t');
    WorkersAfter(s.threads, s.live, s.jobs, w, t', s'.live, s'.jobs);
    PlacedAfter(s.jobs, s.threads, s'.jobs, w, t');
    ReleasedAfter(s.threads, s.jobs, s'.jobs, w, t');
  }

  lemma UntrackKeeps(s: Pool, w: WorkerId, raised: bool)
    requires Inv(s) && w in s.threads && (s.threads[w].phase.Woken? || s.threads[w].phase.DropWoken?)
    ensures Inv(Untrack(s, w, raised))
  {
    hide CountsExact, OwnerExact, WorkersOk, WorkerOk, JobsPlaced, ReleasedFirst, RegistryOk, TrackingOk, FreshOk;
    var t := s.threads[w];
    TrackingReleased(s, w, t.phase.id);
    var s' := Untrack(s, w, raised);
    var t' := s'.threads[w];
    LocalMove(t, w, w in s.live, s.jobs, t'.phase, t'.crashed, w in s'.live);
    RegistryAfter(s.workers, s.live, s.threads, w, t');
    WorkersAfter(s.threads, s.live, s.jobs, w, t', s'.live, s'.jobs);
    PlacedAfter(s.jobs, s.threads, s'.jobs, w, t');
    ReleasedAfter(s.threads, s.jobs, s'.jobs, w, t');
  }

  lemma CrashKeeps(s: Pool, w: WorkerId)
    requires Inv(s) && w in s.threads && s.threads[w].phase.Polling?
    ensures Inv(Crash(s, w))
  {
    hide CountsExact, OwnerExact, WorkersOk, WorkerOk, JobsPlaced, TrackingOk, ReleasedFirst, RegistryOk;
    var t := s.threads[w];
    var s' := Crash(s, w);
    var t' := s'.threads[w];
    LocalMove(t, w, w in s.live, s.jobs, t'.phase, t'.crashed, w in s'.live);
    RegistryAfter(s.workers, s.live, s.threads, w, t');
    WorkersAfter(s.threads, s.live, s.jobs, w, t', s'.live, s'.jobs);
    PlacedAfter(s.jobs, s.threads, s'.jobs, w, t');
    ReleasedAfter(s.threads, s.jobs, s'.jobs, w, t');
  }

  lemma LeaveKeeps(s: Pool, w: WorkerId)
    requires Inv(s) && w in s.threads && s.threads[w].phase.Exiting?
    ensures Inv(Leave(s, w))
  {
    hide CountsExact, OwnerExact, WorkersOk, WorkerOk, JobsPlaced, TrackingOk, ReleasedFirst, RegistryOk;
    var t := s.threads[w];
    var s' := Leave(s, w);
    var t' := s'.threads[w];
    LocalMove(t, w, w in s.live, s.jobs, t'.phase, t'.crashed, w in s'.live);
    UnregisteredAfter(s.workers, s.live, s.threads, w, s'.live, t');
    WorkersAfter(s.threads, s.live, s.jobs, w, t', s'.live, s'.jobs);
    PlacedAfter(s.jobs, s.threads, s'.jobs, w, t');
    ReleasedAfter(s.threads, s.jobs, s'.jobs, w, t');
  }

  lemma DrainOneKeeps(s: Pool, w: WorkerId)
    requires Inv(s) && w in s.threads && s.threads[w].phase.Draining?
    ensures Inv(DrainOne(s, w))
  {
    hide CountsExact, OwnerExact, WorkersOk, WorkerOk, JobsPlaced, TrackingOk, ReleasedFirst, RegistryOk;
    var t := s.threads[w];
    var s' := DrainOne(s, w);
    var t' := s'.threads[w];
    if t.queue == [] {
      LocalMove(t, w, w in s.live, s.jobs, Dead, t.crashed, w in s.live);
    } else {
      LocalPop(t, w, w in s.live, s.jobs, t'.phase);
    }
    RegistryAfter(s.workers, s.live, s.threads, w, t');
    WorkersAfter(s.threads, s.live, s.jobs, w, t', s'.live, s'.jobs);
    PlacedAfter(s.jobs, s.threads, s'.jobs, w, t');
    ReleasedAfter(s.threads, s.jobs, s'.jobs, w, t');
  }

  /** Every step of every thread keeps the invariant. */
  lemma StepKeeps(s: Pool, step: Step)
    requires Inv(s) && Enabled(s, step)
    ensures Inv(Apply(s, step))
  {
    hide Inv, LruChoice, Submit, RetireAll;
    match step
    case DoTrack(j, o) => TrackKeeps(s, j, o);
    case DoSubmit(j, k, w, lru, start, now) => SubmitKeeps(s, j, k, w, lru, start, now);
    case DoForget(j) => ForgetKeeps(s, j);
    case DoDequeue(w) => DequeueKeeps(s, w);
    case DoIdlePoll(w, now) => RetireIfIdleKeeps(s, w, now);
    case DoStart(w) => StartKeeps(s, w);
    case DoFinish(w, now) => FinishKeeps(s, w, now);
    case DoWake(w) => WakeKeeps(s, w);
    case DoUntrack(w, raised) => UntrackKeeps(s, w, raised);
    case DoCrash(w) => CrashKeeps(s, w);
    case DoLeave(w) => LeaveKeeps(s, w);
    case DoDrainOne(w) => DrainOneKeeps(s, w);
    case DoDrop(w) => DropKeeps(s, w);
    case DoAbandon(o) => AbandonKeeps(s, o);
    case DoStopAll(ws) => RetireAllKeeps(s, ws);
  }

  /** Pool accounting holds in every state of every run. */
  lemma {:induction false} RunKeeps(states: seq<Pool>, steps: seq<Step>, i: nat)
    requires IsRun(states, steps) && Inv(states[0]) && i < |states|
    ensures Inv(states[i])
  {
    if i > 0 {
      RunKeeps(states, steps, i - 1);
      StepKeeps(states[i - 1], steps[i - 1]);
    }
  }

  // ------------------------------------------------------------------ what each step does to the jobs

  /** An accepted job keeps its owner and worker; a Waiting one is committed only while its owner is unmarked. */
  predicate Legal(before: JobRec, after: JobRec, abandoned: set<Owner>) {
    after.owner == before.owner && after.worker == before.worker
    && match before.status
       case Waiting => !after.status.Ran? && (after.status.Committed? ==> before.owner !in abandoned)
       case Committed => after.status.Committed? || after.status.Ran?
       case _ => after.status == before.status
  }

  lemma JobStepLegal(s: Pool, step: Step)
    requires Inv(s) && Enabled(s, step) && (step.DoStart? || step.DoFinish? || step.DoDrop?)
    ensures var jobs := Apply(s, step).jobs; forall j :: j in s.jobs ==> j in jobs && Legal(s.jobs[j], jobs[j], s.abandoned)
  {
    hide Inv;
    HolderStatus(s, step.w);
  }

  lemma QuietStepJobs(s: Pool, step: Step)
    requires Enabled(s, step) && !step.DoSubmit? && !step.DoStopAll? && !step.DoStart? && !step.DoFinish? && !step.DoDrop?
    ensures Apply(s, step).jobs == s.jobs
  {
    hide RegistryOk, LruChoice, Submit, RetireAll, Start, Finish, Drop;
  }

  lemma StepJobs(s: Pool, step: Step)
    requires Inv(s) && Enabled(s, step)
    ensures var jobs := Apply(s, step).jobs; forall j :: j in s.jobs ==> j in jobs && Legal(s.jobs[j], jobs[j], s.abandoned)
  {
    hide RegistryOk, LruChoice, Inv, Submit, RetireAll;
    match step
    case DoSubmit(j, k, w, lru, start, now) => SubmittingFresh(s, j); SubmitEffect(s, j, k, w, lru, start, now);
    case DoStopAll(ws) => RetireAllJobs(s, ws);
    case _ =>
      hide Apply, Enabled;
      if step.DoStart? || step.DoFinish? || step.DoDrop? { JobStepLegal(s, step); } else { QuietStepJobs(s, step); }
  }

  /** `s'` keeps every job but `j`, and every worker's history, of `s`. */
  ghost predicate Extends(s: Pool, s': Pool, j: JobId) {
    match s'
    case Pool(_, _, abandoned, _, _, threads, _, _, _, _, _, jobs) =>
      && abandoned == s.abandoned
      && (forall i :: i in s.jobs && i != j ==> i in jobs && jobs[i] == s.jobs[i])
      && (forall v :: v in s.threads ==> v in threads && s.threads[v].accepted <= threads[v].accepted
                                         && threads[v].handled == s.threads[v].handled)
  }

  lemma EnqueueEffect(s: Pool, j: JobId, k: Key, now: int)
    requires j in s.submitting && k in s.workers && s.workers[k] in s.threads
    ensures Extends(s, Enqueue(s, j, k, now), j)
  {
  }

  lemma MakeRoomEffect(s: Pool, j: JobId, k: Key, w: WorkerId, lru: Option<WorkerId>, now: int)
    requires w !in s.threads && (lru.Some? ==> lru.value in s.threads)
    ensures var r := if lru.Some? then Retire(s, lru.value) else s;
            var c := Create(r, k, w, now);
            && Extends(s, Refuse(r, j), j) && Extends(s, c, j)
            && c.submitting == s.submitting && k in c.workers && c.workers[k] == w && w in c.threads
  {
  }

  lemma ExtendsThrough(s: Pool, r: Pool, s': Pool, j: JobId)
    requires Extends(s, r, j) && Extends(r, s', j)
    ensures Extends(s, s', j)
  {
  }

  /** submit's lock region adds at most the one job, and no worker's history shrinks. */
  lemma SubmitEffect(s: Pool, j: JobId, k: Key, w: WorkerId, lru: Option<WorkerId>, start: bool, now: int)
    requires SubmitEnabled(s, j, k, w, lru) && RegistryOk(s.workers, s.live, s.threads)
    ensures Extends(s, Submit(s, j, k, w, lru, start, now), j)
  {
    hide Extends, Enqueue, Create, Retire, Refuse;
    if k in s.workers {
      EnqueueEffect(s, j, k, now);
    } else {
      MakeRoomEffect(s, j, k, w, lru, now);
      if start {
        var c := Create(if lru.Some? then Retire(s, lru.value) else s, k, w, now);
        EnqueueEffect(c, j, k, now);
        ExtendsThrough(s, c, Enqueue(c, j, k, now), j);
      }
    }
  }

  lemma HolderStatus(s: Pool, w: WorkerId)
    requires Inv(s) && w in s.threads && |Held(s.threads[w].phase)| == 1
    ensures var j := Held(s.threads[w].phase)[0];
            j in s.jobs && s.jobs[j].worker == w
            && s.jobs[j].status == if s.threads[w].phase.Running? then Committed else Waiting
    ensures CountsExact(s.jobs, s.pending, s.running, s.abandoned)
  {
    HeldAlone(s.threads[w], w, w in s.live, s.jobs);
    assert Held(s.threads[w].phase)[0] in Held(s.threads[w].phase);
  }

  lemma {:induction false} RetireAllJobs(s: Pool, ws: seq<WorkerId>)
    requires forall w :: w in ws ==> w in s.threads
    ensures RetireAll(s, ws).jobs == s.jobs && RetireAll(s, ws).abandoned == s.abandoned
    decreases |ws|
  {
    if ws != [] { RetireAllJobs(Retire(s, ws[0]), ws[1..]); }
  }

  /** The abandon mark survives until the owner's last unfinished job is finished. */
  lemma MarkSurvives(s: Pool, step: Step, o: Owner)
    requires Inv(s) && Enabled(s, step) && o in s.abandoned
    ensures o in Apply(s, step).abandoned || UnfinishedOf(Apply(s, step).jobs, o) == {}
  {
    hide CountsExact, OwnerExact, WorkersOk, WorkerOk, JobsPlaced, TrackingOk, ReleasedFirst, FreshOk, RegistryOk, LruChoice, Inv, RetireAll;
    match step
    case DoFinish(w, now) =>
      HolderStatus(s, w);
      CountFinish(s.jobs, s.pending, s.running, s.abandoned, s.threads[w].phase.id,
                  if s.threads[w].phase.Running? then Ran else Skipped);
    case DoDrop(w) =>
      HolderStatus(s, w);
      CountFinish(s.jobs, s.pending, s.running, s.abandoned, s.threads[w].phase.id, Lost);
    case DoStopAll(ws) => RetireAllJobs(s, ws);
    case _ =>
  }

  // ------------------------------------------------------------------ theorem: the exact abandon cut

  /** Jobs `cut` of owner `o` that an abandon stopped: each is waiting under the mark, skipped or dropped. */
  ghost predicate CutHolds(s: Pool, o: Owner, cut: set<JobId>) {
    forall j :: j in cut ==>
      j in s.jobs && s.jobs[j].owner == o
      && ((s.jobs[j].status.Waiting? && o in s.abandoned) || s.jobs[j].status.Skipped? || s.jobs[j].status.Lost?)
  }

  function WaitingOf(jobs: map<JobId, JobRec>, o: Owner): set<JobId> {
    set j | j in jobs && jobs[j].owner == o && jobs[j].status.Waiting?
  }

  /** abandon_owner's result counts exactly the owner's committed jobs, and cuts off its waiting ones. */
  lemma AbandonCuts(s: Pool, o: Owner)
    requires Inv(s)
    ensures Get(s.running, o) == |CommittedOf(s.jobs, o)|
    ensures UnfinishedOf(s.jobs, o) == CommittedOf(s.jobs, o) + WaitingOf(s.jobs, o)
    ensures CutHolds(Abandon(s, o), o, WaitingOf(s.jobs, o))
  {
    hide WorkersOk, WorkerOk, JobsPlaced, TrackingOk, ReleasedFirst, FreshOk, RegistryOk;
    assert OwnerExact(s.jobs, s.pending, s.running, o);
    CutTables(s.jobs, s.pending, s.running, o);
  }

  lemma CutTables(jobs: map<JobId, JobRec>, pending: map<Owner, int>, running: map<Owner, int>, o: Owner)
    requires OwnerExact(jobs, pending, running, o)
    ensures Get(running, o) == |CommittedOf(jobs, o)|
    ensures UnfinishedOf(jobs, o) == CommittedOf(jobs, o) + WaitingOf(jobs, o)
    ensures WaitingOf(jobs, o) != {} ==> Get(pending, o) != 0
  {
  }

  lemma CutStep(s: Pool, step: Step, o: Owner, cut: set<JobId>)
    requires Inv(s) && Enabled(s, step) && CutHolds(s, o, cut)
    ensures CutHolds(Apply(s, step), o, cut)
  {
    var s' := Apply(s, step);
    StepJobs(s, step);
    forall j | j in cut
      ensures j in s'.jobs && s'.jobs[j].owner == o
      ensures (s'.jobs[j].status.Waiting? && o in s'.abandoned) || s'.jobs[j].status.Skipped? || s'.jobs[j].status.Lost?
    {
      assert Legal(s.jobs[j], s'.jobs[j], s.abandoned);
      if s'.jobs[j].status.Waiting? {
        assert j in UnfinishedOf(s'.jobs, o);
        MarkSurvives(s, step, o);
      }
    }
  }

  /** In every continuation of a run, a job its owner's abandon found waiting never starts. */
  lemma {:induction false} CutForever(states: seq<Pool>, steps: seq<Step>, o: Owner, cut: set<JobId>, i: nat)
    requires IsRun(states, steps) && Inv(states[0]) && CutHolds(states[0], o, cut) && i < |states|
    ensures CutHolds(states[i], o, cut)
  {
    if i > 0 {
      CutForever(states, steps, o, cut, i - 1);
      RunKeeps(states, steps, i - 1);
      CutStep(states[i - 1], steps[i - 1], o, cut);
    }
  }

  lemma OnlyCommittedRun(states: seq<Pool>, steps: seq<Step>, o: Owner, j: JobId, i: nat)
    requires IsRun(states, steps) && Inv(states[0]) && |steps| > 0 && steps[0] == DoAbandon(o) && 1 <= i < |states|
    requires j in states[0].jobs && states[0].jobs[j].owner == o && !states[0].jobs[j].status.Committed?
    ensures j in states[i].jobs && !states[i].jobs[j].status.Committed?
            && (states[i].jobs[j].status.Ran? ==> states[0].jobs[j].status.Ran?)
  {
    hide Inv, Apply, Enabled, Abandon, WaitingOf;
    if states[0].jobs[j].status.Waiting? {
      AbandonCuts(states[0], o);
      AbandonFirst(states, steps, o);
      CutForever(states[1..], steps[1..], o, WaitingOf(states[0].jobs, o), i - 1);
      assert j in WaitingOf(states[0].jobs, o) by { MemberWaiting(states[0].jobs, o, j); }
    } else {
      TerminalForever(states, steps, j, i);
    }
  }

  lemma MemberWaiting(jobs: map<JobId, JobRec>, o: Owner, j: JobId)
    requires j in jobs && jobs[j].owner == o && jobs[j].status.Waiting?
    ensures j in WaitingOf(jobs, o)
  {
  }

  lemma AbandonFirst(states: seq<Pool>, steps: seq<Step>, o: Owner)
    requires IsRun(states, steps) && Inv(states[0]) && |steps| > 0 && steps[0] == DoAbandon(o)
    ensures states[1] == Abandon(states[0], o) && Inv(states[1]) && IsRun(states[1..], steps[1..])
  {
    AbandonKeeps(states[0], o);
  }

  /** A committed job stays committed until it has run. */
  lemma {:induction false} CommittedRuns(states: seq<Pool>, steps: seq<Step>, j: JobId, i: nat)
    requires IsRun(states, steps) && Inv(states[0]) && i < |states|
    requires j in states[0].jobs && states[0].jobs[j].status.Committed?
    ensures j in states[i].jobs && states[i].jobs[j].owner == states[0].jobs[j].owner
            && (states[i].jobs[j].status.Committed? || states[i].jobs[j].status.Ran?)
  {
    hide Inv, Apply, Enabled;
    if i > 0 {
      CommittedRuns(states, steps, j, i - 1);
      RunKeeps(states, steps, i - 1);
      StepJobs(states[i - 1], steps[i - 1]);
    }
  }

  /** The exact cut: after an abandon, the owner's already accepted jobs that have run since or may
      still write are the ones it counted, whatever the other threads do. */
  lemma ExactAbandonCut(states: seq<Pool>, steps: seq<Step>, o: Owner, i: nat)
    requires IsRun(states, steps) && Inv(states[0]) && |steps| > 0 && steps[0] == DoAbandon(o) && 1 <= i < |states|
    ensures RunningNow(states[0], states[i], o) == CommittedOf(states[0].jobs, o)
    ensures |CommittedOf(states[0].jobs, o)| == Get(states[0].running, o)
  {
    AbandonCuts(states[0], o);
    hide Inv, Apply, Enabled, IsRun;
    forall j | j in RunningNow(states[0], states[i], o) ensures j in CommittedOf(states[0].jobs, o) {
      if !states[0].jobs[j].status.Committed? { OnlyCommittedRun(states, steps, o, j, i); }
    }
    forall j | j in CommittedOf(states[0].jobs, o) ensures j in RunningNow(states[0], states[i], o) {
      CommittedRuns(states, steps, j, i);
    }
  }

  /** The jobs of `o` accepted in `before` that have run, or may still write, in `after` and not before. */
  function RunningNow(before: Pool, after: Pool, o: Owner): set<JobId> {
    set j | j in before.jobs && before.jobs[j].owner == o && !before.jobs[j].status.Ran?
            && j in after.jobs && (after.jobs[j].status.Ran? || after.jobs[j].status.Committed?)
  }

  /** A finished job keeps its outcome forever: no job is run, skipped or dropped twice. */
  lemma {:induction false} TerminalForever(states: seq<Pool>, steps: seq<Step>, j: JobId, i: nat)
    requires IsRun(states, steps) && Inv(states[0]) && i < |states|
    requires j in states[0].jobs && !Unfinished(states[0].jobs[j].status)
    ensures j in states[i].jobs && states[i].jobs[j] == states[0].jobs[j]
  {
    hide Inv, Apply, Enabled;
    if i > 0 {
      TerminalForever(states, steps, j, i - 1);
      RunKeeps(states, steps, i - 1);
      StepJobs(states[i - 1], steps[i - 1]);
      assert Legal(states[i - 1].jobs[j], states[i].jobs[j], states[i - 1].abandoned);
    }
  }

  // ------------------------------------------------------------------ theorem: FIFO, nothing stranded

  lemma {:induction false} RetireAllHistory(s: Pool, ws: seq<WorkerId>, w: WorkerId)
    requires (forall v :: v in ws ==> v in s.threads) && w in s.threads
    ensures w in RetireAll(s, ws).threads
            && RetireAll(s, ws).threads[w].accepted == s.threads[w].accepted
            && RetireAll(s, ws).threads[w].handled == s.threads[w].handled
    decreases |ws|
  {
    if ws != [] { RetireAllHistory(Retire(s, ws[0]), ws[1..], w); }
  }

  predicate Grows(t: Worker, t': Worker) {
    match t' case Worker(_, _, _, _, _, _, accepted, handled) => t.accepted <= accepted && t.handled <= handled
  }

  lemma DequeueGrows(s: Pool, v: WorkerId, w: WorkerId)
    requires v in s.threads && s.threads[v].queue != [] && w in s.threads
    ensures w in Dequeue(s, v).threads && Grows(s.threads[w], Dequeue(s, v).threads[w])
  {
  }

  lemma IdleGrows(s: Pool, v: WorkerId, now: int, w: WorkerId)
    requires v in s.threads && w in s.threads
    ensures w in RetireIfIdle(s, v, now).threads && Grows(s.threads[w], RetireIfIdle(s, v, now).threads[w])
  {
  }

  lemma StartGrows(s: Pool, v: WorkerId, w: WorkerId)
    requires v in s.threads && s.threads[v].phase.Holding? && s.threads[v].phase.id in s.jobs && w in s.threads
    ensures w in Start(s, v).threads && Grows(s.threads[w], Start(s, v).threads[w])
  {
  }

  lemma FinishGrows(s: Pool, v: WorkerId, now: int, w: WorkerId)
    requires v in s.threads && (s.threads[v].phase.Running? || s.threads[v].phase.Skipping?) && s.threads[v].phase.id in s.jobs
    requires w in s.threads
    ensures w in Finish(s, v, now).threads && Grows(s.threads[w], Finish(s, v, now).threads[w])
  {
    hide OwnerDone, RunningDown;
  }

  lemma DropGrows(s: Pool, v: WorkerId, w: WorkerId)
    requires v in s.threads && s.threads[v].phase.Dropping? && s.threads[v].phase.id in s.jobs && w in s.threads
    ensures w in Drop(s, v).threads && Grows(s.threads[w], Drop(s, v).threads[w])
  {
    hide OwnerDone;
  }

  /** A worker's history only grows. */
  lemma HistoryGrows(s: Pool, step: Step, w: WorkerId)
    requires Inv(s) && Enabled(s, step) && w in s.threads
    ensures var s' := Apply(s, step);
            w in s'.threads && Grows(s.threads[w], s'.threads[w])
  {
    hide RegistryOk, LruChoice, Inv, Submit, RetireAll, Dequeue, RetireIfIdle, Start, Finish, Drop;
    match step
    case DoSubmit(j, k, spare, lru, start, now) => SubmitEffect(s, j, k, spare, lru, start, now);
    case DoStopAll(ws) => RetireAllHistory(s, ws, w);
    case DoDequeue(v) => DequeueGrows(s, v, w);
    case DoIdlePoll(v, now) => IdleGrows(s, v, now, w);
    case DoStart(v) => StartGrows(s, v, w);
    case DoFinish(v, now) => FinishGrows(s, v, now, w);
    case DoDrop(v) => DropGrows(s, v, w);
    case _ =>
  }

  lemma LocalFifo(t: Worker, w: WorkerId, isLive: bool, jobs: map<JobId, JobRec>)
    requires WorkerOk(t, w, isLive, jobs)
    ensures t.handled <= t.accepted && t.accepted[|t.handled|..] == Held(t.phase) + JobsIn(t.queue)
    ensures forall j :: j in t.accepted ==> j in jobs && (jobs[j].status.Lost? ==> t.crashed)
    ensures t.phase.Dead? ==> t.handled == t.accepted
  {
    forall j | j in t.accepted ensures j in jobs && (jobs[j].status.Lost? ==> t.crashed) {
      assert j in t.handled || j in Held(t.phase) || j in JobsIn(t.queue);
    }
  }

  /** First in, first out: what a worker has finished is a prefix of what it accepted, without
      repeats, and the rest is what it holds followed by its queue. Nothing is lost by a worker
      that left its loop normally, and a dead worker strands nothing. */
  lemma FifoAndNothingStranded(s: Pool, w: WorkerId)
    requires Inv(s) && w in s.threads
    ensures var t := s.threads[w];
            && t.handled <= t.accepted && NoDup(t.accepted)
            && t.accepted[|t.handled|..] == Held(t.phase) + JobsIn(t.queue)
            && (forall j :: j in t.handled ==> j in s.jobs && !Unfinished(s.jobs[j].status))
            && (forall j :: j in t.accepted ==> j in s.jobs && (s.jobs[j].status.Lost? ==> t.crashed))
            && (t.phase.Dead? ==> t.handled == t.accepted)
  {
    LocalFifo(s.threads[w], w, w in s.live, s.jobs);
  }

  lemma EnqueuedLast(s: Pool, j: JobId, k: Key, now: int)
    requires j in s.submitting && k in s.workers && s.workers[k] in s.threads && Stop !in s.threads[s.workers[k]].queue
    ensures Enqueue(s, j, k, now).workers == s.workers && QueuedLast(Enqueue(s, j, k, now), j, k)
  {
  }

  /** `j` waits last in the queue of the worker registered for `k`, which has no STOP in it. */
  predicate QueuedLast(s: Pool, j: JobId, k: Key) {
    j in s.jobs && k in s.workers && s.jobs[j].worker == s.workers[k] && s.jobs[j].status.Waiting?
    && s.workers[k] in s.threads
    && var queue := s.threads[s.workers[k]].queue;
       Stop !in queue && queue != [] && queue[|queue| - 1] == Job(j)
  }

  /** A job never lands on a retired worker: an accepted job is queued last on the worker registered
      for its store; a refused one is queued nowhere. */
  lemma AcceptedOnRegisteredWorker(s: Pool, j: JobId, k: Key, w: WorkerId, lru: Option<WorkerId>, start: bool, now: int)
    requires Inv(s) && SubmitEnabled(s, j, k, w, lru)
    ensures var s' := Submit(s, j, k, w, lru, start, now);
            if start || k in s.workers then QueuedLast(s', j, k) else j in s'.refused && s'.jobs == s.jobs
  {
    hide CountsExact, OwnerExact, WorkersOk, WorkerOk, JobsPlaced, TrackingOk, ReleasedFirst, FreshOk, QueuedLast;
    if k in s.workers {
      EnqueuedLast(s, j, k, now);
    } else if start {
      var r := if lru.Some? then Retire(s, lru.value) else s;
      EnqueuedLast(Create(r, k, w, now), j, k, now);
    }
  }

  // ------------------------------------------------------------------ theorem: draining

  /** wait's snapshot: the tracked handles of `owner` (None: of everybody) that are still alive. */
  function Snapshot(tracked: map<JobId, Owner>, done: set<JobId>, owner: Option<Owner>): set<JobId> {
    set j | j in tracked && Matches(tracked[j], owner) && j !in done
  }

  predicate Matches(o: Owner, owner: Option<Owner>) { owner.None? || o == owner.value }

  lemma DrainJobs(jobs: map<JobId, JobRec>, tracked: map<JobId, Owner>, done: set<JobId>, submitting: map<JobId, Owner>,
                  owner: Option<Owner>)
    requires TrackingOk(jobs, tracked, done, submitting) && Snapshot(tracked, done, owner) == {}
    ensures forall j :: j in jobs && Matches(jobs[j].owner, owner) ==> !Unfinished(jobs[j].status)
    ensures forall j :: j in submitting ==> !Matches(submitting[j], owner)
  {
    forall j | j in tracked && Matches(tracked[j], owner) ensures j in done {
      assert j !in Snapshot(tracked, done, owner);
    }
  }

  lemma UnfinishedWhereHeld(s: Pool, w: WorkerId, j: JobId)
    requires Inv(s) && w in s.threads && j in Held(s.threads[w].phase) + JobsIn(s.threads[w].queue)
    ensures j in s.jobs && Unfinished(s.jobs[j].status)
  {
    assert WorkerOk(s.threads[w], w, w in s.live, s.jobs);
    assert j in s.threads[w].accepted;
  }

  lemma NoEntry(s: Pool, o: Owner)
    requires Inv(s) && UnfinishedOf(s.jobs, o) == {}
    ensures o !in s.pending && o !in s.running && o !in s.abandoned
  {
    assert OwnerExact(s.jobs, s.pending, s.running, o);
    assert CommittedOf(s.jobs, o) <= UnfinishedOf(s.jobs, o);
  }

  /** If wait returns on an empty snapshot, then at that snapshot no accepted job of the owner was
      queued, held or running, no submit of the owner had tracked a handle it could still queue, and
      the pool's tables had already forgotten the owner. */
  lemma DrainIsSound(s: Pool, owner: Option<Owner>)
    requires Inv(s) && Snapshot(s.tracked, s.done, owner) == {}
    ensures forall j :: j in s.jobs && Matches(s.jobs[j].owner, owner) ==> !Unfinished(s.jobs[j].status)
    ensures forall j :: j in s.submitting ==> !Matches(s.submitting[j], owner)
    ensures owner.Some? ==> owner.value !in s.pending && owner.value !in s.running && owner.value !in s.abandoned
    ensures forall w, j :: w in s.threads && j in Held(s.threads[w].phase) + JobsIn(s.threads[w].queue) ==>
              j in s.jobs && !Matches(s.jobs[j].owner, owner)
  {
    DrainJobs(s.jobs, s.tracked, s.done, s.submitting, owner);
    hide Inv, Snapshot, TrackingOk;
    if owner.Some? {
      assert UnfinishedOf(s.jobs, owner.value) == {};
      NoEntry(s, owner.value);
    }
    forall w, j | w in s.threads && j in Held(s.threads[w].phase) + JobsIn(s.threads[w].queue)
      ensures j in s.jobs && !Matches(s.jobs[j].owner, owner)
    {
      UnfinishedWhereHeld(s, w, j);
    }
  }
}

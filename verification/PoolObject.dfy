/**
 The pool and the handle registry as the source holds them: objects whose tables each lock region
 updates in place. Every method is one lock region (or one queue operation of a worker thread), and
 is proved to take exactly the step of `WorkerPool` it stands for, and so to keep its invariant.
 */
module PoolObject {
  import opened Prelude
  import opened PoolRuns
  import opened WorkerPool

  class GraphWorkerPool {
    var workers: map<Key, WorkerId>
    var live: set<WorkerId>
    var abandonedOwners: set<Owner>
    var ownerPending: map<Owner, int>
    var ownerRunning: map<Owner, int>
    var threads: map<WorkerId, Worker>          // the _GraphWorker objects: queue, pending, last_active, phase
    var tracked: map<JobId, Owner>              // GRAPH_THREADS
    var done: set<JobId>
    ghost var submitting: map<JobId, Owner>
    ghost var refused: set<JobId>
    ghost var seen: set<JobId>
    ghost var jobs: map<JobId, JobRec>

    ghost function State(): Pool
      reads this
    {
      Pool(workers, live, abandonedOwners, ownerPending, ownerRunning, threads, tracked, done, submitting, refused, seen, jobs)
    }

    constructor ()
      ensures State() == EMPTY && Inv(State())
    {
      workers, live, abandonedOwners := map[], {}, {};
      ownerPending, ownerRunning, threads, tracked, done := map[], map[], map[], map[], {};
      submitting, refused, seen, jobs := map[], {}, {}, map[];
      new;
      EmptyPool();
    }

    /** GRAPH_THREADS.track(handle, owner), submit's first step. */
    method Track(j: JobId, o: Owner)
      requires Inv(State()) && j !in seen
      modifies this
      ensures State() == WorkerPool.Track(old(State()), j, o) && Inv(State())
    {
      hide Inv, CountsExact, OwnerExact, WorkersOk, WorkerOk, JobsPlaced, TrackingOk, ReleasedFirst, FreshOk, RegistryOk;
      ghost var was := State();
      tracked := tracked[j := o];
      submitting, seen := submitting[j := o], seen + {j};
      TrackKeeps(was, j, o);
    }

    /** The least recently active idle worker, when the registry is at its cap and one is idle. */
    method PickIdle() returns (lru: Option<WorkerId>)
      requires Inv(State())
      ensures LruChoice(State(), lru)
    {
      hide Inv;
      lru := None;
      if |workers| >= MAX_WORKERS {
        var rest := workers.Values;
        while rest != {}
          invariant rest <= workers.Values
          invariant lru.Some? ==> Idle(State(), lru.value) && lru.value !in rest
          invariant forall w :: w in workers.Values - rest && Idle(State(), w) ==>
                      lru.Some? && threads[lru.value].lastActive <= threads[w].lastActive
          decreases rest
        {
          var w :| w in rest;
          rest := rest - {w};
          assert w in threads by { RegistryHasThread(State(), w); }
          if threads[w].pending == 0 && (lru.None? || threads[w].lastActive < threads[lru.value].lastActive) {
            lru := Some(w);
          }
        }
      }
    }

    /** _create: make room by retiring an idle worker, then start and register `spare`. */
    method Create(key: Key, spare: WorkerId, start: bool, now: int) returns (ghost lru: Option<WorkerId>)
      requires Inv(State()) && spare !in threads
      modifies this
      ensures LruChoice(old(State()), lru) && (lru.Some? ==> lru.value in old(threads))
      ensures State() == var r := if lru.Some? then WorkerPool.Retire(old(State()), lru.value) else old(State());
                         if start then WorkerPool.Create(r, key, spare, now) else r
    {
      hide Inv, LruChoice;
      var idle := PickIdle();
      lru := idle;
      if idle.Some? {
        LruIsIdle(State(), idle);
        Retire(idle.value);
      }
      if start {
        workers := workers[key := spare];
        threads := threads[spare := Worker(key, [], 0, now, Polling, false, [], [])];
        live := live + {spare};
      }
    }

    /** The rest of submit's lock region, on the registered worker. */
    method Enqueue(j: JobId, owner: Owner, key: Key, now: int)
      requires j in submitting && submitting[j] == owner && key in workers && workers[key] in threads
      modifies this
      ensures State() == WorkerPool.Enqueue(old(State()), j, key, now)
    {
      var w := workers[key];
      var t := threads[w];
      ownerPending := ownerPending[owner := Get(ownerPending, owner) + 1];
      threads := threads[w := t.(pending := t.pending + 1, lastActive := now, queue := t.queue + [Job(j)],
                                 accepted := t.accepted + [j])];
      jobs, submitting := jobs[j := JobRec(owner, w, Waiting)], submitting - {j};
    }

    /** submit's lock region; `spare` names the new worker object, `start` says whether its thread started. */
    method Submit(j: JobId, owner: Owner, key: Key, spare: WorkerId, start: bool, now: int)
      returns (accepted: bool, ghost lru: Option<WorkerId>)
      requires Inv(State()) && j in submitting && submitting[j] == owner && spare !in threads
      modifies this
      ensures SubmitEnabled(old(State()), j, key, spare, lru) && RegistryOk(old(workers), old(live), old(threads))
      ensures State() == WorkerPool.Submit(old(State()), j, key, spare, lru, start, now)
      ensures accepted == (start || key in old(workers))
      ensures Inv(State())
    {
      hide Inv, CountsExact, OwnerExact, WorkersOk, WorkerOk, JobsPlaced, TrackingOk, ReleasedFirst, FreshOk, RegistryOk, LruChoice;
      hide WorkerPool.Enqueue, WorkerPool.Create, WorkerPool.Retire;
      ghost var was := State();
      InvRegistry(was);
      if key in workers {
        lru := None;
        SubmitKeeps(was, j, key, spare, lru, start, now);
        RegistryHasThread(was, workers[key]);
        Enqueue(j, owner, key, now);
        accepted := true;
      } else {
        lru := Create(key, spare, start, now);
        SubmitKeeps(was, j, key, spare, lru, start, now);
        if start {
          CreatedFields(was, lru, key, spare, now);
          Enqueue(j, owner, key, now);
          accepted := true;
        } else {
          submitting, refused := submitting - {j}, refused + {j};
          CreatedFields(was, lru, key, spare, now);
          accepted := false;
        }
      }
    }

    /** _retire (lock held). */
    method Retire(w: WorkerId)
      requires w in threads
      modifies this
      ensures State() == WorkerPool.Retire(old(State()), w)
    {
      var t := threads[w];
      if t.key in workers && workers[t.key] == w {
        workers := workers - {t.key};
      }
      threads := threads[w := t.(queue := t.queue + [Stop])];
    }

    /** retire_if_idle, called after an empty poll. */
    method RetireIfIdle(w: WorkerId, now: int) returns (retired: bool)
      requires Inv(State()) && w in threads && threads[w].phase.Polling?
      modifies this
      ensures State() == WorkerPool.RetireIfIdle(old(State()), w, now) && Inv(State())
      ensures retired <==> threads[w].phase.Exiting?
      ensures retired <==> var t := old(threads)[w];
                           t.key in old(workers) && old(workers)[t.key] == w && t.pending == 0 && now - t.lastActive >= 300
    {
      hide Inv, CountsExact, OwnerExact, WorkersOk, WorkerOk, JobsPlaced, TrackingOk, ReleasedFirst, FreshOk, RegistryOk;
      ghost var was := State();
      RetireIfIdleKeeps(was, w, now);
      var t := threads[w];
      if !(t.key in workers && workers[t.key] == w) {
        return false;
      }
      if t.pending != 0 || now - t.lastActive < IDLE_EVICT {
        return false;
      }
      workers := workers - {t.key};
      threads := threads[w := t.(phase := Exiting)];
      retired := true;
    }

    /** start_unless_abandoned(owner), for the job `w` holds. */
    method StartUnlessAbandoned(w: WorkerId, owner: Owner) returns (started: bool)
      requires Inv(State()) && w in threads && threads[w].phase.Holding?
      requires threads[w].phase.id in jobs && jobs[threads[w].phase.id].owner == owner
      modifies this
      ensures State() == WorkerPool.Start(old(State()), w) && Inv(State())
      ensures started <==> owner !in old(abandonedOwners)
    {
      hide Inv, CountsExact, OwnerExact, WorkersOk, WorkerOk, JobsPlaced, TrackingOk, ReleasedFirst, FreshOk, RegistryOk;
      ghost var was := State();
      StartKeeps(was, w);
      var t := threads[w];
      if owner in abandonedOwners {
        threads := threads[w := t.(phase := Skipping(t.phase.id))];
        return false;
      }
      ownerRunning := ownerRunning[owner := Get(ownerRunning, owner) + 1];
      threads := threads[w := t.(phase := Running(t.phase.id))];
      jobs := jobs[t.phase.id := jobs[t.phase.id].(status := Committed)];
      started := true;
    }

    /** _owner_done_locked. */
    method OwnerDoneLocked(owner: Owner)
      modifies this`ownerPending, this`abandonedOwners
      ensures (ownerPending, abandonedOwners)
           == OwnerDone(old(ownerPending), ownerRunning, old(abandonedOwners), owner)
    {
      var remaining := Get(ownerPending, owner) - 1;
      if remaining <= 0 && owner !in ownerRunning {
        ownerPending := ownerPending - {owner};
        abandonedOwners := abandonedOwners - {owner};
      } else {
        ownerPending := ownerPending[owner := remaining];
      }
    }

    /** job_finished(worker, owner, started). */
    method JobFinished(w: WorkerId, owner: Owner, started: bool, now: int)
      requires Inv(State()) && w in threads && (threads[w].phase.Running? || threads[w].phase.Skipping?)
      requires started == threads[w].phase.Running?
      requires threads[w].phase.id in jobs && jobs[threads[w].phase.id].owner == owner
      modifies this
      ensures State() == WorkerPool.Finish(old(State()), w, now) && Inv(State())
    {
      hide Inv, CountsExact, OwnerExact, WorkersOk, WorkerOk, JobsPlaced, TrackingOk, ReleasedFirst, FreshOk, RegistryOk;
      ghost var was := State();
      FinishKeeps(was, w, now);
      var t := threads[w];
      threads := threads[w := t.(pending := t.pending - 1, lastActive := now, phase := Finished(t.phase.id),
                                 handled := t.handled + [t.phase.id])];
      if started { RunningDone(owner); }
      OwnerDoneLocked(owner);
      jobs := jobs[t.phase.id := jobs[t.phase.id].(status := if started then Ran else Skipped)];
    }

    /** One running job less; an owner with none left leaves the table. */
    method RunningDone(owner: Owner)
      modifies this`ownerRunning
      ensures ownerRunning == RunningDown(old(ownerRunning), owner)
    {
      var running := Get(ownerRunning, owner) - 1;
      ownerRunning := ownerRunning - {owner};
      if running > 0 {
        ownerRunning := ownerRunning[owner := running];
      }
    }

    /** worker_exited's first lock region. */
    method WorkerExited(w: WorkerId)
      requires Inv(State()) && w in threads && threads[w].phase.Exiting?
      modifies this
      ensures State() == WorkerPool.Leave(old(State()), w) && Inv(State())
    {
      hide Inv, CountsExact, OwnerExact, WorkersOk, WorkerOk, JobsPlaced, TrackingOk, ReleasedFirst, FreshOk, RegistryOk;
      ghost var was := State();
      LeaveKeeps(was, w);
      var t := threads[w];
      if t.key in workers && workers[t.key] == w {
        workers := workers - {t.key};
      }
      live := live - {w};
      threads := threads[w := t.(phase := Draining)];
    }

    /** worker_exited's lock region for one job it drained. */
    method DropDrained(w: WorkerId, owner: Owner)
      requires Inv(State()) && w in threads && threads[w].phase.Dropping?
      requires threads[w].phase.id in jobs && jobs[threads[w].phase.id].owner == owner
      modifies this
      ensures State() == WorkerPool.Drop(old(State()), w) && Inv(State())
    {
      hide Inv, CountsExact, OwnerExact, WorkersOk, WorkerOk, JobsPlaced, TrackingOk, ReleasedFirst, FreshOk, RegistryOk;
      ghost var was := State();
      DropKeeps(was, w);
      var t := threads[w];
      OwnerDoneLocked(owner);
      threads := threads[w := t.(phase := Dropped(t.phase.id), handled := t.handled + [t.phase.id])];
      jobs := jobs[t.phase.id := jobs[t.phase.id].(status := Lost)];
    }

    /** abandon_owner: the result counts exactly the jobs of `owner` that may still write. */
    method AbandonOwner(owner: Owner) returns (stillRunning: int)
      requires Inv(State())
      modifies this`abandonedOwners
      ensures State() == WorkerPool.Abandon(old(State()), owner) && Inv(State())
      ensures stillRunning == |CommittedOf(jobs, owner)|
      ensures CutHolds(State(), owner, WaitingOf(jobs, owner))
    {
      hide Inv, CountsExact, OwnerExact, WorkersOk, WorkerOk, JobsPlaced, TrackingOk, ReleasedFirst, FreshOk, RegistryOk;
      ghost var was := State();
      AbandonKeeps(was, owner);
      AbandonCuts(was, owner);
      if Get(ownerPending, owner) != 0 {
        abandonedOwners := abandonedOwners + {owner};
      }
      stillRunning := Get(ownerRunning, owner);
    }

    /** stop_all's lock region: every live worker is retired. */
    method StopAll() returns (stopped: seq<WorkerId>)
      requires Inv(State())
      modifies this
      ensures NoDup(stopped) && (forall w :: w in stopped <==> w in old(live))
      ensures (forall w :: w in stopped ==> w in old(threads)) && State() == RetireAll(old(State()), stopped)
      ensures workers.Values * old(live) == {} && Inv(State())
    {
      hide Inv, CountsExact, OwnerExact, WorkersOk, WorkerOk, JobsPlaced, TrackingOk, ReleasedFirst, FreshOk, RegistryOk;
      ghost var was := State();
      LiveHaveThreads(was);
      stopped := [];
      var rest := live;
      while rest != {}
        invariant rest <= was.live && NoDup(stopped) && (forall w :: w in stopped <==> w in was.live - rest)
        invariant live == was.live && threads.Keys == was.threads.Keys
        invariant (forall w :: w in stopped ==> w in was.threads) && State() == RetireAll(was, stopped)
        decreases rest
      {
        var w :| w in rest;
        rest := rest - {w};
        RetireAllAppend(was, stopped, w);
        Retire(w);
        stopped := stopped + [w];
      }
      RetireAllKeeps(was, stopped);
      RetireAllUnregisters(was, stopped);
    }
  }

  lemma LruIsIdle(s: Pool, lru: Option<WorkerId>)
    requires LruChoice(s, lru) && lru.Some?
    ensures Idle(s, lru.value)
  {
  }

  lemma InvRegistry(s: Pool)
    requires Inv(s)
    ensures RegistryOk(s.workers, s.live, s.threads)
  {
  }

  lemma CreatedFields(s: Pool, lru: Option<WorkerId>, k: Key, w: WorkerId, now: int)
    requires lru.Some? ==> lru.value in s.threads
    ensures var r := if lru.Some? then WorkerPool.Retire(s, lru.value) else s;
            && r.submitting == s.submitting && r.refused == s.refused
            && WorkerPool.Create(r, k, w, now).submitting == s.submitting
            && k in WorkerPool.Create(r, k, w, now).workers && WorkerPool.Create(r, k, w, now).workers[k] == w
            && w in WorkerPool.Create(r, k, w, now).threads
  {
  }

  lemma RegistryHasThread(s: Pool, w: WorkerId)
    requires Inv(s) && w in s.workers.Values
    ensures w in s.threads
  {
  }

  lemma LiveHaveThreads(s: Pool)
    requires Inv(s)
    ensures s.live <= s.threads.Keys
  {
  }

  lemma {:induction false} RetireAllAppend(s: Pool, ws: seq<WorkerId>, w: WorkerId)
    requires (forall v :: v in ws ==> v in s.threads) && w in s.threads
    ensures RetireAll(s, ws).threads.Keys == s.threads.Keys
    ensures RetireAll(s, ws + [w]) == Retire(RetireAll(s, ws), w) && RetireAll(s, ws).live == s.live
    decreases |ws|
  {
    if ws != [] {
      RetireAllAppend(Retire(s, ws[0]), ws[1..], w);
      assert (ws + [w])[1..] == ws[1..] + [w];
    }
  }

  /** No retired worker stays registered. */
  lemma {:induction false} RetireAllUnregisters(s: Pool, ws: seq<WorkerId>)
    requires Inv(s) && forall w :: w in ws ==> w in s.live && w in s.threads
    ensures RetireAll(s, ws).workers.Values <= s.workers.Values && forall w :: w in ws ==> w !in RetireAll(s, ws).workers.Values
    decreases |ws|
  {
    if ws != [] {
      RetireKeeps(s, ws[0]);
      RetireUnregisters(s, ws[0]);
      RetireAllUnregisters(Retire(s, ws[0]), ws[1..]);
    }
  }

  lemma RetireUnregisters(s: Pool, w: WorkerId)
    requires RegistryOk(s.workers, s.live, s.threads) && w in s.threads
    ensures Retire(s, w).workers.Values <= s.workers.Values - {w}
  {
    forall k | k in Retire(s, w).workers ensures Retire(s, w).workers[k] != w && Retire(s, w).workers[k] in s.workers.Values {
      assert k in s.workers && Registrable(s.threads[s.workers[k]], k);
    }
  }

  /** What one pass of wait's loop sees under the registry guard, and the clock right after. */
  datatype View = View(tracked: map<JobId, Owner>, done: set<JobId>, now: int)

  datatype WaitResult = Drained(at: nat) | TimedOut(at: nat) | StillWaiting

  /** Each view is the registry of handles at some state of a run of the pool, no earlier than the one before. */
  ghost predicate ViewsOf(views: seq<View>, states: seq<Pool>, when: seq<nat>) {
    |when| == |views|
    && (forall i :: 0 <= i < |views| ==> when[i] < |states| && SeenAt(views[i], states[when[i]]))
    && forall i, j :: 0 <= i < j < |when| ==> when[i] <= when[j]
  }

  ghost predicate SeenAt(view: View, s: Pool) {
    view.tracked == s.tracked && view.done == s.done
  }

  /** No accepted job of the owner is unfinished, a worker holds or has queued none of its jobs, and no
      submit that has tracked one of its handles can still queue it. */
  ghost predicate NothingLeft(s: Pool, owner: Option<Owner>) {
    && (forall j :: j in s.jobs && Matches(s.jobs[j].owner, owner) ==> !Unfinished(s.jobs[j].status))
    && (forall w, j :: w in s.threads && j in Held(s.threads[w].phase) + JobsIn(s.threads[w].queue) ==>
          j in s.jobs && !Matches(s.jobs[j].owner, owner))
    && (forall j :: j in s.submitting ==> !Matches(s.submitting[j], owner))
  }

  lemma EmptyViewIsDrained(view: View, states: seq<Pool>, steps: seq<Step>, i: nat, owner: Option<Owner>)
    requires IsRun(states, steps) && states[0] == EMPTY && i < |states| && SeenAt(view, states[i])
    requires Snapshot(view.tracked, view.done, owner) == {}
    ensures NothingLeft(states[i], owner)
  {
    hide Inv, IsRun, Snapshot;
    EmptyPool();
    WorkerPool.RunKeeps(states, steps, i);
    DrainIsSound(states[i], owner);
  }

  /** _GraphThreadRegistry.wait over the successive views of a registry other threads keep changing. If
      it returns before the deadline, nothing of the owner was left in the pool at its last view. */
  method Wait(views: seq<View>, deadline: int, owner: Option<Owner>,
              ghost states: seq<Pool>, ghost steps: seq<Step>, ghost when: seq<nat>) returns (r: WaitResult)
    requires IsRun(states, steps) && states[0] == EMPTY && ViewsOf(views, states, when)
    ensures r.Drained? ==> r.at < |views| && Snapshot(views[r.at].tracked, views[r.at].done, owner) == {}
                           && forall i :: 0 <= i < r.at ==>
                                (Snapshot(views[i].tracked, views[i].done, owner) != {} && views[i].now < deadline)
    ensures r.Drained? ==> NothingLeft(states[when[r.at]], owner)
    ensures r.TimedOut? ==> r.at < |views| && Snapshot(views[r.at].tracked, views[r.at].done, owner) != {}
                            && views[r.at].now >= deadline
    ensures r.StillWaiting? ==> forall i :: 0 <= i < |views| ==> Snapshot(views[i].tracked, views[i].done, owner) != {}
  {
    hide IsRun, NothingLeft;
    var i := 0;
    while i < |views|
      invariant 0 <= i <= |views|
      invariant forall k :: 0 <= k < i ==>
                  (Snapshot(views[k].tracked, views[k].done, owner) != {} && views[k].now < deadline)
    {
      var alive := Snapshot(views[i].tracked, views[i].done, owner);
      if alive == {} {
        EmptyViewIsDrained(views[i], states, steps, when[i], owner);
        return Drained(i);
      }
      if deadline - views[i].now <= 0 {
        return TimedOut(i);
      }
      i := i + 1;
    }
    return StillWaiting;
  }
}

/**
 What retirement and skipping mean over whole runs of the pool: which worker an empty poll or a full
 registry retires, told by when it was last given or finished a job, and whose jobs are skipped.
 */
module PoolClock {
  import opened Prelude
  import opened WorkerPool
  import opened PoolRuns

  // ------------------------------------------------------------------ when a worker was last touched

  /** The time at which a step gives worker `w` a job, or releases one that it held. */
  ghost function Touched(s: Pool, step: Step, s': Pool, w: WorkerId): Option<int> {
    match step
    case DoSubmit(j, _, _, _, _, now) => if j !in s.jobs && j in s'.jobs && s'.jobs[j].worker == w then Some(now) else None
    case DoFinish(v, now) => if v == w then Some(now) else None
    case _ => None
  }

  /** Step `e` is the last of the first `i` that touched `w`, and was taken at time `at`. */
  ghost predicate LastTouch(states: seq<Pool>, steps: seq<Step>, i: nat, w: WorkerId, e: nat, at: int)
    requires IsRun(states, steps) && i < |states|
  {
    e < i && Touched(states[e], steps[e], states[e + 1], w) == Some(at)
    && forall f :: e < f < i ==> Touched(states[f], steps[f], states[f + 1], w).None?
  }

  /** What a submit does to workers and jobs: an accepted job goes to one worker, registered or new. */
  ghost predicate Shaped(s: Pool, s': Pool, j: JobId, to: WorkerId, accepted: bool, now: int) {
    && (forall w :: w in s.threads ==>
          w in s'.threads && s'.threads[w].phase == s.threads[w].phase
          && s'.threads[w].lastActive == if accepted && w == to then now else s.threads[w].lastActive)
    && (forall w :: w in s'.threads && w !in s.threads ==>
          accepted && w == to && s'.threads[w].lastActive == now && s'.threads[w].phase == Polling)
    && (if accepted then j in s.submitting && s'.jobs == s.jobs[j := JobRec(s.submitting[j], to, Waiting)] else s'.jobs == s.jobs)
  }

  lemma EnqueueShape(s: Pool, j: JobId, k: Key, now: int)
    requires j in s.submitting && k in s.workers && s.workers[k] in s.threads
    ensures Shaped(s, Enqueue(s, j, k, now), j, s.workers[k], true, now)
  {
  }

  lemma CreateShape(s: Pool, r: Pool, j: JobId, k: Key, spare: WorkerId, now: int)
    requires Quieted(s, r) && spare !in s.threads && j in s.submitting
    ensures k in Create(r, k, spare, now).workers && Create(r, k, spare, now).workers[k] == spare && spare in Create(r, k, spare, now).threads
    ensures j in Create(r, k, spare, now).submitting
    ensures Shaped(s, Enqueue(Create(r, k, spare, now), j, k, now), j, spare, true, now)
  {
  }

  /** `r` differs from `s` in the registry and in queues only. */
  ghost predicate Quieted(s: Pool, r: Pool) {
    && r.threads.Keys == s.threads.Keys && r.jobs == s.jobs && r.submitting == s.submitting && r.abandoned == s.abandoned
    && forall w :: w in s.threads ==> r.threads[w].phase == s.threads[w].phase && r.threads[w].lastActive == s.threads[w].lastActive
  }

  lemma RetireQuiets(s: Pool, w: WorkerId)
    requires w in s.threads
    ensures Quieted(s, Retire(s, w))
  {
  }

  lemma SubmitShape(s: Pool, j: JobId, k: Key, spare: WorkerId, lru: Option<WorkerId>, start: bool, now: int)
    requires SubmitEnabled(s, j, k, spare, lru) && RegistryOk(s.workers, s.live, s.threads)
    ensures Shaped(s, Submit(s, j, k, spare, lru, start, now), j, if k in s.workers then s.workers[k] else spare, start || k in s.workers, now)
    ensures Submit(s, j, k, spare, lru, start, now).abandoned == s.abandoned
  {
    RegisteredHasThread(s, k);
    if lru.Some? { IdleHasThread(s, k, lru); }
    hide RegistryOk, LruChoice, Retire, Shaped;
    if k in s.workers {
      EnqueueShape(s, j, k, now);
    } else {
      if lru.Some? { RetireQuiets(s, lru.value); }
      var r := if lru.Some? then Retire(s, lru.value) else s;
      if start { CreateShape(s, r, j, k, spare, now); } else { RefuseShape(s, r, j, spare, now); }
    }
  }

  lemma RefuseShape(s: Pool, r: Pool, j: JobId, to: WorkerId, now: int)
    requires Quieted(s, r)
    ensures Shaped(s, Refuse(r, j), j, to, false, now)
  {
  }

  lemma SubmitTouches(s: Pool, j: JobId, k: Key, spare: WorkerId, lru: Option<WorkerId>, start: bool, now: int, w: WorkerId)
    requires SubmitEnabled(s, j, k, spare, lru) && RegistryOk(s.workers, s.live, s.threads) && j !in s.jobs
    ensures var s' := Submit(s, j, k, spare, lru, start, now);
            && (w in s.threads ==> w in s'.threads)
            && (w in s'.threads ==>
                  var touched := Touched(s, DoSubmit(j, k, spare, lru, start, now), s', w);
                  if touched.Some? then s'.threads[w].lastActive == touched.value
                  else w in s.threads && s'.threads[w].lastActive == s.threads[w].lastActive)
  {
    hide RegistryOk, LruChoice, Submit;
    SubmitShape(s, j, k, spare, lru, start, now);
  }

  lemma RegisteredHasThread(s: Pool, k: Key)
    requires RegistryOk(s.workers, s.live, s.threads)
    ensures k in s.workers ==> s.workers[k] in s.threads
  {
  }

  lemma IdleHasThread(s: Pool, k: Key, lru: Option<WorkerId>)
    requires lru.Some? && (k !in s.workers ==> LruChoice(s, lru))
    ensures k !in s.workers ==> lru.value in s.threads
  {
  }

  lemma {:induction false} RetireAllTouches(s: Pool, ws: seq<WorkerId>, w: WorkerId)
    requires forall v :: v in ws ==> v in s.threads
    ensures RetireAll(s, ws).threads.Keys == s.threads.Keys
    ensures w in s.threads ==> RetireAll(s, ws).threads[w].lastActive == s.threads[w].lastActive
    decreases |ws|
  {
    if ws != [] { RetireAllTouches(Retire(s, ws[0]), ws[1..], w); }
  }

  /** A step sets the clock of a worker exactly if it touches it. */
  lemma StepTouches(s: Pool, step: Step, w: WorkerId)
    requires Inv(s) && Enabled(s, step)
    ensures var s' := Apply(s, step);
            && (w in s.threads ==> w in s'.threads)
            && (w in s'.threads ==>
                  var touched := Touched(s, step, s', w);
                  if touched.Some? then s'.threads[w].lastActive == touched.value
                  else w in s.threads && s'.threads[w].lastActive == s.threads[w].lastActive)
  {
    hide RegistryOk, LruChoice, Inv, Submit, RetireAll;
    match step
    case DoSubmit(j, k, spare, lru, start, now) =>
      SubmittingFresh(s, j);
      SubmitTouches(s, j, k, spare, lru, start, now, w);
    case DoStopAll(ws) => RetireAllTouches(s, ws, w);
    case _ => OtherTouches(s, step, w);
  }

  lemma OtherTouches(s: Pool, step: Step, w: WorkerId)
    requires Enabled(s, step) && !step.DoSubmit? && !step.DoStopAll?
    ensures w in s.threads <==> w in Apply(s, step).threads
    ensures w in s.threads ==> Apply(s, step).threads[w].lastActive == if step.DoFinish? && step.w == w then step.now else s.threads[w].lastActive
  {
    hide RegistryOk, LruChoice, Submit, RetireAll, OwnerDone, RunningDown;
  }

  /** A worker's clock is the time it was last touched. */
  lemma {:induction false} LastActiveIs(states: seq<Pool>, steps: seq<Step>, i: nat, w: WorkerId) returns (e: nat)
    requires IsRun(states, steps) && states[0] == EMPTY && i < |states| && w in states[i].threads
    ensures LastTouch(states, steps, i, w, e, states[i].threads[w].lastActive)
  {
    hide Inv, Apply, Enabled, Touched;
    EmptyPool();
    assert i > 0;
    WorkerPool.RunKeeps(states, steps, i - 1);
    StepTouches(states[i - 1], steps[i - 1], w);
    if Touched(states[i - 1], steps[i - 1], states[i], w).Some? {
      e := i - 1;
    } else {
      e := LastActiveIs(states, steps, i - 1, w);
    }
  }

  /** In every run, an empty poll retires a worker exactly if it is the one registered for its store, has
      finished every job it was given, and was last given or finished one at least 300 seconds before. */
  lemma IdleRetires(states: seq<Pool>, steps: seq<Step>, i: nat, w: WorkerId, now: int)
    requires IsRun(states, steps) && states[0] == EMPTY && i < |steps| && steps[i] == DoIdlePoll(w, now)
    ensures w in states[i].threads && w in states[i + 1].threads
    ensures var t := states[i].threads[w];
            states[i + 1].threads[w].phase == Exiting
            <==> t.key in states[i].workers && states[i].workers[t.key] == w && t.handled == t.accepted
                 && exists e: nat, at: int :: LastTouch(states, steps, i, w, e, at) && now - at >= 300
  {
    EmptyPool();
    WorkerPool.RunKeeps(states, steps, i);
    assert Enabled(states[i], steps[i]) && states[i + 1] == Apply(states[i], steps[i]);
    PendingIsLeft(states[i], w);
    var e := LastActiveIs(states, steps, i, w);
    hide Inv, Touched;
    forall f: nat, at: int | LastTouch(states, steps, i, w, f, at) ensures at == states[i].threads[w].lastActive {
      OneLastTouch(states, steps, i, w, e, states[i].threads[w].lastActive, f, at);
    }
  }

  lemma OneLastTouch(states: seq<Pool>, steps: seq<Step>, i: nat, w: WorkerId, e: nat, at: int, f: nat, at': int)
    requires IsRun(states, steps) && i < |states| && LastTouch(states, steps, i, w, e, at) && LastTouch(states, steps, i, w, f, at')
    ensures at == at'
  {
    hide Touched, IsRun;
  }

  lemma PendingIsLeft(s: Pool, w: WorkerId)
    requires Inv(s) && w in s.threads && s.threads[w].phase.Polling?
    ensures var t := s.threads[w];
            t.key in s.workers && s.workers[t.key] == w ==> (t.pending == 0 <==> t.handled == t.accepted)
  {
    var t := s.threads[w];
    FifoAndNothingStranded(s, w);
    if t.key in s.workers && s.workers[t.key] == w {
      WorkerBooks(s);
      assert BookOf(t);
    }
  }

  // ------------------------------------------------------------------ making room

  /** A submit for a store without a worker makes room exactly if 16 are registered and one of them has
      nothing to do: it unregisters one of those, none of which was touched earlier; every other worker
      stays registered. A submit for a store with a worker unregisters none. */
  lemma SubmitMakesRoom(s: Pool, j: JobId, k: Key, spare: WorkerId, lru: Option<WorkerId>, start: bool, now: int)
    requires Inv(s) && SubmitEnabled(s, j, k, spare, lru)
    ensures RegistryOk(s.workers, s.live, s.threads)
    ensures var s' := Submit(s, j, k, spare, lru, start, now);
            && (k in s.workers ==> s'.workers == s.workers)
            && (k !in s.workers ==> Room(s, s.workers.Values - s'.workers.Values))
            && (k !in s.workers && start ==> k in s'.workers && s'.workers[k] == spare)
  {
    InvRegistered(s);
    SubmitWorkers(s, j, k, spare, lru, start, now);
    hide RegistryOk, Inv, Room, Submit, Retire;
    if k !in s.workers {
      RoomMade(s, lru);
      RoomIs(s, lru);
      RoomOut(s, if lru.Some? then Retire(s, lru.value).workers else s.workers, lru, k, spare);
    }
  }

  lemma RoomOut(s: Pool, workers: map<Key, WorkerId>, lru: Option<WorkerId>, k: Key, spare: WorkerId)
    requires RegistryOk(s.workers, s.live, s.threads) && workers.Keys <= s.workers.Keys && k !in s.workers && spare !in s.threads
    requires lru.Some? ==> lru.value in s.workers.Values && workers.Values == s.workers.Values - {lru.value}
    requires lru.None? ==> workers == s.workers
    ensures s.workers.Values - workers.Values == if lru.Some? then {lru.value} else {}
    ensures s.workers.Values - workers[k := spare].Values == if lru.Some? then {lru.value} else {}
    ensures k in workers[k := spare] && workers[k := spare][k] == spare
  {
    KeptOnCreate(s, workers, k, spare);
  }

  /** The registry after a submit. */
  lemma SubmitWorkers(s: Pool, j: JobId, k: Key, spare: WorkerId, lru: Option<WorkerId>, start: bool, now: int)
    requires SubmitEnabled(s, j, k, spare, lru) && RegistryOk(s.workers, s.live, s.threads)
    ensures k in s.workers ==> Submit(s, j, k, spare, lru, start, now).workers == s.workers
    ensures k !in s.workers ==>
              (lru.Some? ==> lru.value in s.threads)
              && var r := if lru.Some? then Retire(s, lru.value) else s;
                 Submit(s, j, k, spare, lru, start, now).workers == if start then r.workers[k := spare] else r.workers
  {
    RegisteredHasThread(s, k);
    if lru.Some? { IdleHasThread(s, k, lru); }
    hide RegistryOk, LruChoice, Enqueue, Create, Retire, Refuse;
    if k in s.workers {
      EnqueueWorkers(s, j, k, now);
    } else {
      if lru.Some? { RetireQueues(s, lru.value); }
      var r := if lru.Some? then Retire(s, lru.value) else s;
      if start {
        CreateWorkers(r, k, spare, now);
        EnqueueWorkers(Create(r, k, spare, now), j, k, now);
      } else {
        RefuseWorkers(r, j);
      }
    }
  }

  lemma EnqueueWorkers(s: Pool, j: JobId, k: Key, now: int)
    requires j in s.submitting && k in s.workers && s.workers[k] in s.threads
    ensures Enqueue(s, j, k, now).workers == s.workers
  {
  }

  lemma RetireQueues(s: Pool, w: WorkerId)
    requires w in s.threads
    ensures Retire(s, w).submitting == s.submitting
  {
  }

  lemma CreateWorkers(r: Pool, k: Key, spare: WorkerId, now: int)
    ensures var c := Create(r, k, spare, now);
            c.workers == r.workers[k := spare] && spare in c.threads && c.submitting == r.submitting
  {
  }

  lemma RefuseWorkers(r: Pool, j: JobId)
    ensures Refuse(r, j).workers == r.workers
  {
  }

  /** Who is taken out to make room. */
  ghost predicate Room(s: Pool, out: set<WorkerId>) {
    if |s.workers| >= 16 && exists v :: v in s.workers.Values && v in s.threads && s.threads[v].pending == 0 then
      exists w :: out == {w} && w in s.threads && s.threads[w].pending == 0
                  && forall v :: v in s.workers.Values && v in s.threads && s.threads[v].pending == 0 ==>
                       s.threads[w].lastActive <= s.threads[v].lastActive
    else out == {}
  }

  lemma RoomIs(s: Pool, lru: Option<WorkerId>)
    requires LruChoice(s, lru) && RegistryOk(s.workers, s.live, s.threads)
    ensures Room(s, if lru.Some? then {lru.value} else {})
  {
    if lru.None? && |s.workers| >= 16 {
      assert forall v :: v in s.workers.Values && v in s.threads && s.threads[v].pending == 0 ==> Idle(s, v);
    }
    if lru.Some? {
      assert Idle(s, lru.value);
      assert forall v :: v in s.workers.Values && v in s.threads && s.threads[v].pending == 0 ==> Idle(s, v);
      assert {lru.value} == {lru.value};
    }
  }

  lemma InvRegistered(s: Pool)
    requires Inv(s)
    ensures RegistryOk(s.workers, s.live, s.threads)
  {
  }

  /** Retiring unregisters that worker and no other. */
  lemma RoomMade(s: Pool, lru: Option<WorkerId>)
    requires RegistryOk(s.workers, s.live, s.threads) && LruChoice(s, lru)
    ensures lru.Some? ==> lru.value in s.threads && lru.value in s.workers.Values && Retire(s, lru.value).workers.Values == s.workers.Values - {lru.value}
                          && Retire(s, lru.value).workers.Keys <= s.workers.Keys
  {
    if lru.Some? {
      var r := Retire(s, lru.value);
      var k :| k in s.workers && s.workers[k] == lru.value;
      assert s.threads[lru.value].key == k;
      forall w | w in s.workers.Values && w != lru.value ensures w in r.workers.Values {
        var x :| x in s.workers && s.workers[x] == w;
        assert x in r.workers && r.workers[x] == w;
      }
      forall w | w in r.workers.Values ensures w in s.workers.Values && w != lru.value {
        var x :| x in r.workers && r.workers[x] == w;
        assert s.threads[s.workers[x]].key == x;
      }
    }
  }

  lemma KeptOnCreate(s: Pool, workers: map<Key, WorkerId>, k: Key, spare: WorkerId)
    requires RegistryOk(s.workers, s.live, s.threads) && workers.Keys <= s.workers.Keys && k !in s.workers && spare !in s.threads
    ensures s.workers.Values - workers[k := spare].Values == s.workers.Values - workers.Values
  {
    var more := workers[k := spare];
    forall w | w in workers.Values ensures w in more.Values {
      var x :| x in workers && workers[x] == w;
      assert more[x] == w;
    }
    forall w | w in more.Values && w != spare ensures w in workers.Values {
      var x :| x in more && more[x] == w;
      assert workers[x] == w;
    }
    assert spare !in s.workers.Values;
  }

  // ------------------------------------------------------------------ skipping

  /** An abandon of the owner is among the first `i` steps. */
  ghost predicate WasAbandoned(steps: seq<Step>, i: nat, o: Owner) {
    exists a :: 0 <= a < i && a < |steps| && steps[a] == DoAbandon(o)
  }

  /** The job is skipped, or about to be. */
  ghost predicate Skips(s: Pool, j: JobId) {
    j in s.jobs && (s.jobs[j].status.Skipped? || exists w :: w in s.threads && s.threads[w].phase == Skipping(j))
  }

  lemma StepSkips(s: Pool, step: Step, j: JobId)
    requires Inv(s) && Enabled(s, step) && Skips(Apply(s, step), j)
    ensures j in s.jobs && Apply(s, step).jobs[j].owner == s.jobs[j].owner
    ensures Skips(s, j) || s.jobs[j].owner in s.abandoned
  {
    hide RegistryOk, LruChoice, Inv, Submit, RetireAll, Start, Finish, Skips;
    match step
    case DoSubmit(i, k, spare, lru, start, now) => SubmitSkips(s, i, k, spare, lru, start, now, j);
    case DoStopAll(ws) => RetireAllSkips(s, ws, j);
    case DoStart(w) => StartSkips(s, w, j);
    case DoFinish(w, now) => FinishSkips(s, w, now, j);
    case _ => OtherSkips(s, step, j);
  }

  lemma StartSkips(s: Pool, w: WorkerId, j: JobId)
    requires Inv(s) && w in s.threads && s.threads[w].phase.Holding? && s.threads[w].phase.id in s.jobs && Skips(Start(s, w), j)
    ensures j in s.jobs && Start(s, w).jobs[j].owner == s.jobs[j].owner && (Skips(s, j) || s.jobs[j].owner in s.abandoned)
  {
    hide Inv;
    var s' := Start(s, w);
    if v :| v in s'.threads && s'.threads[v].phase == Skipping(j) {
      if v != w { assert s.threads[v].phase == Skipping(j); }
    }
  }

  lemma FinishSkips(s: Pool, w: WorkerId, now: int, j: JobId)
    requires w in s.threads && (s.threads[w].phase.Running? || s.threads[w].phase.Skipping?) && s.threads[w].phase.id in s.jobs
    requires Skips(Finish(s, w, now), j)
    ensures j in s.jobs && Finish(s, w, now).jobs[j].owner == s.jobs[j].owner && Skips(s, j)
  {
    hide OwnerDone, RunningDown;
    var s' := Finish(s, w, now);
    if v :| v in s'.threads && s'.threads[v].phase == Skipping(j) { assert v != w && s.threads[v].phase == Skipping(j); }
  }

  lemma OtherSkips(s: Pool, step: Step, j: JobId)
    requires Enabled(s, step) && !step.DoSubmit? && !step.DoStopAll? && !step.DoStart? && !step.DoFinish?
    requires Skips(Apply(s, step), j)
    ensures j in s.jobs && Skips(s, j) && Apply(s, step).jobs[j].owner == s.jobs[j].owner
  {
    OtherJobs(s, step);
    hide Apply, Enabled;
    var s' := Apply(s, step);
    if w :| w in s'.threads && s'.threads[w].phase == Skipping(j) {
      OtherPhases(s, step, w);
      assert s.threads[w].phase == Skipping(j);
    }
  }

  lemma OtherJobs(s: Pool, step: Step)
    requires Enabled(s, step) && !step.DoSubmit? && !step.DoStopAll? && !step.DoStart? && !step.DoFinish?
    ensures var jobs := Apply(s, step).jobs;
            jobs.Keys == s.jobs.Keys
            && forall j :: j in jobs ==> jobs[j].owner == s.jobs[j].owner && (jobs[j].status.Skipped? ==> s.jobs[j].status.Skipped?)
  {
    if !step.DoDrop? { QuietStepJobs(s, step); } else { hide RegistryOk, LruChoice; }
  }

  lemma OtherPhases(s: Pool, step: Step, w: WorkerId)
    requires Enabled(s, step) && !step.DoSubmit? && !step.DoStopAll? && !step.DoStart? && !step.DoFinish?
    requires w in Apply(s, step).threads && Apply(s, step).threads[w].phase.Skipping?
    ensures w in s.threads && s.threads[w].phase == Apply(s, step).threads[w].phase
  {
    hide RegistryOk, LruChoice, Submit, RetireAll, OwnerDone;
  }

  lemma SubmitSkips(s: Pool, i: JobId, k: Key, spare: WorkerId, lru: Option<WorkerId>, start: bool, now: int, j: JobId)
    requires Inv(s) && SubmitEnabled(s, i, k, spare, lru) && RegistryOk(s.workers, s.live, s.threads)
    requires Skips(Submit(s, i, k, spare, lru, start, now), j)
    ensures j in s.jobs && Skips(s, j) && Submit(s, i, k, spare, lru, start, now).jobs[j].owner == s.jobs[j].owner
  {
    SubmittingFresh(s, i);
    SkipsHeld(s);
    SubmitShape(s, i, k, spare, lru, start, now);
    hide Inv, RegistryOk, Submit, SubmitEnabled, Shaped, Skips;
    var to := if k in s.workers then s.workers[k] else spare;
    ShapedSkips(s, Submit(s, i, k, spare, lru, start, now), i, to, start || k in s.workers, now, j);
  }

  lemma ShapedSkips(s: Pool, s': Pool, i: JobId, to: WorkerId, accepted: bool, now: int, j: JobId)
    requires Shaped(s, s', i, to, accepted, now) && i !in s.jobs && Skips(s', j)
    requires forall w :: w in s.threads && s.threads[w].phase.Skipping? ==> s.threads[w].phase.id in s.jobs
    ensures j in s.jobs && Skips(s, j) && s'.jobs[j].owner == s.jobs[j].owner
  {
    if w :| w in s'.threads && s'.threads[w].phase == Skipping(j) { assert w in s.threads && s.threads[w].phase == Skipping(j); }
  }

  lemma SkipsHeld(s: Pool)
    requires Inv(s)
    ensures forall w :: w in s.threads && s.threads[w].phase.Skipping? ==> s.threads[w].phase.id in s.jobs
  {
    forall w | w in s.threads && s.threads[w].phase.Skipping? ensures s.threads[w].phase.id in s.jobs { HolderStatus(s, w); }
  }

  lemma {:induction false} RetireAllSkips(s: Pool, ws: seq<WorkerId>, j: JobId)
    requires forall v :: v in ws ==> v in s.threads
    requires Skips(RetireAll(s, ws), j)
    ensures j in s.jobs && Skips(s, j) && RetireAll(s, ws).jobs[j].owner == s.jobs[j].owner
    decreases |ws|
  {
    if ws != [] {
      RetireAllSkips(Retire(s, ws[0]), ws[1..], j);
      var r := Retire(s, ws[0]);
      if w :| w in r.threads && r.threads[w].phase == Skipping(j) { assert s.threads[w].phase == Skipping(j); }
    }
  }

  lemma StepMarks(s: Pool, step: Step, o: Owner)
    requires Enabled(s, step) && o in Apply(s, step).abandoned
    ensures o in s.abandoned || step == DoAbandon(o)
  {
    hide RegistryOk, LruChoice, RetireAll;
    if step.DoStopAll? { RetireAllMarks(s, step.ws); }
  }

  lemma {:induction false} RetireAllMarks(s: Pool, ws: seq<WorkerId>)
    requires forall v :: v in ws ==> v in s.threads
    ensures RetireAll(s, ws).abandoned == s.abandoned
    decreases |ws|
  {
    if ws != [] { RetireAllMarks(Retire(s, ws[0]), ws[1..]); }
  }

  lemma {:induction false} MarkedWasAbandoned(states: seq<Pool>, steps: seq<Step>, i: nat, o: Owner)
    requires IsRun(states, steps) && states[0] == EMPTY && i < |states| && o in states[i].abandoned
    ensures WasAbandoned(steps, i, o)
  {
    hide Apply, Enabled;
    if i > 0 {
      StepMarks(states[i - 1], steps[i - 1], o);
      if o in states[i - 1].abandoned { MarkedWasAbandoned(states, steps, i - 1, o); }
    }
  }

  /** In every run, no job is skipped unless its owner was abandoned before. */
  lemma {:induction false} SkippedOnlyIfAbandoned(states: seq<Pool>, steps: seq<Step>, i: nat, j: JobId)
    requires IsRun(states, steps) && states[0] == EMPTY && i < |states| && Skips(states[i], j)
    ensures WasAbandoned(steps, i, states[i].jobs[j].owner)
  {
    hide Apply, Enabled, Inv;
    if i > 0 {
      EmptyPool();
      WorkerPool.RunKeeps(states, steps, i - 1);
      StepSkips(states[i - 1], steps[i - 1], j);
      if Skips(states[i - 1], j) {
        SkippedOnlyIfAbandoned(states, steps, i - 1, j);
      } else {
        MarkedWasAbandoned(states, steps, i - 1, states[i].jobs[j].owner);
      }
    }
  }

  // ------------------------------------------------------------------ leaving

  /** A worker in its loop is registered for its store, or has a STOP to come, or is on its way out. */
  predicate Leaves(workers: map<Key, WorkerId>, t: Worker, w: WorkerId) {
    InLoop(t.phase) && !t.phase.Exiting? ==> (t.key in workers && workers[t.key] == w) || Stop in t.queue
  }

  ghost predicate AllLeave(s: Pool) {
    forall w :: w in s.threads ==> Leaves(s.workers, s.threads[w], w)
  }

  lemma RetireLeaves(s: Pool, w: WorkerId)
    requires AllLeave(s) && w in s.threads
    ensures AllLeave(Retire(s, w)) && Retire(s, w).threads.Keys == s.threads.Keys
  {
    var t := s.threads[w];
    assert (t.queue + [Stop])[|t.queue|] == Stop;
    var r := Retire(s, w);
    forall v | v in r.threads ensures Leaves(r.workers, r.threads[v], v) { assert Leaves(s.workers, s.threads[v], v); }
  }

  lemma {:induction false} RetireAllLeaves(s: Pool, ws: seq<WorkerId>)
    requires AllLeave(s) && forall v :: v in ws ==> v in s.threads
    ensures AllLeave(RetireAll(s, ws))
    decreases |ws|
  {
    hide AllLeave;
    if ws != [] {
      RetireLeaves(s, ws[0]);
      RetireAllLeaves(Retire(s, ws[0]), ws[1..]);
    }
  }

  lemma EnqueueLeaves(s: Pool, j: JobId, k: Key, now: int)
    requires AllLeave(s) && j in s.submitting && k in s.workers && s.workers[k] in s.threads
    ensures AllLeave(Enqueue(s, j, k, now))
  {
    var after := Enqueue(s, j, k, now);
    forall v | v in after.threads ensures Leaves(after.workers, after.threads[v], v) {
      assert Leaves(s.workers, s.threads[v], v);
      if Stop in s.threads[v].queue {
        var x :| 0 <= x < |s.threads[v].queue| && s.threads[v].queue[x] == Stop;
        assert after.threads[v].queue[x] == Stop;
      }
    }
  }

  lemma CreateLeaves(s: Pool, k: Key, spare: WorkerId, now: int)
    requires AllLeave(s) && k !in s.workers && spare !in s.threads
    ensures AllLeave(Create(s, k, spare, now))
  {
    var after := Create(s, k, spare, now);
    forall v | v in after.threads ensures Leaves(after.workers, after.threads[v], v) {
      if v != spare { assert Leaves(s.workers, s.threads[v], v); }
    }
  }

  lemma SubmitLeaves(s: Pool, j: JobId, k: Key, spare: WorkerId, lru: Option<WorkerId>, start: bool, now: int)
    requires AllLeave(s) && SubmitEnabled(s, j, k, spare, lru) && RegistryOk(s.workers, s.live, s.threads)
    ensures AllLeave(Submit(s, j, k, spare, lru, start, now))
  {
    RegisteredHasThread(s, k);
    if lru.Some? { IdleHasThread(s, k, lru); }
    hide RegistryOk, LruChoice, Retire, Create, Enqueue, AllLeave;
    if k in s.workers {
      EnqueueLeaves(s, j, k, now);
    } else {
      if lru.Some? {
        RetireLeaves(s, lru.value);
        RetireDrops(s, lru.value, k);
      }
      var r := if lru.Some? then Retire(s, lru.value) else s;
      if start {
        CreateLeaves(r, k, spare, now);
        CreateWorkers(r, k, spare, now);
        EnqueueLeaves(Create(r, k, spare, now), j, k, now);
      } else {
        RefuseLeaves(r, j);
      }
    }
  }

  lemma RetireDrops(s: Pool, w: WorkerId, k: Key)
    requires w in s.threads
    ensures k !in s.workers ==> k !in Retire(s, w).workers
    ensures Retire(s, w).submitting == s.submitting
  {
  }

  lemma RefuseLeaves(r: Pool, j: JobId)
    requires AllLeave(r)
    ensures AllLeave(Refuse(r, j))
  {
  }

  /** What every other step does to one worker and the registry. */
  lemma OtherLeaves(s: Pool, step: Step, v: WorkerId)
    requires Enabled(s, step) && !step.DoSubmit? && !step.DoStopAll? && v in Apply(s, step).threads
    requires v in s.threads ==> Leaves(s.workers, s.threads[v], v)
    requires v in s.threads && s.threads[v].queue != [] ==> s.threads[v].queue == [s.threads[v].queue[0]] + s.threads[v].queue[1..]
    ensures Leaves(Apply(s, step).workers, Apply(s, step).threads[v], v)
  {
    hide RegistryOk, LruChoice, Submit, RetireAll, OwnerDone, RunningDown;
  }

  lemma StepLeaves(s: Pool, step: Step)
    requires Inv(s) && Enabled(s, step) && AllLeave(s)
    ensures AllLeave(Apply(s, step))
  {
    hide RegistryOk, LruChoice, Inv, Submit, RetireAll, Leaves;
    if step.DoSubmit? {
      SubmitLeaves(s, step.j, step.k, step.spare, step.lru, step.start, step.now);
    } else if step.DoStopAll? {
      RetireAllLeaves(s, step.ws);
    } else {
      hide Apply, Enabled;
      forall v | v in Apply(s, step).threads ensures Leaves(Apply(s, step).workers, Apply(s, step).threads[v], v) {
        OtherLeaves(s, step, v);
      }
    }
  }

  /** In every run, no worker is left in its loop for ever: one that is not registered any more has a STOP
      queued or has already left. */
  lemma {:induction false} RetiredWorkersLeave(states: seq<Pool>, steps: seq<Step>, i: nat, w: WorkerId)
    requires IsRun(states, steps) && states[0] == EMPTY && i < |states| && w in states[i].live
    ensures w in states[i].threads
    ensures var t := states[i].threads[w];
            (t.key in states[i].workers && states[i].workers[t.key] == w) || Stop in t.queue || t.phase.Exiting?
  {
    EmptyPool();
    WorkerPool.RunKeeps(states, steps, i);
    RunLeaves(states, steps, i);
    LiveIsInLoop(states[i], w);
  }

  lemma {:induction false} RunLeaves(states: seq<Pool>, steps: seq<Step>, i: nat)
    requires IsRun(states, steps) && states[0] == EMPTY && i < |states|
    ensures AllLeave(states[i])
  {
    hide Apply, Enabled, Inv;
    if i > 0 {
      hide AllLeave;
      EmptyPool();
      WorkerPool.RunKeeps(states, steps, i - 1);
      RunLeaves(states, steps, i - 1);
      StepLeaves(states[i - 1], steps[i - 1]);
    }
  }

  lemma LiveIsInLoop(s: Pool, w: WorkerId)
    requires Inv(s) && w in s.live
    ensures w in s.threads && InLoop(s.threads[w].phase)
  {
    InvRegistered(s);
    assert WorkerOk(s.threads[w], w, w in s.live, s.jobs);
  }
}

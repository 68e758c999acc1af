/** What holds in every run of the worker pool, from an empty pool. */
module PoolRuns {
  import opened WorkerPool

  lemma EmptyPool()
    ensures Inv(EMPTY)
  {
    forall o ensures OwnerExact(EMPTY.jobs, EMPTY.pending, EMPTY.running, o) {}
  }

  /** In every reachable state the three owner tables hold only owners with unfinished jobs, and the two
      counters are exact; a registered worker's counter is what it holds and has queued, and no STOP is in
      its queue; in every queue all jobs precede all STOPs; and a dead worker has nothing left. */
  lemma BooksAreExact(states: seq<Pool>, steps: seq<Step>, i: nat)
    requires IsRun(states, steps) && states[0] == EMPTY && i < |states|
    ensures forall o :: o in states[i].pending <==> UnfinishedOf(states[i].jobs, o) != {}
    ensures forall o :: o in states[i].pending ==> states[i].pending[o] == |UnfinishedOf(states[i].jobs, o)|
    ensures forall o :: o in states[i].running <==> CommittedOf(states[i].jobs, o) != {}
    ensures forall o :: o in states[i].running ==> states[i].running[o] == |CommittedOf(states[i].jobs, o)|
    ensures states[i].abandoned <= states[i].pending.Keys
    ensures forall k :: k in states[i].workers ==> states[i].workers[k] in states[i].threads && BookOf(states[i].threads[states[i].workers[k]])
    ensures forall w :: w in states[i].threads ==> StopsLast(states[i].threads[w].queue)
    ensures forall w :: w in states[i].threads && states[i].threads[w].phase.Dead? ==>
              states[i].threads[w].queue == [] && states[i].threads[w].handled == states[i].threads[w].accepted
  {
    hide Inv, Enabled, Apply, BookOf, StopsLast, UnfinishedOf, CommittedOf;
    EmptyPool();
    RunKeeps(states, steps, i);
    OwnerBooks(states[i]);
    WorkerBooks(states[i]);
  }

  lemma WorkerBooks(s: Pool)
    requires Inv(s)
    ensures s.abandoned <= s.pending.Keys
    ensures forall k :: k in s.workers ==> s.workers[k] in s.threads && BookOf(s.threads[s.workers[k]])
    ensures forall w :: w in s.threads ==> StopsLast(s.threads[w].queue)
    ensures forall w :: w in s.threads && s.threads[w].phase.Dead? ==> s.threads[w].queue == [] && s.threads[w].handled == s.threads[w].accepted
  {
    hide JobsPlaced, TrackingOk, FreshOk, ReleasedFirst, OwnerExact, StopsLast;
    forall w | w in s.threads
      ensures StopsLast(s.threads[w].queue)
      ensures s.threads[w].phase.Dead? ==> s.threads[w].queue == [] && s.threads[w].handled == s.threads[w].accepted
    {
      OneWorker(s.threads[w], w, w in s.live, s.jobs);
    }
    forall k | k in s.workers ensures s.workers[k] in s.threads && BookOf(s.threads[s.workers[k]]) {
      OneWorker(s.threads[s.workers[k]], s.workers[k], true, s.jobs);
    }
  }

  lemma OneWorker(t: Worker, w: WorkerId, isLive: bool, jobs: map<JobId, JobRec>)
    requires WorkerOk(t, w, isLive, jobs)
    ensures StopsLast(t.queue) && (isLive ==> t.pending == |Held(t.phase)| + |JobsIn(t.queue)|)
    ensures t.phase.Dead? ==> t.queue == [] && t.handled == t.accepted
  {
    assert t.accepted == t.handled + Held(t.phase) + JobsIn(t.queue);
  }

  /** A registered worker's counter and queue. */
  ghost predicate BookOf(t: Worker) {
    t.pending == |Held(t.phase)| + |JobsIn(t.queue)| && Stop !in t.queue
  }

  lemma OwnerBooks(s: Pool)
    requires Inv(s)
    ensures forall o :: (o in s.pending <==> UnfinishedOf(s.jobs, o) != {}) && (o in s.running <==> CommittedOf(s.jobs, o) != {})
    ensures forall o :: o in s.pending ==> s.pending[o] == |UnfinishedOf(s.jobs, o)|
    ensures forall o :: o in s.running ==> s.running[o] == |CommittedOf(s.jobs, o)|
  {
    hide WorkersOk, RegistryOk, JobsPlaced, TrackingOk, FreshOk, ReleasedFirst, UnfinishedOf, CommittedOf, OwnerExact;
    forall o
      ensures (o in s.pending <==> UnfinishedOf(s.jobs, o) != {}) && (o in s.running <==> CommittedOf(s.jobs, o) != {})
      ensures (o in s.pending ==> s.pending[o] == |UnfinishedOf(s.jobs, o)|) && (o in s.running ==> s.running[o] == |CommittedOf(s.jobs, o)|)
    {
      OwnerBook(s.jobs, s.pending, s.running, o);
    }
  }

  lemma OwnerBook(jobs: map<JobId, JobRec>, pending: map<Owner, int>, running: map<Owner, int>, o: Owner)
    requires OwnerExact(jobs, pending, running, o)
    ensures (o in pending <==> UnfinishedOf(jobs, o) != {}) && (o in running <==> CommittedOf(jobs, o) != {})
    ensures (o in pending ==> pending[o] == |UnfinishedOf(jobs, o)|) && (o in running ==> running[o] == |CommittedOf(jobs, o)|)
  {
  }

  /** The exact cut, in every run: of the owner's jobs accepted when its abandon took the lock, those that
      have run since or may still write are, at any later time, exactly those committed then, and the count
      returned is their number. */
  lemma AbandonCutsExactly(states: seq<Pool>, steps: seq<Step>, a: nat, o: Owner, i: nat)
    requires IsRun(states, steps) && states[0] == EMPTY && a < |steps| && steps[a] == DoAbandon(o) && a < i < |states|
    ensures RunningNow(states[a], states[i], o) == CommittedOf(states[a].jobs, o)
    ensures |CommittedOf(states[a].jobs, o)| == Get(states[a].running, o)
  {
    EmptyPool();
    RunKeeps(states, steps, a);
    Suffix(states, steps, a);
    hide IsRun, Inv;
    ExactAbandonCut(states[a..], steps[a..], o, i - a);
  }

  lemma Suffix(states: seq<Pool>, steps: seq<Step>, a: nat)
    requires IsRun(states, steps) && a < |states|
    ensures IsRun(states[a..], steps[a..])
  {
    hide Enabled, Apply;
    forall i | 0 <= i < |steps[a..]|
      ensures Enabled(states[a..][i], steps[a..][i]) && states[a..][i + 1] == Apply(states[a..][i], steps[a..][i])
    {
      assert steps[a..][i] == steps[a + i];
    }
  }

  /** Jobs cut off by an abandon stay cut off: waiting under the mark, or skipped, or dropped, never started. */
  lemma CutJobsNeverStart(states: seq<Pool>, steps: seq<Step>, a: nat, o: Owner, i: nat)
    requires IsRun(states, steps) && states[0] == EMPTY && a < |steps| && steps[a] == DoAbandon(o) && a < i < |states|
    ensures CutHolds(states[i], o, WaitingOf(states[a].jobs, o))
  {
    hide Inv, Enabled, Apply, Abandon, CutHolds, WaitingOf;
    EmptyPool();
    RunKeeps(states, steps, a);
    AbandonCuts(states[a], o);
    Suffix(states, steps, a);
    AbandonFirst(states[a..], steps[a..], o);
    CutForever(states[a..][1..], steps[a..][1..], o, WaitingOf(states[a].jobs, o), i - a - 1);
  }

  /** Every accepted job is run, skipped or dropped at most once, in every run. */
  lemma OutcomeIsFinal(states: seq<Pool>, steps: seq<Step>, i: nat, j: nat, job: JobId)
    requires IsRun(states, steps) && states[0] == EMPTY && i <= j < |states|
    requires job in states[i].jobs && !Unfinished(states[i].jobs[job].status)
    ensures job in states[j].jobs && states[j].jobs[job] == states[i].jobs[job]
  {
    EmptyPool();
    RunKeeps(states, steps, i);
    Suffix(states, steps, i);
    hide IsRun, Inv;
    TerminalForever(states[i..], steps[i..], job, j - i);
  }
}

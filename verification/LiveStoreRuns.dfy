/** What holds in every run of the live-file registry. */
module LiveStoreRuns {
  import opened Prelude
  import opened LiveStores

  const EMPTY_REGISTRY := Registry(Stores(map[], {}, None, map[], {}, []), Readers(map[], [], map[], map[], map[], map[], map[], []))

  lemma EmptyIsOk()
    ensures Inv(EMPTY_REGISTRY)
  {
  }

  /** A run of steps from `s` to `t`, every caller keeping to its side. */
  ghost predicate Leads(s: Registry, steps: seq<Step>, t: Registry)
    requires Inv(s)
    decreases |steps|
  {
    if steps == [] then t == s
    else Can(s, steps[0]) && (NextKeeps(s, steps[0]); Leads(Next(s, steps[0]), steps[1..], t))
  }

  lemma {:induction false} RunKeeps(s: Registry, steps: seq<Step>, t: Registry)
    requires Inv(s) && Leads(s, steps, t)
    ensures Inv(t)
    ensures (forall i :: 0 <= i < |steps| ==> !steps[i].AdmitFd?) && |s.readers.parked| <= MAX_PARKED ==> |t.readers.parked| <= MAX_PARKED
    decreases |steps|
  {
    hide Inv, Next;
    if steps != [] {
      NextKeeps(s, steps[0]);
      RunKeeps(Next(s, steps[0]), steps[1..], t);
    }
  }

  /** A run from the empty registry. */
  ghost predicate Reaches(steps: seq<Step>, t: Registry) {
    EmptyIsOk();
    Leads(EMPTY_REGISTRY, steps, t)
  }

  lemma ReachedIsOk(steps: seq<Step>, t: Registry)
    requires Reaches(steps, t)
    ensures Inv(t)
    ensures (forall i :: 0 <= i < |steps| ==> !steps[i].AdmitFd?) ==> |t.readers.parked| <= MAX_PARKED
  {
    hide Inv, Leads;
    EmptyIsOk();
    RunKeeps(EMPTY_REGISTRY, steps, t);
  }

  /** In every run, whatever paths name whenever they are read: no inode is open as a store while a
      reader's lease is on it, and this module has never closed a reader descriptor that was not open,
      or whose inode was then an open store. */
  lemma NeverOpenAndLeased(steps: seq<Step>, t: Registry)
    requires Reaches(steps, t)
    ensures t.stores.open.Keys !! t.readers.leases.Keys
    ensures forall i :: 0 <= i < |t.readers.closes| ==> t.readers.closes[i].genuine && !t.readers.closes[i].onStore
  {
    hide Reaches;
    ReachedIsOk(steps, t);
  }

  /** Connection counts are exact under any mix of closes and collections, the memoised live set is
      unset or equal to the recomputed union, and every parked inode is live. */
  lemma BooksBalance(steps: seq<Step>, t: Registry)
    requires Reaches(steps, t)
    ensures forall id :: id in t.stores.open ==> t.stores.open[id].connections == |ConnsOf(t.stores, id)| > 0
    ensures forall c :: c in t.stores.conns && c !in t.stores.released ==> t.stores.conns[c] in t.stores.open
    ensures t.stores.liveCache.Some? ==> t.stores.liveCache.value == Union(t.stores.open, t.stores.lockFiles)
    ensures forall i :: 0 <= i < |t.readers.parked| ==> t.readers.parked[i].0 in Union(t.stores.open, t.stores.lockFiles)
  {
    hide Reaches;
    ReachedIsOk(steps, t);
  }

  /** A close that was put off: the descriptor is still open and leased, its inode is read-locked and is
      no open store, and it is on the list once. */
  lemma PutOffUntilUnlocked(steps: seq<Step>, t: Registry, id: Inode, fd: Fd)
    requires Reaches(steps, t) && id in t.readers.deferred && fd in t.readers.deferred[id]
    ensures fd in t.readers.fds && t.readers.fds[fd] == id && Leased(t.readers.leases, t.readers.fds, fd)
    ensures id in t.readers.readLocks && t.readers.readLocks[id] == |HoldersOf(t.readers.holders, t.readers.fds, id)| > 0
    ensures id !in t.stores.open && NoDup(t.readers.deferred[id])
  {
    hide Reaches, StoresOk, ParkedOk, ClosesOk, LeasesOk, LocksOk, Leased;
    ReachedIsOk(steps, t);
    HeldLeased(t.readers.leases, t.readers.roles, t.readers.fds, fd);
    LockedCounts(t.readers.readLocks, t.readers.holders, t.readers.roles, t.readers.fds, id);
    LeasedIsLeased(t.readers.leases, t.readers.fds, fd);
  }

  lemma LockedCounts(readLocks: map<Inode, nat>, holders: map<Holder, Fd>, roles: Roles, fds: Fds, id: Inode)
    requires LocksOk(readLocks, holders, roles, fds) && id in readLocks
    ensures readLocks[id] == |HoldersOf(holders, fds, id)| > 0
  {
  }

  lemma LeasedIsLeased(leases: Leases, fds: Fds, fd: Fd)
    requires Leased(leases, fds, fd)
    ensures fd in fds && fds[fd] in leases
  {
  }

  /** A holder's exit closes what was put off for its inode if it is the last, and nothing otherwise. */
  lemma LastExitCloses(steps: seq<Step>, t: Registry, h: Holder, fd: Fd)
    requires Reaches(steps, t) && h in t.readers.holders
    requires t.readers.holders[h] in t.readers.fds && fd in t.readers.fds
    requires t.readers.fds[t.readers.holders[h]] in t.readers.readLocks && t.readers.readLocks[t.readers.fds[t.readers.holders[h]]] > 0
    ensures var id := t.readers.fds[t.readers.holders[h]];
            fd !in ExitReadLock(t.readers, h, t.stores.open.Keys).fds
            <==> t.readers.readLocks[id] == 1 && id in t.readers.deferred && fd in t.readers.deferred[id]
  {
    hide Reaches, ExitReadLock;
    ReachedIsOk(steps, t);
    ExitKeeps(t.readers, h, t.stores.open.Keys);
  }

  /** If every reader opens through open_component_fd, no more than the cap is ever parked. */
  lemma ParkedIsCapped(steps: seq<Step>, t: Registry)
    requires Reaches(steps, t) && forall i :: 0 <= i < |steps| ==> !steps[i].AdmitFd?
    ensures |t.readers.parked| <= MAX_PARKED
  {
    hide Reaches, Inv;
    ReachedIsOk(steps, t);
  }

  /** A connect to an inode with a lease that is still backed waits or is refused, and never registers it. */
  lemma LeasedInodeIsNotOpened(rd: Readers, r: Readings, id: Inode)
    requires ReadersOk(rd) && TrueLeases(rd, id) != {}
    ensures Decide(rd, r).0 != Registered(id)
    ensures r.check == Some(id) ==> Decide(rd, r).0 == WaitForLease
  {
    hide ReadersOk;
    var checked := if r.check.Some? then CheckLeases(rd, r.check.value) else rd;
    if r.check.Some? { CheckLeasesKeeps(rd, r.check.value); }
    StillBacked(rd, checked, id);
    if r.after.Some? { CheckLeasesKeeps(checked, r.after.value); }
  }

  lemma StillBacked(rd: Readers, checked: Readers, id: Inode)
    requires TrueLeases(rd, id) != {} && (checked == rd || exists x :: checked == CheckLeases(rd, x))
    ensures TrueLeases(checked, id) == TrueLeases(rd, id)
  {
    if checked != rd {
      var x :| checked == CheckLeases(rd, x);
      assert forall fd :: fd in TrueLeases(checked, id) <==> fd in TrueLeases(rd, id);
    }
  }

  /** Close and finalizer share one flag: a second release changes nothing. */
  lemma ReleasedOnce(s: Registry, c: Conn, p: Probe, q: Probe)
    requires c in s.stores.conns
    ensures c in ApplyRelease(s, c, p).stores.conns && ApplyRelease(ApplyRelease(s, c, p), c, q) == ApplyRelease(s, c, p)
  {
    ReleaseKeepsQueue(s, c, p);
    hide LiveIdentities, CloseParked;
    ReleasedIsMarked(s, c, p);
  }

  lemma ReleasedIsMarked(s: Registry, c: Conn, p: Probe)
    requires c in s.stores.conns
    ensures c in ApplyRelease(s, c, p).stores.released
  {
    hide ProbeAll, Union, CloseParked;
  }

  // ------------------------------------------------------------------ parked descriptors and read locks

  const QUIET := Probe(_ => {}, _ => {})
  const BESIDE := Probe(_ => {5}, _ => {})

  function Still(n: nat): Probe { QUIET }

  ghost predicate DroppedReadLock(closes: seq<Closed>) {
    exists i :: 0 <= i < |closes| && closes[i].onReadLock
  }

  /** A parked inode that is no longer live but is read-locked. */
  ghost predicate ParkedUnderReadLock(parked: seq<(Inode, Fd)>, live: set<Inode>, readLocks: map<Inode, nat>) {
    exists i :: 0 <= i < |parked| && parked[i].0 !in live && parked[i].0 in readLocks
  }

  /** Unparking drops a read lock if and only if a parked inode that is not live any more is read-locked. */
  lemma {:induction false} UnparkingDropsReadLockIff(rd: Readers, live: set<Inode>, open: set<Inode>)
    requires !DroppedReadLock(rd.closes)
    ensures DroppedReadLock(CloseParked(rd, live, open).closes) <==> ParkedUnderReadLock(rd.parked, live, rd.readLocks)
    decreases |rd.parked|
  {
    if rd.parked != [] {
      var (id, fd) := rd.parked[0];
      var rest := rd.(parked := rd.parked[1..]);
      OneMoreParked(rd.parked, live, rd.readLocks);
      var closed := OsClose(rest, fd, id, open);
      if id in live {
        UnparkingDropsReadLockIff(rest, live, open);
      } else if id in rd.readLocks {
        ClosesGrow(closed, live, open);
        assert closed.closes[|rd.closes|].onReadLock;
        assert CloseParked(rd, live, open).closes[|rd.closes|] == closed.closes[|rd.closes|];
      } else {
        UnparkingDropsReadLockIff(closed, live, open);
      }
    }
  }

  lemma OneMoreParked(parked: seq<(Inode, Fd)>, live: set<Inode>, readLocks: map<Inode, nat>)
    requires parked != []
    ensures ParkedUnderReadLock(parked, live, readLocks)
            <==> (parked[0].0 !in live && parked[0].0 in readLocks) || ParkedUnderReadLock(parked[1..], live, readLocks)
  {
    assert forall i :: 0 < i < |parked| ==> parked[i] == parked[1..][i - 1];
    if ParkedUnderReadLock(parked[1..], live, readLocks) {
      var i :| 0 <= i < |parked[1..]| && parked[1..][i].0 !in live && parked[1..][i].0 in readLocks;
      assert parked[i + 1] == parked[1..][i];
    }
  }

  lemma {:induction false} ClosesGrow(rd: Readers, live: set<Inode>, open: set<Inode>)
    ensures rd.closes <= CloseParked(rd, live, open).closes
    decreases |rd.parked|
  {
    if rd.parked != [] {
      var rest := rd.(parked := rd.parked[1..]);
      ClosesGrow(if rd.parked[0].0 in live then rest else OsClose(rest, rd.parked[0].1, rd.parked[0].0, open), live, open);
    }
  }

  /** The inode of a store that was itself open is never read-locked when its last connection goes. */
  lemma MainStoreIsNotReadLocked(steps: seq<Step>, t: Registry, id: Inode)
    requires Reaches(steps, t) && id in t.stores.open
    ensures id !in t.readers.readLocks
  {
    hide Reaches;
    ReachedIsOk(steps, t);
    if id in t.readers.readLocks {
      assert HoldersOf(t.readers.holders, t.readers.fds, id) != {};
      var h :| h in HoldersOf(t.readers.holders, t.readers.fds, id);
      HolderLeased(t.readers, h);
    }
  }

  // A reader's inode 5 that later turns up beside a store, as its sidecar.

  const FD_OPEN := EMPTY_REGISTRY.(readers := EMPTY_REGISTRY.readers.(fds := map[1 := 5]))
  const LEASED := FD_OPEN.(readers := FD_OPEN.readers.(leases := map[5 := {1}], roles := map[1 := Held]))
  const LOCKED := LEASED.(readers := LEASED.readers.(readLocks := map[5 := 1], holders := map[0 := 1]))
  const STORE_OPEN := LOCKED.(stores := LOCKED.stores.(open := map[7 := Store({0}, 1, {5}, {})], conns := map[0 := 7]))
  const BOTH_OPEN := STORE_OPEN.(readers := STORE_OPEN.readers.(fds := map[1 := 5, 2 := 5]))

  const ALL_PARKED := BOTH_OPEN.(stores := BOTH_OPEN.stores.(liveCache := Some({5, 7})),
                                 readers := BOTH_OPEN.readers.(parked := [(5, 2)], roles := map[1 := Held, 2 := Parked]))

  lemma Opens()
    ensures Inv(FD_OPEN) && Can(EMPTY_REGISTRY, OpenFd(1, 5)) && Inv(EMPTY_REGISTRY) && Next(EMPTY_REGISTRY, OpenFd(1, 5)) == FD_OPEN
  {
    EmptyIsOk();
    hide Inv, Drain;
    NextKeeps(EMPTY_REGISTRY, OpenFd(1, 5));
    assert EMPTY_REGISTRY.readers.fds[1 := 5] == map[1 := 5];
  }

  lemma Leases()
    requires Inv(FD_OPEN)
    ensures Can(FD_OPEN, AdmitFd(1, Still, QUIET)) && Next(FD_OPEN, AdmitFd(1, Still, QUIET)) == LEASED && Inv(LEASED)
  {
    hide Inv;
    NextKeeps(FD_OPEN, AdmitFd(1, Still, QUIET));
    assert {} + {1} == {1};
    var m: map<Inode, set<Fd>> := map[];
    assert m[5 := {1}] == map[5 := {1}];
    var r: map<Fd, Role> := map[];
    assert r[1 := Held] == map[1 := Held];
  }

  lemma Locks()
    requires Inv(LEASED)
    ensures Can(LEASED, EnterLock(0, 1, true, Still)) && Next(LEASED, EnterLock(0, 1, true, Still)) == LOCKED && Inv(LOCKED)
  {
    hide Inv;
    NextKeeps(LEASED, EnterLock(0, 1, true, Still));
    var m: map<Inode, nat> := map[];
    assert m[5 := 1] == map[5 := 1];
    var holders: map<Holder, Fd> := map[];
    assert holders[0 := 1] == map[0 := 1];
  }

  const THERE := Readings(Some(7), Some(7), Some(7), true)

  lemma Connects()
    requires Inv(LOCKED)
    ensures Can(LOCKED, Attempt(0, 0, THERE, Still, BESIDE)) && Next(LOCKED, Attempt(0, 0, THERE, Still, BESIDE)) == STORE_OPEN && Inv(STORE_OPEN)
  {
    hide Inv;
    NextKeeps(LOCKED, Attempt(0, 0, THERE, Still, BESIDE));
    assert Decide(LOCKED.readers, THERE) == (Registered(7), LOCKED.readers);
    var none: set<nat> := {};
    assert none + {0} == {0} && none + {5} == {5} && none + {} == {};
    var open: map<Inode, Store> := map[];
    var store := Store({0}, 1, {5}, {});
    assert open[7 := store] == map[7 := store];
    var conns: map<Conn, Inode> := map[];
    assert conns[0 := 7] == map[0 := 7];
  }

  lemma Reopens()
    requires Inv(STORE_OPEN)
    ensures Can(STORE_OPEN, OpenFd(2, 5)) && Next(STORE_OPEN, OpenFd(2, 5)) == BOTH_OPEN && Inv(BOTH_OPEN)
  {
    hide Inv;
    NextKeeps(STORE_OPEN, OpenFd(2, 5));
    assert STORE_OPEN.readers.fds[2 := 5] == map[1 := 5, 2 := 5];
  }

  lemma Parks()
    requires Inv(BOTH_OPEN)
    ensures Can(BOTH_OPEN, AdmitFd(2, Still, QUIET)) && Next(BOTH_OPEN, AdmitFd(2, Still, QUIET)) == ALL_PARKED && Inv(ALL_PARKED)
  {
    hide Inv;
    NextKeeps(BOTH_OPEN, AdmitFd(2, Still, QUIET));
    LiveNow();
    assert BOTH_OPEN.readers.roles[2 := Parked] == map[1 := Held, 2 := Parked];
    assert [] + [(5, 2)] == [(5, 2)];
  }

  lemma LiveNow()
    ensures LiveIdentities(BOTH_OPEN.stores, QUIET) == BOTH_OPEN.stores.(liveCache := Some({5, 7}))
  {
    var open := BOTH_OPEN.stores.open;
    var store := open[7];
    assert store.sidecars + {} == store.sidecars && store.shmRecorded + {} == store.shmRecorded;
    assert Recorded(store, 7, QUIET) == store;
    assert ProbeAll(open, QUIET) == open;
    assert Union(open, {}) == {5, 7} by {
      forall x ensures x in Union(open, {}) <==> x in {5, 7} {
        if x == 5 { assert 7 in open && 5 in open[7].sidecars; }
      }
    }
  }

  /** That this happens: a reader read-locks inode 5, a store is then opened whose sidecar is inode 5, a
      second reader's descriptor on it is parked, and the store's close closes that descriptor, which
      drops the first reader's lock. The module's own claim covers store inodes only. */
  lemma ParkedCloseDropsReadLock()
    ensures Reaches([OpenFd(1, 5), AdmitFd(1, Still, QUIET), EnterLock(0, 1, true, Still),
                     Attempt(0, 0, THERE, Still, BESIDE), OpenFd(2, 5), AdmitFd(2, Still, QUIET)], ALL_PARKED)
    ensures Inv(ALL_PARKED) && Can(ALL_PARKED, CloseConn(0, Still, QUIET))
            && Next(ALL_PARKED, CloseConn(0, Still, QUIET)).readers.closes == [Closed(2, 5, true, false, true)]
            && Next(ALL_PARKED, CloseConn(0, Still, QUIET)).readers.readLocks == map[5 := 1]
  {
    hide Inv, Next, Can;
    EmptyIsOk();
    Opens();
    Leases();
    Locks();
    Connects();
    Reopens();
    Parks();
    Closes();
    var s6: seq<Step> := [AdmitFd(2, Still, QUIET)];
    var s5 := [OpenFd(2, 5)] + s6;
    var s4 := [Attempt(0, 0, THERE, Still, BESIDE)] + s5;
    var s3 := [EnterLock(0, 1, true, Still)] + s4;
    var s2 := [AdmitFd(1, Still, QUIET)] + s3;
    assert s6[1..] == [] && s5[1..] == s6 && s4[1..] == s5 && s3[1..] == s4 && s2[1..] == s3;
    assert Leads(BOTH_OPEN, s6, ALL_PARKED);
    assert Leads(STORE_OPEN, s5, ALL_PARKED);
    assert Leads(LOCKED, s4, ALL_PARKED);
    assert Leads(LEASED, s3, ALL_PARKED);
    assert Leads(FD_OPEN, s2, ALL_PARKED);
    var steps := [OpenFd(1, 5), AdmitFd(1, Still, QUIET), EnterLock(0, 1, true, Still),
                  Attempt(0, 0, THERE, Still, BESIDE), OpenFd(2, 5), AdmitFd(2, Still, QUIET)];
    assert steps[1..] == s2;
  }

  lemma Closes()
    requires Inv(ALL_PARKED)
    ensures Can(ALL_PARKED, CloseConn(0, Still, QUIET))
            && Next(ALL_PARKED, CloseConn(0, Still, QUIET)).readers.closes == [Closed(2, 5, true, false, true)]
            && Next(ALL_PARKED, CloseConn(0, Still, QUIET)).readers.readLocks == map[5 := 1]
  {
    hide Inv;
    var s := ALL_PARKED.(stores := ALL_PARKED.stores.(released := {0}, open := ALL_PARKED.stores.open - {7}));
    assert s.stores.open == map[];
    var st := LiveIdentities(s.stores.(liveCache := None), QUIET);
    NothingOpen(s.stores);
    assert st.open == map[] && st.liveCache == Some({});
    var rd := ALL_PARKED.readers;
    assert rd.parked[1..] == [];
    assert CloseParked(rd, {}, {}).closes == [Closed(2, 5, true, false, true)];
  }
}

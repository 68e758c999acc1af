/** The registry as the module-level tables it is, each function tied to its step. */
module LiveStoreObject {
  import opened Prelude
  import opened LiveStores

  const SHM := 1

  /** Readings of the file system during one call: what a name names, and what lies beside it under each
      of the three sidecar suffixes. */
  datatype Disk = Disk(names: (Inode, Path) -> Option<Inode>, beside: (Inode, Path, nat) -> Option<Inode>)

  /** Every sidecar beside a name that still names the inode is among these. */
  ghost predicate AllBeside(disk: Disk, id: Inode, paths: set<Path>, sidecars: set<Inode>) {
    forall path, k :: path in paths && disk.names(id, path) == Some(id) && 0 <= k < 3 && disk.beside(id, path, k).Some? ==>
      disk.beside(id, path, k).value in sidecars
  }

  /** These are sidecars beside such names. */
  ghost predicate OnlyBeside(disk: Disk, id: Inode, paths: set<Path>, seen: set<Inode>) {
    forall x :: x in seen ==> exists path, k :: path in paths && disk.names(id, path) == Some(id) && 0 <= k < 3 && disk.beside(id, path, k) == Some(x)
  }

  /** These are names that still name the inode and beside which a WAL index lies. */
  ghost predicate OnlyIndexed(disk: Disk, id: Inode, paths: set<Path>, shm: set<Path>) {
    forall path :: path in shm ==> path in paths && disk.names(id, path) == Some(id) && disk.beside(id, path, SHM).Some?
  }

  /** A store as it was and as a probe left it. */
  ghost predicate Looked(disk: Disk, id: Inode, was: Store, now: Store) {
    && AllBeside(disk, id, was.paths, now.sidecars) && OnlyBeside(disk, id, was.paths, now.sidecars - was.sidecars)
    && OnlyIndexed(disk, id, was.paths, now.shmRecorded - was.shmRecorded)
  }

  class LiveFiles {
    var open: map<Inode, Store>
    var lockFiles: set<Inode>
    var liveCache: Option<set<Inode>>
    var conns: map<Conn, Inode>
    var released: set<Conn>
    var finalized: seq<Conn>
    var leases: map<Inode, set<Fd>>
    var parked: seq<(Inode, Fd)>
    var readLocks: map<Inode, nat>
    var deferred: map<Inode, seq<Fd>>
    /** The operating system's table of this process's reader descriptors. */
    var fds: map<Fd, Inode>
    ghost var roles: map<Fd, Role>
    ghost var holders: map<Holder, Fd>
    ghost var closes: seq<Closed>

    ghost function StoreSide(): Stores
      reads this
    {
      Stores(open, lockFiles, liveCache, conns, released, finalized)
    }

    ghost function ReaderSide(): Readers
      reads this
    {
      Readers(leases, parked, readLocks, deferred, fds, roles, holders, closes)
    }

    ghost function State(): Registry
      reads this
    {
      Registry(StoreSide(), ReaderSide())
    }

    constructor ()
      ensures Inv(State()) && fds == map[] && conns == map[] && parked == []
    {
      open, lockFiles, liveCache, conns, released, finalized := map[], {}, None, map[], {}, [];
      leases, parked, readLocks, deferred, fds, roles, holders, closes := map[], [], map[], map[], map[], map[], map[], [];
    }

    /** Records the sidecars beside every name that still names the inode. */
    method RecordSidecars(id: Inode, disk: Disk) returns (seen: set<Inode>, shm: set<Path>)
      requires id in open
      modifies this`open, this`liveCache
      ensures open == old(open)[id := old(open)[id].(sidecars := old(open)[id].sidecars + seen, shmRecorded := old(open)[id].shmRecorded + shm)]
      ensures liveCache == if seen <= old(open)[id].sidecars then old(liveCache) else None
      ensures Looked(disk, id, old(open)[id], open[id]) && shm <= old(open)[id].paths
    {
      var store := open[id];
      seen, shm := SidecarsOf(id, store, disk);
      var sidecars, recorded := store.sidecars + seen, store.shmRecorded + shm;
      if !(sidecars <= store.sidecars) { liveCache := None; }
      open := open[id := store.(sidecars := sidecars, shmRecorded := recorded)];
    }

    /** Probes the stores with a name whose WAL index is not recorded. */
    method ProbeOpen(disk: Disk) returns (ghost p: Probe)
      modifies this`open, this`liveCache
      ensures open == ProbeAll(old(open), p) && open.Keys == old(open).Keys
      ensures liveCache == if AnyNew(old(open), open) then None else old(liveCache)
      ensures forall id :: id in open && Unrecorded(old(open)[id]) ==> Looked(disk, id, old(open)[id], open[id])
    {
      hide Looked;
      ghost var before, seen: map<Inode, set<Inode>>, shm: map<Inode, set<Path>> := open, map[], map[];
      hide Probed, AnyNew;
      NothingProbed(before);
      var todo := open.Keys;
      ghost var done: set<Inode> := {};
      while todo != {}
        invariant todo !! done && todo + done == before.Keys && Probed(before, open, done, seen, shm)
        invariant liveCache == if AnyNew(before, open) then None else old(liveCache)
        invariant open.Keys == before.Keys && forall id :: id in done && Unrecorded(before[id]) ==> Looked(disk, id, before[id], open[id])
        decreases |todo|
      {
        var id :| id in todo;
        ProbedFacts(before, open, done, seen, shm, id);
        ghost var now := open;
        if open[id].paths - open[id].shmRecorded != {} {
          ghost var newly, indexed := RecordSidecars(id, disk);
          ProbedOne(before, now, done, seen, shm, id, newly, indexed);
          NewOne(before, now, id, open[id], newly);
          seen, shm := seen[id := newly], shm[id := indexed];
        } else {
          SkippedOne(before, now, done, seen, shm, id);
        }
        todo, done := todo - {id}, done + {id};
      }
      p := Found(seen, shm);
      assert done == before.Keys;
      ProbedAll(before, open, seen, shm);
    }

    /** Open store and sidecar inodes, recomputed only when something changed. */
    method LiveIdentities(disk: Disk) returns (live: set<Inode>, ghost p: Probe)
      modifies this`open, this`liveCache
      ensures StoreSide() == LiveStores.LiveIdentities(old(StoreSide()), p)
      ensures liveCache == Some(live) && open.Keys == old(open).Keys
      ensures forall id :: id in open && Unrecorded(old(open)[id]) ==> Looked(disk, id, old(open)[id], open[id])
    {
      ghost var before := open;
      p := ProbeOpen(disk);
      if liveCache.None? {
        var sidecars := AllSidecars(open);
        UnionIs(open, lockFiles, sidecars);
        liveCache := Some(open.Keys + lockFiles + sidecars);
      }
      live := liveCache.value;
      MemoIs(before, open);
    }

    /** os.close, by this module. */
    method OsClose(fd: Fd, id: Inode)
      modifies this`fds, this`roles, this`closes
      ensures ReaderSide() == LiveStores.OsClose(old(ReaderSide()), fd, id, open.Keys)
    {
      closes := closes + [Closed(fd, id, fd in fds && fds[fd] == id, id in open.Keys, id in readLocks)];
      fds := fds - {fd};
      roles := roles - {fd};
    }

    /** Takes a parked descriptor off the list and closes it. */
    method UnparkAt(n: nat)
      requires n < |parked|
      modifies this`parked, this`fds, this`roles, this`closes
      ensures var (id, fd) := old(parked)[n];
              ReaderSide() == LiveStores.OsClose(old(ReaderSide()).(parked := old(parked)[..n] + old(parked)[n + 1..]), fd, id, open.Keys)
    {
      var (id, fd) := parked[n];
      parked := parked[..n] + parked[n + 1..];
      OsClose(fd, id);
    }

    /** Closes the parked descriptors whose inode is not in `live`. */
    method UnparkAll(live: set<Inode>)
      modifies this`parked, this`fds, this`roles, this`closes
      ensures ReaderSide() == CloseParked(old(ReaderSide()), live, open.Keys)
    {
      hide LiveStores.OsClose, CloseParked, Prefixed, Kept;
      ghost var final := CloseParked(ReaderSide(), live, open.Keys);
      KeptNone(ReaderSide(), live, open.Keys);
      var n := 0;
      while n < |parked|
        invariant n <= |parked| && Kept(ReaderSide(), n, live, open.Keys, final)
        decreases |parked| - n
      {
        KeptNext(ReaderSide(), n, live, open.Keys, final);
        if parked[n].0 in live {
          n := n + 1;
        } else {
          UnparkAt(n);
          assert |parked| == |ReaderSide().parked|;
        }
      }
      KeptAll(ReaderSide(), n, live, open.Keys, final);
    }

    method CloseUnparked(disk: Disk) returns (ghost p: Probe)
      modifies this`open, this`liveCache, this`parked, this`fds, this`roles, this`closes
      ensures State() == LiveStores.CloseUnparked(old(State()), p)
    {
      hide LiveStores.LiveIdentities, CloseParked;
      liveCache := None;
      var live;
      live, p := LiveIdentities(disk);
      UnparkAll(live);
    }

    /** Drops one connection's count, once; the last one's release closes what was parked on the store. */
    method ApplyRelease(c: Conn, disk: Disk) returns (ghost p: Probe)
      requires c in conns && (c !in released && conns[c] in open ==> open[conns[c]].connections > 0)
      modifies this`open, this`liveCache, this`released, this`parked, this`fds, this`roles, this`closes
      ensures State() == LiveStores.ApplyRelease(old(State()), c, p)
    {
      hide LiveStores.CloseUnparked;
      p := Probe(_ => {}, _ => {});
      if c in released { return; }
      released := released + {c};
      var id := conns[c];
      if id !in open { return; }
      var count := open[id].connections - 1;
      if count > 0 {
        open := open[id := open[id].(connections := count)];
        return;
      }
      open := open - {id};
      p := CloseUnparked(disk);
    }

    method DrainOne(disk: Disk) returns (ghost p: Probe)
      requires Inv(State()) && finalized != []
      modifies this`open, this`liveCache, this`released, this`finalized, this`parked, this`fds, this`roles, this`closes
      ensures Inv(State()) && QueueOk(StoreSide()) && QueueOk(old(StoreSide())) && conns == old(conns) && finalized == old(finalized)[1..]
      ensures State() == LiveStores.ApplyRelease(Popped(old(State())), old(finalized)[0], p)
    {
      hide Inv, LiveStores.ApplyRelease;
      InvQueue(State());
      PoppedKeeps(State());
      var c := finalized[0];
      finalized := finalized[1..];
      ReleasePositive(State(), c);
      ghost var popped := State();
      p := ApplyRelease(c, disk);
      ApplyReleaseKeeps(popped, c, p);
      InvQueue(State());
    }

    /** Applies the queued releases of collected connections. */
    method DrainFinalized(disk: Disk) returns (ghost p: nat -> Probe)
      requires Inv(State())
      modifies this`open, this`liveCache, this`released, this`finalized, this`parked, this`fds, this`roles, this`closes
      ensures Inv(State()) && QueueOk(old(StoreSide())) && State() == Drain(old(State()), p) && finalized == []
    {
      hide Inv, Caught;
      ghost var probes: map<nat, Probe> := map[];
      ghost var first := State();
      InvQueue(first);
      CaughtFirst(first);
      while finalized != []
        invariant Inv(State()) && Caught(first, State(), probes)
        decreases |finalized|
      {
        ghost var before := State();
        ghost var q := DrainOne(disk);
        CaughtNext(first, before, State(), probes, q);
        probes := probes[|before.stores.finalized| := q];
      }
      p := CaughtAll(first, State(), probes);
    }

    /** An explicit close: the driver has closed, the count is released now. */
    method Release(c: Conn, disk: Disk) returns (ghost step: Step)
      requires Inv(State()) && c in conns
      modifies this
      ensures Can(old(State()), step) && step.CloseConn? && step.c == c && State() == Next(old(State()), step) && Inv(State())
    {
      hide Inv, Drain, LiveStores.ApplyRelease;
      ghost var before := State();
      InvQueue(before);
      ghost var p := DrainFinalized(disk);
      DrainKeeps(before, p);
      ReleasePositive(State(), c);
      ghost var q := ApplyRelease(c, disk);
      step := CloseConn(c, p, q);
      NextKeeps(before, step);
    }

    /** A collected connection's finalizer only queues its release. */
    method Finalize(c: Conn) returns (ghost step: Step)
      requires Inv(State()) && c in conns
      modifies this`finalized
      ensures Can(old(State()), step) && step == Collect(c) && State() == Next(old(State()), step) && Inv(State())
    {
      hide Inv, Drain;
      step := Collect(c);
      NextKeeps(State(), step);
      finalized := finalized + [c];
    }

    /** A store lock file's descriptor opened or closed. */
    method TrackLockFile(id: Inode, on: bool, disk: Disk) returns (ghost step: Step)
      requires Inv(State())
      modifies this
      ensures Can(old(State()), step) && step.TrackLockFile? && step.id == id && step.on == on
      ensures State() == Next(old(State()), step) && Inv(State())
      ensures lockFiles == if on then old(lockFiles) + {id} else old(lockFiles) - {id}
    {
      hide Inv, Drain, LiveStores.CloseUnparked;
      ghost var before := State();
      lockFiles := if on then lockFiles + {id} else lockFiles - {id};
      ghost var q := CloseUnparked(disk);
      step := LiveStores.TrackLockFile(id, on, q);
      NextKeeps(before, step);
    }

    /** Whether a reader still holds the inode; drops leases whose descriptor is not open on it. */
    method LiveLeases(id: Inode) returns (live: bool)
      modifies this`leases
      ensures ReaderSide() == CheckLeases(old(ReaderSide()), id) && live == (id in leases)
    {
      if id !in leases { return false; }
      var kept := leases[id];
      var todo := leases[id];
      while todo != {}
        invariant todo <= leases[id] && kept <= leases[id] && leases == old(leases)
        invariant forall fd :: fd in leases[id] ==> (fd in kept <==> fd in todo || (fd in fds && fds[fd] == id))
        decreases |todo|
      {
        var fd :| fd in todo;
        todo := todo - {fd};
        if fd !in fds || fds[fd] != id { kept := kept - {fd}; }
      }
      assert kept == TrueLeases(old(ReaderSide()), id);
      live := kept != {};
      leases := if live then leases[id := kept] else leases - {id};
    }

    /** One round of the connect loop. The wait for a lease lets go of the lock, so each round is a step. */
    method ConnectRound(c: Conn, path: Path, r: Readings, disk: Disk) returns (outcome: Attempt, ghost step: Step)
      requires Inv(State()) && c !in conns
      modifies this
      ensures Can(old(State()), step) && step.Attempt? && step.c == c && step.path == path && step.r == r
      ensures State() == Next(old(State()), step) && Inv(State())
      ensures outcome.Registered? <==> c in conns
      ensures (InvQueue(old(State())); Answers(Drain(old(State()), step.p).readers, r, outcome))
      ensures outcome.Registered? ==> conns == old(conns)[c := outcome.inode] && outcome.inode in open && path in open[outcome.inode].paths
                                      && AllBeside(disk, outcome.inode, open[outcome.inode].paths, open[outcome.inode].sidecars)
      ensures !outcome.Registered? ==> conns == old(conns)
    {
      hide Inv, Drain, CheckLeases, Register, Answers, AllBeside;
      ghost var before := State();
      InvQueue(before);
      ghost var p := DrainFinalized(disk);
      DrainKeeps(before, p);
      ghost var d := State();
      outcome := Choose(r);
      DecideAnswers(d.readers, r, outcome);
      ghost var q := Probe(_ => {}, _ => {});
      if outcome.Registered? {
        q := Count(c, outcome.inode, path, disk);
        RegistersIt(d.stores, c, outcome.inode, path, q);
      }
      step := Attempt(c, path, r, p, q);
      NextKeeps(before, step);
    }

    /** The checks of a round, in order: leases of what the path names, the pin, the driver, and, if the
        path was absent, the leases of what it names afterwards. */
    method Choose(r: Readings) returns (outcome: Attempt)
      modifies this`leases
      ensures (outcome, ReaderSide()) == Decide(old(ReaderSide()), r)
    {
      hide CheckLeases;
      if r.check.Some? {
        var leased := LiveLeases(r.check.value);
        if leased { return WaitForLease; }
      }
      if r.pin != r.check { return PathChanged; }
      if !r.driver { return TestDouble; }
      if r.pin.None? && r.after.Some? {
        var leased := LiveLeases(r.after.value);
        if leased { return WaitForLease; }
      }
      if r.after.None? || (r.pin.Some? && r.after != r.pin) { return Refused; }
      return Registered(r.after.value);
    }

    /** Counts the new connection and records the sidecars beside the store's names. */
    method Count(c: Conn, id: Inode, path: Path, disk: Disk) returns (ghost q: Probe)
      modifies this`open, this`liveCache, this`conns
      ensures StoreSide() == Register(old(StoreSide()), c, id, path, q)
      ensures conns == old(conns)[c := id] && id in open && path in open[id].paths && AllBeside(disk, id, open[id].paths, open[id].sidecars)
    {
      var store := if id in open then open[id] else Store({}, 0, {}, {});
      open := open[id := store.(paths := store.paths + {path}, connections := store.connections + 1)];
      liveCache := None;
      conns := conns[c := id];
      ghost var seen, shm := RecordSidecars(id, disk);
      q := Probe(_ => seen, _ => shm);
    }

    /** Records the sidecars beside one more name of an open store. */
    method NoteStoreSidecars(path: Path, named: Option<Inode>, disk: Disk) returns (ghost step: Step)
      requires Inv(State())
      modifies this
      ensures Can(old(State()), step) && step.NoteSidecars? && step.path == path && step.named == named
      ensures State() == Next(old(State()), step) && Inv(State())
    {
      hide Inv, Drain;
      ghost var before := State();
      InvQueue(before);
      ghost var p := DrainFinalized(disk);
      ghost var q := Probe(_ => {}, _ => {});
      if named.Some? && named.value in open {
        var id := named.value;
        open := open[id := open[id].(paths := open[id].paths + {path})];
        ghost var seen, shm := RecordSidecars(id, disk);
        q := Probe(_ => seen, _ => shm);
      }
      step := NoteSidecars(path, named, p, q);
      NextKeeps(before, step);
    }

    /** Leases a just-opened descriptor's inode, or parks the descriptor if a store is live on it. */
    method AdmitNow(fd: Fd, disk: Disk) returns (admitted: bool, ghost q: Probe)
      requires fd in fds
      modifies this`open, this`liveCache, this`leases, this`parked, this`roles
      ensures State() == Admit(old(State()), fd, q) && fd in roles && (admitted <==> roles[fd] == Held)
      ensures if admitted then fds[fd] in leases && fd in leases[fds[fd]] else (fds[fd], fd) in parked
    {
      hide LiveStores.LiveIdentities;
      var id := fds[fd];
      q := Probe(_ => {}, _ => {});
      if open != map[] || lockFiles != {} {
        var live;
        live, q := LiveIdentities(disk);
        if id in live {
          parked := parked + [(id, fd)];
          roles := roles[fd := Parked];
          return false, q;
        }
      }
      leases := leases[id := (if id in leases then leases[id] else {}) + {fd}];
      roles := roles[fd := Held];
      admitted := true;
    }

    method AdmitReaderFd(fd: Fd, disk: Disk) returns (admitted: bool, ghost step: Step)
      requires Inv(State()) && fd in fds && fd !in roles
      modifies this
      ensures Can(old(State()), step) && step.AdmitFd? && step.fd == fd && State() == Next(old(State()), step) && Inv(State())
      ensures fd in fds && fds[fd] == old(fds)[fd] && (admitted <==> fds[fd] !in Union(open, lockFiles))
      ensures if admitted then fds[fd] in leases && fd in leases[fds[fd]] else (fds[fd], fd) in parked
    {
      hide Inv, Drain, Admit, Union;
      ghost var before := State();
      InvQueue(before);
      ghost var p := DrainFinalized(disk);
      DrainSpares(before, p);
      ghost var q;
      DrainKeeps(before, p);
      ghost var drained := State();
      admitted, q := AdmitNow(fd, disk);
      AdmitIff(drained, fd, q);
      step := AdmitFd(fd, p, q);
      NextKeeps(before, step);
    }

    /** The check by name: a known live store is refused unopened, and so is everything once too many
        descriptors are parked. */
    method IsKnownLive(named: Option<Inode>, disk: Disk) returns (live: bool, ghost q: Probe)
      requires Inv(State())
      modifies this`open, this`liveCache
      ensures (live, State()) == KnownLive(old(State()), named, q)
      ensures live <==> |parked| >= 64 || (named.Some? && named.value in Union(open, lockFiles))
    {
      hide LiveStores.LiveIdentities, Inv, Union;
      ghost var before := State();
      q := Probe(_ => {}, _ => {});
      KnownLiveIff(before, named, q);
      if |parked| >= MAX_PARKED { return true, q; }
      if open == map[] && lockFiles == {} { return false, q; }
      if named.None? { return false, q; }
      var identities;
      identities, q := LiveIdentities(disk);
      live := named.value in identities;
      KnownLiveIff(before, named, q);
    }

    /** The open, by then of whatever the name names, and the admission. */
    method OpenAndAdmit(fd: Fd, id: Inode, late: seq<Conn>, disk: Disk) returns (admitted: bool, ghost p: nat -> Probe, ghost q: Probe)
      requires Inv(State()) && fd !in fds && forall i :: 0 <= i < |late| ==> late[i] in conns
      modifies this
      ensures var ready := Ready(old(State()), fd, id, late);
              QueueOk(ready.stores) && fd in Drain(ready, p).readers.fds && State() == Admit(Drain(ready, p), fd, q)
      ensures fd in fds && fds[fd] == id && (admitted <==> id !in Union(open, lockFiles))
      ensures if admitted then id in leases && fd in leases[id] else (id, fd) in parked
    {
      hide Inv, Drain, Admit, Union;
      OpenedKeeps(State(), fd, id, late);
      finalized := late;
      fds := fds[fd := id];
      ghost var ready := State();
      InvQueue(ready);
      p := DrainFinalized(disk);
      DrainSpares(ready, p);
      DrainKeeps(ready, p);
      ghost var drained := State();
      admitted, q := AdmitNow(fd, disk);
      AdmitIff(drained, fd, q);
    }

    /** The name check, the open and the admission as one locked section. `id` is the inode the open
        reaches, None if there is nothing to open; `late` are the connections collected meanwhile. None
        comes back for a refusal. */
    method OpenComponentFd(fd: Fd, named: Option<Inode>, id: Option<Inode>, late: seq<Conn>, disk: Disk)
      returns (got: Option<Fd>, ghost step: Step)
      requires Inv(State()) && fd !in fds && forall i :: 0 <= i < |late| ==> late[i] in conns
      modifies this
      ensures Can(old(State()), step) && step.OpenComponent? && step.fd == fd && State() == Next(old(State()), step) && Inv(State())
      ensures |old(parked)| <= MAX_PARKED ==> |parked| <= MAX_PARKED
      ensures got.Some? ==> got == Some(fd) && fd in fds && Some(fds[fd]) == id && fds[fd] !in Union(open, lockFiles)
                            && fds[fd] in leases && fd in leases[fds[fd]]
      ensures got.None? && fd in fds ==> Some(fds[fd]) == id && fds[fd] in Union(open, lockFiles) && (fds[fd], fd) in parked
      ensures fd !in fds ==> id.None? || |parked| >= 64 || (named.Some? && named.value in Union(open, lockFiles))
    {
      hide Inv, Drain, Admit, KnownLive, Union, QueueOk;
      ghost var before := State();
      InvQueue(before);
      ghost var p := DrainFinalized(disk);
      DrainKeeps(before, p);
      AbsentHasNoRole(before, fd);
      DrainSparesOne(before, p, fd);
      ghost var drained := State();
      var live;
      ghost var q, p', q' := Probe(_ => {}, _ => {}), p, Probe(_ => {}, _ => {});
      live, q := IsKnownLive(named, disk);
      KnownLiveKeeps(drained, named, q);
      got := None;
      if !live && id.Some? {
        var admitted;
        admitted, p', q' := OpenAndAdmit(fd, id.value, late, disk);
        if admitted { got := Some(fd); }
      }
      step := OpenComponent(fd, named, id, p, q, late, p', q');
      NextKeeps(before, step);
    }

    /** Closes a leased descriptor and drops its lease. */
    method CloseLeased(id: Inode, fd: Fd)
      modifies this`fds, this`roles, this`closes, this`leases
      ensures ReaderSide() == LiveStores.CloseLeased(old(ReaderSide()), id, fd, open.Keys) && fds == old(fds) - {fd}
    {
      OsClose(fd, id);
      if id in leases {
        var left := leases[id] - {fd};
        leases := if left == {} then leases - {id} else leases[id := left];
      }
    }

    /** Closes an admitted descriptor, or puts the close off while its inode is read-locked. */
    method CloseReaderFd(fd: Fd, disk: Disk) returns (ghost step: Step)
      requires Inv(State()) && fd in roles && roles[fd] == Held
      modifies this
      ensures Can(old(State()), step) && step.CloseFd? && step.fd == fd && State() == Next(old(State()), step) && Inv(State())
      ensures fd in old(fds) && (fd in fds <==> old(fds)[fd] in old(readLocks))
    {
      hide Inv, Drain, CloseReader, QueueOk;
      ghost var before := State();
      InvQueue(before);
      ghost var p := DrainFinalized(disk);
      RoleIsOpen(before, fd);
      DrainSparesOne(before, p, fd);
      step := CloseFd(fd, p);
      NextKeeps(before, step);
      CloseOrDefer(fd);
    }

    method CloseOrDefer(fd: Fd)
      requires fd in fds
      modifies this`deferred, this`fds, this`roles, this`closes, this`leases
      ensures ReaderSide() == CloseReader(old(ReaderSide()), fd, open.Keys)
      ensures fd in fds <==> old(fds)[fd] in old(readLocks)
    {
      hide LiveStores.CloseLeased;
      var id := fds[fd];
      if id in readLocks {
        deferred := deferred[id := (if id in deferred then deferred[id] else []) + [fd]];
        roles := roles[fd := Deferred];
      } else {
        CloseLeased(id, fd);
      }
    }

    /** Takes a share in SQLite's read lock on an admitted descriptor's inode. `granted`: what the system
        answers if this process does not hold the lock yet. */
    method EnterReadLock(h: Holder, fd: Fd, granted: bool, disk: Disk) returns (entered: bool, ghost step: Step)
      requires Inv(State()) && fd in roles && roles[fd] == Held && h !in holders
      modifies this
      ensures Can(old(State()), step) && step.EnterLock? && step.h == h && step.fd == fd && State() == Next(old(State()), step) && Inv(State())
      ensures fd in old(fds) && (entered <==> old(fds)[fd] in old(readLocks) || granted)
      ensures holders == if entered then old(holders)[h := fd] else old(holders)
    {
      hide Inv, Drain, QueueOk;
      ghost var before := State();
      InvQueue(before);
      ghost var p := DrainFinalized(disk);
      RoleIsOpen(before, fd);
      DrainSparesOne(before, p, fd);
      step := EnterLock(h, fd, granted, p);
      NextKeeps(before, step);
      var id := fds[fd];
      entered := id in readLocks || granted;
      if entered {
        readLocks := readLocks[id := (if id in readLocks then readLocks[id] else 0) + 1];
        holders := holders[h := fd];
      }
    }

    /** Gives the share back; the last holder closes what was put off. `fd` is the holder's descriptor. */
    method ExitReadLock(ghost h: Holder, fd: Fd, disk: Disk) returns (ghost step: Step)
      requires Inv(State()) && h in holders && holders[h] == fd
      modifies this
      ensures Can(old(State()), step) && step.ExitLock? && step.h == h && State() == Next(old(State()), step) && Inv(State())
    {
      hide Inv, Drain, LiveStores.ExitReadLock;
      ghost var before := State();
      InvQueue(before);
      ghost var p := DrainFinalized(disk);
      DrainHolders(before, p);
      HolderStays(State(), h);
      step := ExitLock(h, p);
      NextKeeps(before, step);
      Leave(h, fd);
    }

    method Leave(ghost h: Holder, fd: Fd)
      requires h in holders && holders[h] == fd && fd in fds && fds[fd] in readLocks && readLocks[fds[fd]] > 0
      modifies this`readLocks, this`deferred, this`roles, this`holders, this`fds, this`closes, this`leases
      ensures ReaderSide() == LiveStores.ExitReadLock(old(ReaderSide()), h, open.Keys)
    {
      hide LiveStores.CloseLeased;
      var id := fds[fd];
      ghost var rd := ReaderSide();
      holders := holders - {h};
      if readLocks[id] > 1 {
        readLocks := readLocks[id := readLocks[id] - 1];
        return;
      }
      readLocks := readLocks - {id};
      var pending := if id in deferred then deferred[id] else [];
      deferred := deferred - {id};
      roles := Returned(roles, pending);
      ghost var final := CloseAll(ReaderSide(), id, pending, open.Keys);
      var todo := pending;
      while todo != []
        invariant CloseAll(ReaderSide(), id, todo, open.Keys) == final && open == old(open)
        decreases |todo|
      {
        CloseLeased(id, todo[0]);
        todo := todo[1..];
      }
    }
  }

  /** The sidecars beside one name that are not known yet, and whether the WAL index is among them. */
  method Beside(id: Inode, path: Path, disk: Disk, known: set<Inode>) returns (more: set<Inode>, indexed: bool)
    ensures forall k :: 0 <= k < 3 && disk.beside(id, path, k).Some? ==> disk.beside(id, path, k).value in known + more
    ensures forall x :: x in more ==> x !in known && exists k :: 0 <= k < 3 && disk.beside(id, path, k) == Some(x)
    ensures indexed ==> disk.beside(id, path, SHM).Some? && disk.beside(id, path, SHM).value in more
  {
    more, indexed := {}, false;
    for k := 0 to 3
      invariant forall j :: 0 <= j < k && disk.beside(id, path, j).Some? ==> disk.beside(id, path, j).value in known + more
      invariant forall x :: x in more ==> x !in known && exists j :: 0 <= j < k && disk.beside(id, path, j) == Some(x)
      invariant indexed ==> disk.beside(id, path, SHM).Some? && disk.beside(id, path, SHM).value in more
    {
      var sidecar := disk.beside(id, path, k);
      if sidecar.Some? && sidecar.value !in known + more {
        more := more + {sidecar.value};
        indexed := indexed || k == SHM;
      }
    }
  }

  /** The new sidecars beside every name that still names the inode, and the names whose WAL index is new. */
  method SidecarsOf(id: Inode, store: Store, disk: Disk) returns (seen: set<Inode>, shm: set<Path>)
    ensures AllBeside(disk, id, store.paths, store.sidecars + seen) && OnlyBeside(disk, id, store.paths, seen)
    ensures OnlyIndexed(disk, id, store.paths, shm)
  {
    seen, shm := {}, {};
    var todo := store.paths;
    while todo != {}
      invariant todo <= store.paths && OnlyBeside(disk, id, store.paths, seen) && OnlyIndexed(disk, id, store.paths, shm)
      invariant AllBeside(disk, id, store.paths - todo, store.sidecars + seen)
      decreases |todo|
    {
      var path :| path in todo;
      if disk.names(id, path) == Some(id) {
        var more, indexed := Beside(id, path, disk, store.sidecars + seen);
        seen := seen + more;
        if indexed { shm := shm + {path}; }
      }
      todo := todo - {path};
    }
  }

  /** Every sidecar of every open store. */
  method AllSidecars(open: map<Inode, Store>) returns (sidecars: set<Inode>)
    ensures forall s :: s in sidecars <==> exists id :: id in open && s in open[id].sidecars
  {
    sidecars := {};
    var todo := open.Keys;
    while todo != {}
      invariant todo <= open.Keys
      invariant forall s :: s in sidecars <==> exists id :: id in open.Keys - todo && s in open[id].sidecars
      decreases |todo|
    {
      var id :| id in todo;
      todo := todo - {id};
      sidecars := sidecars + open[id].sidecars;
    }
  }

  /** What a call's probing found, by inode. */
  ghost function Found(seen: map<Inode, set<Inode>>, shm: map<Inode, set<Path>>): Probe {
    Probe(id => if id in seen then seen[id] else {}, id => if id in shm then shm[id] else {})
  }

  ghost predicate AnyNew(before: map<Inode, Store>, now: map<Inode, Store>) {
    exists id :: id in before && id in now && now[id].sidecars != before[id].sidecars
  }

  /** Stores in `done` are probed, the others as they were. */
  ghost predicate Probed(before: map<Inode, Store>, now: map<Inode, Store>, done: set<Inode>,
                         seen: map<Inode, set<Inode>>, shm: map<Inode, set<Path>>)
  {
    && now.Keys == before.Keys && seen.Keys == shm.Keys && seen.Keys <= done
    && (forall id :: id in before && id !in done ==> now[id] == before[id])
    && (forall id :: id in before && id in done ==>
          now[id] == if Unrecorded(before[id]) then Recorded(before[id], id, Found(seen, shm)) else before[id])
  }

  lemma NothingProbed(before: map<Inode, Store>)
    ensures Probed(before, before, {}, map[], map[]) && !AnyNew(before, before)
  {
  }

  lemma ProbedFacts(before: map<Inode, Store>, now: map<Inode, Store>, done: set<Inode>,
                    seen: map<Inode, set<Inode>>, shm: map<Inode, set<Path>>, id: Inode)
    requires Probed(before, now, done, seen, shm) && id in before && id !in done
    ensures now.Keys == before.Keys && now[id] == before[id]
  {
  }

  lemma ProbedOne(before: map<Inode, Store>, now: map<Inode, Store>, done: set<Inode>,
                  seen: map<Inode, set<Inode>>, shm: map<Inode, set<Path>>, id: Inode, newly: set<Inode>, indexed: set<Path>)
    requires Probed(before, now, done, seen, shm) && id in before && id !in done && Unrecorded(before[id])
    ensures var store := now[id].(sidecars := now[id].sidecars + newly, shmRecorded := now[id].shmRecorded + indexed);
            Probed(before, now[id := store], done + {id}, seen[id := newly], shm[id := indexed])
  {
    var store := now[id].(sidecars := now[id].sidecars + newly, shmRecorded := now[id].shmRecorded + indexed);
    var p, q := Found(seen, shm), Found(seen[id := newly], shm[id := indexed]);
    assert forall k :: k != id ==> p.sidecars(k) == q.sidecars(k) && p.shm(k) == q.shm(k);
    assert q.sidecars(id) == newly && q.shm(id) == indexed;
  }

  lemma NewOne(before: map<Inode, Store>, now: map<Inode, Store>, id: Inode, store: Store, newly: set<Inode>)
    requires now.Keys == before.Keys && id in before && now[id] == before[id] && store.sidecars == now[id].sidecars + newly
    ensures AnyNew(before, now[id := store]) <==> AnyNew(before, now) || !(newly <= now[id].sidecars)
  {
    var after := now[id := store];
    if AnyNew(before, now) {
      var k :| k in before && k in now && now[k].sidecars != before[k].sidecars;
      assert k != id && after[k] == now[k];
    }
    if !(newly <= now[id].sidecars) {
      var x :| x in newly && x !in now[id].sidecars;
      assert x in after[id].sidecars;
    }
  }

  lemma SkippedOne(before: map<Inode, Store>, now: map<Inode, Store>, done: set<Inode>,
                   seen: map<Inode, set<Inode>>, shm: map<Inode, set<Path>>, id: Inode)
    requires Probed(before, now, done, seen, shm) && id in before && id !in done && !Unrecorded(before[id])
    ensures Probed(before, now, done + {id}, seen, shm)
  {
  }

  lemma ProbedAll(before: map<Inode, Store>, now: map<Inode, Store>, seen: map<Inode, set<Inode>>, shm: map<Inode, set<Path>>)
    requires Probed(before, now, before.Keys, seen, shm)
    ensures now == ProbeAll(before, Found(seen, shm))
  {
  }

  lemma UnionIs(open: map<Inode, Store>, lockFiles: set<Inode>, sidecars: set<Inode>)
    requires forall s :: s in sidecars <==> exists id :: id in open && s in open[id].sidecars
    ensures open.Keys + lockFiles + sidecars == Union(open, lockFiles)
  {
  }

  lemma MemoIs(before: map<Inode, Store>, now: map<Inode, Store>)
    requires now.Keys == before.Keys
    ensures AnyNew(before, now) <==> exists id :: id in before && now[id].sidecars != before[id].sidecars
  {
  }

  /** Parked entries put back in front of what is left. */
  ghost function Prefixed(kept: seq<(Inode, Fd)>, rd: Readers): Readers {
    rd.(parked := kept + rd.parked)
  }

  lemma NothingKept(rd: Readers)
    ensures Prefixed([], rd) == rd
  {
    assert [] + rd.parked == rd.parked;
  }

  lemma NoneParked(rd: Readers, live: set<Inode>, open: set<Inode>)
    requires rd.parked == []
    ensures CloseParked(rd, live, open) == rd
  {
  }

  lemma PrefixedNone(kept: seq<(Inode, Fd)>, rd: Readers)
    requires rd.parked == []
    ensures Prefixed(kept, rd) == rd.(parked := kept)
  {
    assert kept + rd.parked == kept;
  }

  /** With the first `n` parked descriptors kept, unparking the rest gives `final`. */
  ghost predicate Kept(rd: Readers, n: nat, live: set<Inode>, open: set<Inode>, final: Readers)
    requires n <= |rd.parked|
  {
    final == Prefixed(rd.parked[..n], CloseParked(rd.(parked := rd.parked[n..]), live, open))
  }

  lemma KeptNone(rd: Readers, live: set<Inode>, open: set<Inode>)
    ensures Kept(rd, 0, live, open, CloseParked(rd, live, open))
  {
    assert rd.parked[..0] == [] && rd.parked[0..] == rd.parked;
    NothingKept(CloseParked(rd, live, open));
  }

  lemma KeptAll(rd: Readers, n: nat, live: set<Inode>, open: set<Inode>, final: Readers)
    requires n == |rd.parked| && Kept(rd, n, live, open, final)
    ensures final == rd
  {
    assert rd.parked[n..] == [] && rd.parked[..n] == rd.parked;
    NoneParked(rd.(parked := []), live, open);
    PrefixedNone(rd.parked, rd.(parked := []));
  }

  lemma KeptNext(rd: Readers, n: nat, live: set<Inode>, open: set<Inode>, final: Readers)
    requires n < |rd.parked| && Kept(rd, n, live, open, final)
    ensures rd.parked[n].0 in live ==> Kept(rd, n + 1, live, open, final)
    ensures rd.parked[n].0 !in live ==>
              var after := LiveStores.OsClose(rd.(parked := rd.parked[..n] + rd.parked[n + 1..]), rd.parked[n].1, rd.parked[n].0, open);
              |after.parked| == |rd.parked| - 1 && Kept(after, n, live, open, final)
  {
    var (id, fd) := rd.parked[n];
    var ahead := rd.(parked := rd.parked[n..]);
    UnparkOne(ahead, rd.parked[..n], live, open);
    assert rd.parked[n..][1..] == rd.parked[n + 1..];
    assert rd.parked[..n] + [(id, fd)] == rd.parked[..n + 1];
    var left := rd.parked[..n] + rd.parked[n + 1..];
    assert left[..n] == rd.parked[..n] && left[n..] == rd.parked[n + 1..];
  }

  lemma UnparkOne(rd: Readers, kept: seq<(Inode, Fd)>, live: set<Inode>, open: set<Inode>)
    requires rd.parked != []
    ensures var (id, fd) := rd.parked[0];
            var rest := rd.(parked := rd.parked[1..]);
            Prefixed(kept, CloseParked(rd, live, open)) ==
              if id in live then Prefixed(kept + [(id, fd)], CloseParked(rest, live, open))
              else Prefixed(kept, CloseParked(LiveStores.OsClose(rest, fd, id, open), live, open))
  {
    var (id, fd) := rd.parked[0];
    var after := CloseParked(rd.(parked := rd.parked[1..]), live, open);
    assert kept + ([(id, fd)] + after.parked) == (kept + [(id, fd)]) + after.parked;
  }

  ghost predicate QueueOk(st: Stores) {
    forall i :: 0 <= i < |st.finalized| ==> st.finalized[i] in st.conns
  }

  /** `f` gives the probes recorded so far. */
  ghost predicate Follows(f: nat -> Probe, probes: map<nat, Probe>) {
    forall n: nat :: n in probes ==> f(n) == probes[n]
  }

  ghost function Popped(s: Registry): Registry
    requires s.stores.finalized != []
  {
    s.(stores := s.stores.(finalized := s.stores.finalized[1..]))
  }

  lemma InvQueue(s: Registry)
    requires Inv(s)
    ensures QueueOk(s.stores)
  {
  }

  lemma PoppedKeeps(s: Registry)
    requires Inv(s) && s.stores.finalized != []
    ensures Inv(s.(stores := s.stores.(finalized := s.stores.finalized[1..])))
  {
    hide ReadersOk, Union;
    PoppedStores(s.stores);
    hide StoresOk;
  }

  lemma ReleasePositive(s: Registry, c: Conn)
    requires Inv(s) && c in s.stores.conns
    ensures s.stores.conns[c] in s.stores.open ==> s.stores.open[s.stores.conns[c]].connections > 0
  {
  }

  /** Draining from `first` with the probes recorded so far is draining from `now`. */
  ghost predicate Caught(first: Registry, now: Registry, probes: map<nat, Probe>) {
    && QueueOk(first.stores) && QueueOk(now.stores) && (forall n :: n in probes ==> n > |now.stores.finalized|)
    && forall f: nat -> Probe :: Follows(f, probes) ==> Drain(first, f) == Drain(now, f)
  }

  lemma CaughtFirst(first: Registry)
    requires QueueOk(first.stores)
    ensures Caught(first, first, map[])
  {
  }

  lemma CaughtNext(first: Registry, before: Registry, after: Registry, probes: map<nat, Probe>, q: Probe)
    requires Caught(first, before, probes) && before.stores.finalized != [] && QueueOk(after.stores)
    requires after == LiveStores.ApplyRelease(Popped(before), before.stores.finalized[0], q)
    ensures Caught(first, after, probes[|before.stores.finalized| := q])
  {
    hide LiveStores.ApplyRelease;
    var n := |before.stores.finalized|;
    ReleaseKeepsQueue(Popped(before), before.stores.finalized[0], q);
    forall f: nat -> Probe | Follows(f, probes[n := q]) ensures Drain(first, f) == Drain(after, f) {
      assert f(n) == probes[n := q][n];
      assert Follows(f, probes) by {
        forall k: nat | k in probes ensures f(k) == probes[k] { assert probes[n := q][k] == probes[k]; }
      }
    }
  }

  lemma CaughtAll(first: Registry, now: Registry, probes: map<nat, Probe>) returns (f: nat -> Probe)
    requires Caught(first, now, probes) && now.stores.finalized == []
    ensures QueueOk(first.stores) && Drain(first, f) == now
  {
    f := n => if n in probes then probes[n] else Probe(_ => {}, _ => {});
    assert Follows(f, probes);
  }

  lemma RegistersIt(st: Stores, c: Conn, id: Inode, path: Path, q: Probe)
    ensures c in Register(st, c, id, path, q).conns
  {
  }

  ghost function Ready(s: Registry, fd: Fd, id: Inode, late: seq<Conn>): Registry {
    Registry(s.stores.(finalized := late), s.readers.(fds := s.readers.fds[fd := id]))
  }

  lemma AbsentHasNoRole(s: Registry, fd: Fd)
    requires Inv(s) && fd !in s.readers.fds
    ensures fd !in s.readers.roles
  {
  }

  lemma RoleIsOpen(s: Registry, fd: Fd)
    requires Inv(s) && fd in s.readers.roles
    ensures fd in s.readers.fds
  {
  }

  /** Draining leaves alone what a reader has, and what is not open. */
  lemma DrainSparesOne(s: Registry, p: nat -> Probe, fd: Fd)
    requires Inv(s) && QueueOk(s.stores) && (fd in s.readers.roles ==> s.readers.roles[fd] != Parked)
    ensures var rd, after := s.readers, Drain(s, p).readers;
            && after.readLocks == rd.readLocks && after.holders == rd.holders
            && (fd in after.fds <==> fd in rd.fds) && (fd in rd.fds ==> after.fds[fd] == rd.fds[fd])
            && (fd in after.roles <==> fd in rd.roles) && (fd in rd.roles ==> after.roles[fd] == rd.roles[fd])
  {
    hide Inv, Drain;
    DrainSpares(s, p);
  }

  lemma HolderStays(s: Registry, h: Holder)
    requires Inv(s) && h in s.readers.holders
    ensures s.readers.holders[h] in s.readers.fds && s.readers.fds[s.readers.holders[h]] in s.readers.readLocks
    ensures s.readers.readLocks[s.readers.fds[s.readers.holders[h]]] > 0
  {
    HolderIsOpen(s.readers, h);
  }
}

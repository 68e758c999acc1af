/**
 The registry of live SQLite files: which inodes this process has open as stores, and every other
 descriptor it holds on an inode. A reader's descriptor is leased, or parked if a store is live on its
 inode; a close that would drop a lock is put off. What a path names is read from the file system,
 which anyone may change between two readings, so every reading is an arbitrary parameter.
 */
module LiveStores {
  import opened Prelude

  type Inode = nat
  type Path = nat
  type Fd = nat
  type Conn = nat
  type Holder = nat

  const MAX_PARKED := 64

  /** An open store: the names it was opened by, how many connections, and the sidecar inodes seen. */
  datatype Store = Store(paths: set<Path>, connections: int, sidecars: set<Inode>, shmRecorded: set<Path>)

  /** The connection side. `conns` are the registered connections, `released` those whose release-once
      flag is set, `finalized` the queue of collected ones. */
  datatype Stores = Stores(open: map<Inode, Store>, lockFiles: set<Inode>, liveCache: Option<set<Inode>>,
                           conns: map<Conn, Inode>, released: set<Conn>, finalized: seq<Conn>)

  /** A descriptor this module closed: whether it was open on that inode, whether the inode was then an
      open store, and whether a read lock was then held on it. */
  datatype Closed = Closed(fd: Fd, inode: Inode, genuine: bool, onStore: bool, onReadLock: bool)

  /** Who has an admitted descriptor: a reader, or this module until it may close it. */
  datatype Role = Held | Deferred | Parked

  /** The reader side. `fds` is the process's open reader descriptors, `roles` the admitted ones, `holders`
      the read locks in use, `closes` what this module closed so far. */
  datatype Readers = Readers(leases: map<Inode, set<Fd>>, parked: seq<(Inode, Fd)>, readLocks: map<Inode, nat>,
                             deferred: map<Inode, seq<Fd>>, fds: map<Fd, Inode>, roles: map<Fd, Role>, holders: map<Holder, Fd>,
                             closes: seq<Closed>)

  datatype Registry = Registry(stores: Stores, readers: Readers)

  // ------------------------------------------------------------------ sidecars and the live set

  /** What a round of probing found: sidecars beside the names that still name each store, and the names
      whose WAL index was recorded. */
  datatype Probe = Probe(sidecars: Inode -> set<Inode>, shm: Inode -> set<Path>)

  function Recorded(store: Store, id: Inode, p: Probe): Store {
    store.(sidecars := store.sidecars + p.sidecars(id), shmRecorded := store.shmRecorded + p.shm(id))
  }

  predicate Unrecorded(store: Store) { store.paths - store.shmRecorded != {} }

  function ProbeAll(open: map<Inode, Store>, p: Probe): map<Inode, Store> {
    map id | id in open :: if Unrecorded(open[id]) then Recorded(open[id], id, p) else open[id]
  }

  /** Open stores, their sidecars, and lock files. */
  function Union(open: map<Inode, Store>, lockFiles: set<Inode>): set<Inode> {
    open.Keys + lockFiles + (set id, s | id in open && s in open[id].sidecars :: s)
  }

  /** _live_identities: probes the names not recorded yet; a new sidecar unsets the memo. */
  function LiveIdentities(st: Stores, p: Probe): Stores {
    var open := ProbeAll(st.open, p);
    var memo := if exists id :: id in st.open && open[id].sidecars != st.open[id].sidecars then None else st.liveCache;
    st.(open := open, liveCache := if memo.Some? then memo else Some(Union(open, st.lockFiles)))
  }

  // ------------------------------------------------------------------ closing descriptors

  /** os.close by this module. */
  function OsClose(rd: Readers, fd: Fd, id: Inode, open: set<Inode>): Readers {
    rd.(fds := rd.fds - {fd}, roles := rd.roles - {fd},
        closes := rd.closes + [Closed(fd, id, fd in rd.fds && rd.fds[fd] == id, id in open, id in rd.readLocks)])
  }

  /** Closes the parked descriptors whose inode is not live any more. */
  function CloseParked(rd: Readers, live: set<Inode>, open: set<Inode>): Readers
    decreases |rd.parked|
  {
    if rd.parked == [] then rd else
    var (id, fd) := rd.parked[0];
    var rest := rd.(parked := rd.parked[1..]);
    if id in live then
      var after := CloseParked(rest, live, open);
      after.(parked := [(id, fd)] + after.parked)
    else CloseParked(OsClose(rest, fd, id, open), live, open)
  }

  function CloseUnparked(s: Registry, p: Probe): Registry {
    var st := LiveIdentities(s.stores.(liveCache := None), p);
    Registry(st, CloseParked(s.readers, st.liveCache.value, st.open.Keys))
  }

  // ------------------------------------------------------------------ connections

  /** Drops one connection's count, once. */
  function ApplyRelease(s: Registry, c: Conn, p: Probe): Registry
    requires c in s.stores.conns
  {
    var st := s.stores;
    var id := st.conns[c];
    if c in st.released then s
    else if id !in st.open then s.(stores := st.(released := st.released + {c}))
    else
      var count := st.open[id].connections - 1;
      if count > 0 then
        s.(stores := st.(released := st.released + {c}, open := st.open[id := st.open[id].(connections := count)]))
      else
        CloseUnparked(s.(stores := st.(released := st.released + {c}, open := st.open - {id})), p)
  }

  /** Every entry point first applies the queued releases of collected connections. */
  function Drain(s: Registry, p: nat -> Probe): Registry
    requires forall i :: 0 <= i < |s.stores.finalized| ==> s.stores.finalized[i] in s.stores.conns
    decreases |s.stores.finalized|
  {
    if s.stores.finalized == [] then s else
    var c := s.stores.finalized[0];
    var popped := s.(stores := s.stores.(finalized := s.stores.finalized[1..]));
    ReleaseKeepsQueue(popped, c, p(|s.stores.finalized|));
    Drain(ApplyRelease(popped, c, p(|s.stores.finalized|)), p)
  }

  lemma ReleaseKeepsQueue(s: Registry, c: Conn, p: Probe)
    requires c in s.stores.conns
    ensures var t := ApplyRelease(s, c, p);
            t.stores.conns == s.stores.conns && t.stores.finalized == s.stores.finalized
  {
  }

  /** The leases of an inode whose descriptor is still open on it. */
  function TrueLeases(rd: Readers, id: Inode): set<Fd> {
    if id !in rd.leases then {} else set fd | fd in rd.leases[id] && fd in rd.fds && rd.fds[fd] == id
  }

  /** _live_leases: drops the others, and the whole entry if none is left. */
  function CheckLeases(rd: Readers, id: Inode): Readers {
    if id !in rd.leases then rd
    else rd.(leases := if TrueLeases(rd, id) == {} then rd.leases - {id} else rd.leases[id := TrueLeases(rd, id)])
  }

  /** What the path named before the pin, at the pin and after the connect, and whether the driver
      returned a real connection. */
  datatype Readings = Readings(check: Option<Inode>, pin: Option<Inode>, after: Option<Inode>, driver: bool)

  datatype Attempt = WaitForLease | PathChanged | TestDouble | Refused | Registered(inode: Inode)

  /** How one round of the connect loop ends, and the leases it drops on the way. */
  function Decide(rd: Readers, r: Readings): (Attempt, Readers) {
    var checked := if r.check.Some? then CheckLeases(rd, r.check.value) else rd;
    if r.check.Some? && r.check.value in checked.leases then (WaitForLease, checked)
    else if r.pin != r.check then (PathChanged, checked)
    else if !r.driver then (TestDouble, checked)
    else
      var again := if r.pin.None? && r.after.Some? then CheckLeases(checked, r.after.value) else checked;
      if r.pin.None? && r.after.Some? && r.after.value in again.leases then (WaitForLease, again)
      else if r.after.None? || (r.pin.Some? && r.after != r.pin) then (Refused, again)
      else (Registered(r.after.value), again)
  }

  /** A descriptor that is still open on the inode backs a lease of it. */
  ghost predicate Backed(rd: Readers, id: Inode) {
    id in rd.leases && exists fd :: fd in rd.leases[id] && fd in rd.fds && rd.fds[fd] == id
  }

  /** What a round of the connect loop answers, told by the readings of the path and the backed leases. It
      waits for a lease on what the path named at the check or, if it named nothing until then, names
      afterwards; it starts over if the path changed before the pin; it does not count a test double; it
      refuses a path that names nothing afterwards, or another file than at the pin; and it counts the
      connection on what the path names afterwards in every other case. */
  ghost predicate Answers(rd: Readers, r: Readings, outcome: Attempt) {
    var leased := r.check.Some? && Backed(rd, r.check.value);
    match outcome
    case WaitForLease =>
      leased || (r.check.None? && r.pin.None? && r.driver && r.after.Some? && Backed(rd, r.after.value))
    case PathChanged => !leased && r.pin != r.check
    case TestDouble => !leased && r.pin == r.check && !r.driver
    case Refused => !leased && r.pin == r.check && r.driver && (r.after.None? || (r.pin.Some? && r.after != r.pin))
    case Registered(id) =>
      r.pin == r.check && r.driver && r.after == Some(id) && (r.pin == None || r.pin == Some(id)) && !Backed(rd, id)
  }

  /** A round gives that answer and no other. */
  lemma DecideAnswers(rd: Readers, r: Readings, outcome: Attempt)
    ensures Decide(rd, r).0 == outcome <==> Answers(rd, r, outcome)
  {
    BackedIsChecked(rd, if r.check.Some? then r.check.value else 0);
    BackedIsChecked(rd, if r.after.Some? then r.after.value else 0);
    hide Backed, CheckLeases;
  }

  lemma BackedIsChecked(rd: Readers, id: Inode)
    ensures id in CheckLeases(rd, id).leases <==> Backed(rd, id)
  {
    if fd :| id in rd.leases && fd in rd.leases[id] && fd in rd.fds && rd.fds[fd] == id { assert fd in TrueLeases(rd, id); }
  }

  /** Counts a new connection against its inode and records the sidecars beside its names. */
  function Register(st: Stores, c: Conn, id: Inode, path: Path, p: Probe): Stores {
    var store := if id in st.open then st.open[id] else Store({}, 0, {}, {});
    var counted := Recorded(store.(paths := store.paths + {path}, connections := store.connections + 1), id, p);
    st.(open := st.open[id := counted], liveCache := None, conns := st.conns[c := id])
  }

  // ------------------------------------------------------------------ readers

  /** Leases a descriptor's inode, or parks it if a store is live on it. */
  function Admit(s: Registry, fd: Fd, p: Probe): Registry
    requires fd in s.readers.fds
  {
    var rd := s.readers;
    var id := rd.fds[fd];
    var st := if s.stores.open == map[] && s.stores.lockFiles == {} then s.stores else LiveIdentities(s.stores, p);
    if !(s.stores.open == map[] && s.stores.lockFiles == {}) && id in st.liveCache.value then
      Registry(st, rd.(parked := rd.parked + [(id, fd)], roles := rd.roles[fd := Parked]))
    else
      var fds := if id in rd.leases then rd.leases[id] else {};
      Registry(st, rd.(leases := rd.leases[id := fds + {fd}], roles := rd.roles[fd := Held]))
  }

  /** Closes a leased descriptor and drops its lease. */
  function CloseLeased(rd: Readers, id: Inode, fd: Fd, open: set<Inode>): Readers {
    OsClose(rd, fd, id, open).(leases := DropLease(rd.leases, id, fd))
  }

  function DropLease(leases: map<Inode, set<Fd>>, id: Inode, fd: Fd): map<Inode, set<Fd>> {
    if id !in leases then leases
    else if leases[id] - {fd} == {} then leases - {id}
    else leases[id := leases[id] - {fd}]
  }

  /** close_reader_fd: at once, or when the inode's last read lock goes. */
  function CloseReader(rd: Readers, fd: Fd, open: set<Inode>): Readers
    requires fd in rd.fds
  {
    var id := rd.fds[fd];
    if id in rd.readLocks then
      rd.(deferred := rd.deferred[id := (if id in rd.deferred then rd.deferred[id] else []) + [fd]], roles := rd.roles[fd := Deferred])
    else CloseLeased(rd, id, fd, open)
  }

  function EnterReadLock(rd: Readers, h: Holder, fd: Fd): Readers
    requires fd in rd.fds
  {
    var id := rd.fds[fd];
    rd.(readLocks := rd.readLocks[id := (if id in rd.readLocks then rd.readLocks[id] else 0) + 1], holders := rd.holders[h := fd])
  }

  function CloseAll(rd: Readers, id: Inode, fds: seq<Fd>, open: set<Inode>): Readers
    decreases |fds|
  {
    if fds == [] then rd else CloseAll(CloseLeased(rd, id, fds[0], open), id, fds[1..], open)
  }

  /** The last holder's exit closes what was put off. */
  function ExitReadLock(rd: Readers, h: Holder, open: set<Inode>): Readers
    requires h in rd.holders && rd.holders[h] in rd.fds && rd.fds[rd.holders[h]] in rd.readLocks && rd.readLocks[rd.fds[rd.holders[h]]] > 0
  {
    var id := rd.fds[rd.holders[h]];
    var left := rd.(holders := rd.holders - {h});
    if rd.readLocks[id] > 1 then left.(readLocks := rd.readLocks[id := rd.readLocks[id] - 1])
    else
      var pending := if id in rd.deferred then rd.deferred[id] else [];
      CloseAll(left.(readLocks := rd.readLocks - {id}, deferred := rd.deferred - {id}, roles := Returned(rd.roles, pending)),
               id, pending, open)
  }

  /** Descriptors whose put-off close is now due. */
  function Returned(roles: map<Fd, Role>, fds: seq<Fd>): map<Fd, Role> {
    map fd | fd in roles :: if fd in fds then Held else roles[fd]
  }

  // ------------------------------------------------------------------ the invariant

  /** The connections counted against an inode. */
  function ConnsOf(st: Stores, id: Inode): set<Conn> {
    set c | c in st.conns && st.conns[c] == id && c !in st.released
  }

  /** Counts are exact, whatever mix of closes and collections has happened, and the memo is not stale. */
  ghost predicate StoresOk(st: Stores) {
    && (forall id :: id in st.open ==> st.open[id].connections == |ConnsOf(st, id)| && st.open[id].connections > 0)
    && (forall c :: c in st.conns && c !in st.released ==> st.conns[c] in st.open)
    && (forall i :: 0 <= i < |st.finalized| ==> st.finalized[i] in st.conns)
    && (forall c :: c in st.released ==> c in st.conns)
    && (st.liveCache.Some? ==> st.liveCache.value == Union(st.open, st.lockFiles))
  }

  type Leases = map<Inode, set<Fd>>
  type Fds = map<Fd, Inode>
  type Roles = map<Fd, Role>

  ghost predicate Leased(leases: Leases, fds: Fds, fd: Fd) {
    fd in fds && fds[fd] in leases && fd in leases[fds[fd]]
  }

  /** Descriptors that readers have, or that wait for a read lock, hold leases. */
  ghost predicate LeasesOk(leases: Leases, roles: Roles, fds: Fds) {
    && (forall id :: id in leases ==> leases[id] != {})
    && (forall fd :: fd in roles ==> fd in fds)
    && (forall fd :: fd in roles && roles[fd] != Parked ==> Leased(leases, fds, fd))
  }

  ghost predicate ParkedOk(parked: seq<(Inode, Fd)>, roles: Roles, fds: Fds) {
    && (forall i :: 0 <= i < |parked| ==>
          parked[i].1 in roles && roles[parked[i].1] == Parked && parked[i].1 in fds && fds[parked[i].1] == parked[i].0)
    && (forall i, j :: 0 <= i < j < |parked| ==> parked[i].1 != parked[j].1)
  }

  /** Closes are put off only while a read lock is held, each once. */
  ghost predicate DeferredOk(deferred: map<Inode, seq<Fd>>, readLocks: map<Inode, nat>, roles: Roles, fds: Fds) {
    && (forall id :: id in deferred ==> id in readLocks && NoDup(deferred[id]))
    && (forall id, fd :: id in deferred && fd in deferred[id] ==> fd in roles && roles[fd] == Deferred && fd in fds && fds[fd] == id)
    && (forall fd :: fd in roles && roles[fd] == Deferred ==> fd in fds && fds[fd] in deferred && fd in deferred[fds[fd]])
  }

  function HoldersOf(holders: map<Holder, Fd>, fds: Fds, id: Inode): set<Holder> {
    set h | h in holders && holders[h] in fds && fds[holders[h]] == id
  }

  /** Read locks are counted exactly, and a holder's descriptor stays open until the holder leaves. */
  ghost predicate LocksOk(readLocks: map<Inode, nat>, holders: map<Holder, Fd>, roles: Roles, fds: Fds) {
    && (forall id :: id in readLocks ==> readLocks[id] == |HoldersOf(holders, fds, id)| && readLocks[id] > 0)
    && (forall h :: h in holders ==>
          holders[h] in roles && roles[holders[h]] != Parked && holders[h] in fds && fds[holders[h]] in readLocks)
  }

  /** Every close so far was of an open descriptor whose inode was not an open store. */
  ghost predicate ClosesOk(closes: seq<Closed>) {
    forall i :: 0 <= i < |closes| ==> closes[i].genuine && !closes[i].onStore
  }

  ghost predicate ReadersOk(rd: Readers) {
    && LeasesOk(rd.leases, rd.roles, rd.fds) && ParkedOk(rd.parked, rd.roles, rd.fds)
    && DeferredOk(rd.deferred, rd.readLocks, rd.roles, rd.fds) && LocksOk(rd.readLocks, rd.holders, rd.roles, rd.fds)
    && ClosesOk(rd.closes)
  }

  /** No store is open on a leased inode, and every parked inode is live. */
  ghost predicate Apart(s: Registry) {
    && s.stores.open.Keys !! s.readers.leases.Keys
    && forall i :: 0 <= i < |s.readers.parked| ==> s.readers.parked[i].0 in Union(s.stores.open, s.stores.lockFiles)
  }

  ghost predicate Inv(s: Registry) {
    StoresOk(s.stores) && ReadersOk(s.readers) && Apart(s)
  }

  // ------------------------------------------------------------------ sidecars and counts

  lemma LiveIdentitiesKeeps(st: Stores, p: Probe)
    requires StoresOk(st)
    ensures var t := LiveIdentities(st, p);
            && StoresOk(t) && t.liveCache == Some(Union(t.open, t.lockFiles)) && t.open.Keys == st.open.Keys
            && Union(st.open, st.lockFiles) <= Union(t.open, t.lockFiles)
            && t == st.(open := t.open, liveCache := t.liveCache)
  {
    var t := LiveIdentities(st, p);
    ProbeGrows(st.open, p, st.lockFiles);
    forall id ensures ConnsOf(t, id) == ConnsOf(st, id) {}
  }

  lemma ProbeGrows(open: map<Inode, Store>, p: Probe, lockFiles: set<Inode>)
    ensures var after := ProbeAll(open, p);
            && after.Keys == open.Keys && Union(open, lockFiles) <= Union(after, lockFiles)
            && (forall id :: id in open ==> after[id].connections == open[id].connections && open[id].sidecars <= after[id].sidecars)
            && ((forall id :: id in open ==> after[id].sidecars == open[id].sidecars) ==> Union(after, lockFiles) == Union(open, lockFiles))
  {
    var after := ProbeAll(open, p);
    forall x | x in Union(open, lockFiles) ensures x in Union(after, lockFiles) {
      if x !in open && x !in lockFiles { var id :| id in open && x in open[id].sidecars; assert x in after[id].sidecars; }
    }
  }

  lemma ReleasedConns(st: Stores, c: Conn, id: Inode)
    requires c in st.conns && c !in st.released
    ensures var t := st.(released := st.released + {c});
            ConnsOf(t, id) == ConnsOf(st, id) - {c} && (st.conns[c] == id <==> c in ConnsOf(st, id))
            && |ConnsOf(t, id)| == |ConnsOf(st, id)| - (if st.conns[c] == id then 1 else 0)
  {
    var t := st.(released := st.released + {c});
    assert ConnsOf(t, id) == ConnsOf(st, id) - {c};
  }

  lemma RegisteredConns(st: Stores, c: Conn, id: Inode, x: Inode)
    requires c !in st.conns && c !in st.released
    ensures var t := st.(conns := st.conns[c := id]);
            ConnsOf(t, x) == (if x == id then ConnsOf(st, x) + {c} else ConnsOf(st, x))
            && |ConnsOf(t, x)| == |ConnsOf(st, x)| + (if x == id then 1 else 0)
  {
    var t := st.(conns := st.conns[c := id]);
    assert ConnsOf(t, x) == (if x == id then ConnsOf(st, x) + {c} else ConnsOf(st, x));
    assert c !in ConnsOf(st, x);
  }

  // ------------------------------------------------------------------ closing a descriptor

  lemma CloseFdLeases(leases: Leases, roles: Roles, fds: Fds, fd: Fd, id: Inode)
    requires LeasesOk(leases, roles, fds) && fd in fds && fds[fd] == id
    ensures LeasesOk(leases, roles - {fd}, fds - {fd}) && LeasesOk(DropLease(leases, id, fd), roles - {fd}, fds - {fd})
    ensures DropLease(leases, id, fd).Keys <= leases.Keys
  {
  }

  lemma CloseFdParked(parked: seq<(Inode, Fd)>, roles: Roles, fds: Fds, fd: Fd)
    requires ParkedOk(parked, roles, fds) && forall i :: 0 <= i < |parked| ==> parked[i].1 != fd
    ensures ParkedOk(parked, roles - {fd}, fds - {fd})
  {
  }

  lemma CloseFdDeferred(deferred: map<Inode, seq<Fd>>, readLocks: map<Inode, nat>, roles: Roles, fds: Fds, fd: Fd)
    requires DeferredOk(deferred, readLocks, roles, fds) && fd in roles && roles[fd] != Deferred
    ensures DeferredOk(deferred, readLocks, roles - {fd}, fds - {fd})
  {
  }

  lemma CloseFdLocks(readLocks: map<Inode, nat>, holders: map<Holder, Fd>, roles: Roles, fds: Fds, fd: Fd)
    requires LocksOk(readLocks, holders, roles, fds) && forall h :: h in holders ==> holders[h] != fd
    ensures LocksOk(readLocks, holders, roles - {fd}, fds - {fd})
  {
    forall id ensures HoldersOf(holders, fds - {fd}, id) == HoldersOf(holders, fds, id) {}
  }

  lemma HoldersApart(readLocks: map<Inode, nat>, holders: map<Holder, Fd>, roles: Roles, fds: Fds, fd: Fd)
    requires LocksOk(readLocks, holders, roles, fds) && fd in roles && fd in fds && (roles[fd] == Parked || fds[fd] !in readLocks)
    ensures forall h :: h in holders ==> holders[h] != fd
  {
  }

  lemma CloseFdLogged(closes: seq<Closed>, one: Closed)
    requires ClosesOk(closes) && one.genuine && !one.onStore
    ensures ClosesOk(closes + [one])
  {
  }

  /** Closing a parked descriptor that has been taken off the list. */
  lemma CloseOneParked(rd: Readers, fd: Fd, id: Inode, open: set<Inode>)
    requires ReadersOk(rd) && fd in rd.roles && rd.roles[fd] == Parked && fd in rd.fds && rd.fds[fd] == id && id !in open
    requires forall i :: 0 <= i < |rd.parked| ==> rd.parked[i].1 != fd
    ensures ReadersOk(OsClose(rd, fd, id, open))
  {
    hide LeasesOk, ParkedOk, DeferredOk, LocksOk, ClosesOk;
    CloseFdLeases(rd.leases, rd.roles, rd.fds, fd, id);
    CloseFdParked(rd.parked, rd.roles, rd.fds, fd);
    CloseFdDeferred(rd.deferred, rd.readLocks, rd.roles, rd.fds, fd);
    HoldersApart(rd.readLocks, rd.holders, rd.roles, rd.fds, fd);
    CloseFdLocks(rd.readLocks, rd.holders, rd.roles, rd.fds, fd);
    CloseFdLogged(rd.closes, Closed(fd, id, true, false, id in rd.readLocks));
  }

  /** Closing a descriptor a reader gives up, no read lock being held on its inode. */
  lemma CloseLeasedKeeps(rd: Readers, id: Inode, fd: Fd, open: set<Inode>)
    requires ReadersOk(rd) && fd in rd.roles && rd.roles[fd] == Held && fd in rd.fds && rd.fds[fd] == id
    requires id !in rd.readLocks && id !in open
    ensures ReadersOk(CloseLeased(rd, id, fd, open)) && CloseLeased(rd, id, fd, open).leases.Keys <= rd.leases.Keys
  {
    hide LeasesOk, ParkedOk, DeferredOk, LocksOk, ClosesOk, DropLease;
    CloseFdLeases(rd.leases, rd.roles, rd.fds, fd, id);
    HeldIsNotParked(rd.parked, rd.roles, rd.fds, fd);
    CloseFdParked(rd.parked, rd.roles, rd.fds, fd);
    CloseFdDeferred(rd.deferred, rd.readLocks, rd.roles, rd.fds, fd);
    HoldersApart(rd.readLocks, rd.holders, rd.roles, rd.fds, fd);
    CloseFdLocks(rd.readLocks, rd.holders, rd.roles, rd.fds, fd);
    CloseFdLogged(rd.closes, Closed(fd, id, true, false, id in rd.readLocks));
  }

  lemma HeldIsNotParked(parked: seq<(Inode, Fd)>, roles: Roles, fds: Fds, fd: Fd)
    requires ParkedOk(parked, roles, fds) && (fd !in roles || roles[fd] != Parked)
    ensures forall i :: 0 <= i < |parked| ==> parked[i].1 != fd
  {
  }

  // ------------------------------------------------------------------ unparking

  lemma UnparkFirst(parked: seq<(Inode, Fd)>, roles: Roles, fds: Fds)
    requires ParkedOk(parked, roles, fds) && parked != []
    ensures ParkedOk(parked[1..], roles, fds) && forall i :: 0 <= i < |parked[1..]| ==> parked[1..][i].1 != parked[0].1
    ensures parked[0].1 in roles && roles[parked[0].1] == Parked && parked[0].1 in fds && fds[parked[0].1] == parked[0].0
  {
  }

  lemma ParkFirst(parked: seq<(Inode, Fd)>, roles: Roles, fds: Fds, id: Inode, fd: Fd)
    requires ParkedOk(parked, roles, fds) && fd in roles && roles[fd] == Parked && fd in fds && fds[fd] == id
    requires forall i :: 0 <= i < |parked| ==> parked[i].1 != fd
    ensures ParkedOk([(id, fd)] + parked, roles, fds)
  {
  }

  ghost predicate Listed(parked: seq<(Inode, Fd)>, fd: Fd) {
    exists i :: 0 <= i < |parked| && parked[i].1 == fd
  }

  /** Unparking leaves every other descriptor alone, and keeps only parked ones of live inodes. */
  lemma {:induction false} CloseParkedFacts(rd: Readers, live: set<Inode>, open: set<Inode>)
    ensures var after := CloseParked(rd, live, open);
            && after.leases == rd.leases && after.readLocks == rd.readLocks && after.holders == rd.holders && after.deferred == rd.deferred
            && (forall i :: 0 <= i < |after.parked| ==> after.parked[i] in rd.parked && after.parked[i].0 in live)
            && |after.parked| <= |rd.parked|
    decreases |rd.parked|
  {
    if rd.parked != [] {
      var (id, fd) := rd.parked[0];
      var rest := rd.(parked := rd.parked[1..]);
      CloseParkedFacts(if id in live then rest else OsClose(rest, fd, id, open), live, open);
    }
  }

  lemma {:induction false} OthersSurvive(rd: Readers, live: set<Inode>, open: set<Inode>, fd: Fd)
    requires !Listed(rd.parked, fd)
    ensures var after := CloseParked(rd, live, open);
            && (fd in after.roles <==> fd in rd.roles) && (fd in rd.roles ==> after.roles[fd] == rd.roles[fd])
            && (fd in after.fds <==> fd in rd.fds) && (fd in rd.fds ==> after.fds[fd] == rd.fds[fd])
    decreases |rd.parked|
  {
    if rd.parked != [] {
      var rest := rd.(parked := rd.parked[1..]);
      assert !Listed(rest.parked, fd);
      assert rd.parked[0].1 != fd;
      OthersSurvive(if rd.parked[0].0 in live then rest else OsClose(rest, rd.parked[0].1, rd.parked[0].0, open), live, open, fd);
    }
  }

  /** Unparking closes only descriptors of inodes that are not live. */
  lemma {:induction false} CloseParkedKeeps(rd: Readers, live: set<Inode>, open: set<Inode>)
    requires ReadersOk(rd) && open <= live
    ensures ReadersOk(CloseParked(rd, live, open))
    decreases |rd.parked|
  {
    hide LeasesOk, ParkedOk, DeferredOk, LocksOk, ClosesOk;
    if rd.parked != [] {
      var (id, fd) := rd.parked[0];
      var rest := rd.(parked := rd.parked[1..]);
      UnparkFirst(rd.parked, rd.roles, rd.fds);
      if id in live {
        CloseParkedKeeps(rest, live, open);
        CloseParkedFacts(rest, live, open);
        OthersSurvive(rest, live, open, fd);
        var after := CloseParked(rest, live, open);
        ParkFirst(after.parked, after.roles, after.fds, id, fd);
      } else {
        CloseOneParked(rest, fd, id, open);
        CloseParkedKeeps(OsClose(rest, fd, id, open), live, open);
      }
    }
  }

  lemma RolesAreOpen(leases: Leases, roles: Roles, fds: Fds)
    requires LeasesOk(leases, roles, fds)
    ensures forall fd :: fd in roles ==> fd in fds
  {
  }

  // ------------------------------------------------------------------ connections keep the registry

  lemma CloseUnparkedKeeps(s: Registry, p: Probe)
    requires StoresOk(s.stores.(liveCache := None)) && ReadersOk(s.readers) && s.stores.open.Keys !! s.readers.leases.Keys
    ensures Inv(CloseUnparked(s, p))
    ensures CloseUnparked(s, p).stores.conns == s.stores.conns && CloseUnparked(s, p).stores.finalized == s.stores.finalized
    ensures CloseUnparked(s, p).stores.lockFiles == s.stores.lockFiles
    ensures |CloseUnparked(s, p).readers.parked| <= |s.readers.parked|
  {
    hide StoresOk, ReadersOk, LiveIdentities;
    LiveIdentitiesKeeps(s.stores.(liveCache := None), p);
    var st := LiveIdentities(s.stores.(liveCache := None), p);
    assert st.open.Keys <= Union(st.open, st.lockFiles);
    CloseParkedKeeps(s.readers, st.liveCache.value, st.open.Keys);
    CloseParkedFacts(s.readers, st.liveCache.value, st.open.Keys);
  }

  /** The connection side after one count is dropped, others remaining. */
  lemma OneReleased(st: Stores, c: Conn)
    requires StoresOk(st) && c in st.conns && c !in st.released && st.conns[c] in st.open && st.open[st.conns[c]].connections > 1
    ensures StoresOk(st.(released := st.released + {c},
                         open := st.open[st.conns[c] := st.open[st.conns[c]].(connections := st.open[st.conns[c]].connections - 1)]))
  {
    var id := st.conns[c];
    var t := st.(released := st.released + {c}, open := st.open[id := st.open[id].(connections := st.open[id].connections - 1)]);
    UnionOfSidecars(st.open, t.open, st.lockFiles);
    hide Union;
    forall x ensures |ConnsOf(t, x)| == |ConnsOf(st, x)| - (if x == id then 1 else 0) {
      ReleasedConns(st, c, x);
      assert ConnsOf(t, x) == ConnsOf(st.(released := st.released + {c}), x);
    }
  }

  /** ... and after the last one. */
  lemma LastReleased(st: Stores, c: Conn)
    requires StoresOk(st) && c in st.conns && c !in st.released && st.conns[c] in st.open && st.open[st.conns[c]].connections == 1
    ensures StoresOk(st.(released := st.released + {c}, open := st.open - {st.conns[c]}, liveCache := None))
  {
    hide Union;
    var id := st.conns[c];
    var t := st.(released := st.released + {c}, open := st.open - {id}, liveCache := None);
    NoneLeft(st, c, id);
    forall x ensures |ConnsOf(t, x)| == |ConnsOf(st, x)| - (if x == id then 1 else 0) {
      ReleasedConns(st, c, x);
      assert ConnsOf(t, x) == ConnsOf(st.(released := st.released + {c}), x);
    }
  }

  lemma UnionOfSidecars(open: map<Inode, Store>, other: map<Inode, Store>, lockFiles: set<Inode>)
    requires open.Keys == other.Keys && forall id :: id in open ==> open[id].sidecars == other[id].sidecars
    ensures Union(open, lockFiles) == Union(other, lockFiles)
  {
  }

  lemma NoneLeft(st: Stores, c: Conn, id: Inode)
    requires c in ConnsOf(st, id) && |ConnsOf(st, id)| == 1
    ensures forall x :: x in st.conns && x !in st.released && x != c ==> st.conns[x] != id
  {
    forall x | x in st.conns && x !in st.released && x != c ensures st.conns[x] != id {
      if st.conns[x] == id {
        assert {c, x} <= ConnsOf(st, id);
        Subset({c, x}, ConnsOf(st, id));
      }
    }
  }

  lemma {:induction false} Subset<T>(a: set<T>, b: set<T>)
    requires a <= b
    ensures |a| <= |b|
  {
    if a != {} {
      var x :| x in a;
      Subset(a - {x}, b - {x});
    }
  }

  lemma ApplyReleaseKeeps(s: Registry, c: Conn, p: Probe)
    requires Inv(s) && c in s.stores.conns
    ensures Inv(ApplyRelease(s, c, p))
    ensures ApplyRelease(s, c, p).stores.conns == s.stores.conns && ApplyRelease(s, c, p).stores.finalized == s.stores.finalized
    ensures |ApplyRelease(s, c, p).readers.parked| <= |s.readers.parked|
  {
    hide ReadersOk, CloseUnparked, Union;
    var st := s.stores;
    if c !in st.released {
      var id := st.conns[c];
      if st.open[id].connections > 1 { OneReleased(st, c); } else { LastReleased(st, c); }
      hide StoresOk;
      if st.open[id].connections - 1 > 0 {
        var open := st.open[id := st.open[id].(connections := st.open[id].connections - 1)];
        UnionOfSidecars(st.open, open, st.lockFiles);
      } else {
        CloseUnparkedKeeps(s.(stores := st.(released := st.released + {c}, open := st.open - {id})), p);
      }
    }
  }

  lemma {:induction false} DrainKeeps(s: Registry, p: nat -> Probe)
    requires Inv(s) && forall i :: 0 <= i < |s.stores.finalized| ==> s.stores.finalized[i] in s.stores.conns
    ensures Inv(Drain(s, p)) && Drain(s, p).stores.conns == s.stores.conns && Drain(s, p).stores.finalized == []
    ensures |Drain(s, p).readers.parked| <= |s.readers.parked|
    decreases |s.stores.finalized|
  {
    hide ApplyRelease, ReadersOk, Union;
    if s.stores.finalized != [] {
      var c := s.stores.finalized[0];
      var popped := s.(stores := s.stores.(finalized := s.stores.finalized[1..]));
      PoppedStores(s.stores);
      hide StoresOk;
      ApplyReleaseKeeps(popped, c, p(|s.stores.finalized|));
      DrainKeeps(ApplyRelease(popped, c, p(|s.stores.finalized|)), p);
    }
  }

  lemma PoppedStores(st: Stores)
    requires StoresOk(st) && st.finalized != []
    ensures StoresOk(st.(finalized := st.finalized[1..]))
  {
    var t := st.(finalized := st.finalized[1..]);
    forall x ensures ConnsOf(t, x) == ConnsOf(st, x) {}
  }

  /** Dropping stale leases keeps every lease that a descriptor still backs. */
  lemma CheckLeasesKeeps(rd: Readers, id: Inode)
    requires ReadersOk(rd)
    ensures ReadersOk(CheckLeases(rd, id)) && CheckLeases(rd, id).leases.Keys <= rd.leases.Keys
    ensures CheckLeases(rd, id) == rd.(leases := CheckLeases(rd, id).leases)
    ensures id in CheckLeases(rd, id).leases <==> TrueLeases(rd, id) != {}
  {
    hide ParkedOk, DeferredOk, LocksOk, ClosesOk;
    var after := CheckLeases(rd, id);
    forall fd | fd in rd.roles && rd.roles[fd] != Parked ensures Leased(after.leases, rd.fds, fd) {
      if rd.fds[fd] == id { assert fd in TrueLeases(rd, id); }
    }
  }

  /** A connection is registered only on an inode without a lease. */
  lemma DecideKeeps(rd: Readers, r: Readings)
    requires ReadersOk(rd)
    ensures var (outcome, after) := Decide(rd, r);
            && ReadersOk(after) && after.leases.Keys <= rd.leases.Keys && after == rd.(leases := after.leases)
            && (outcome.Registered? ==> outcome.inode !in after.leases)
  {
    hide ReadersOk, CheckLeases;
    if r.check.Some? { CheckLeasesKeeps(rd, r.check.value); }
    var checked := if r.check.Some? then CheckLeases(rd, r.check.value) else rd;
    if r.after.Some? { CheckLeasesKeeps(checked, r.after.value); }
  }

  lemma RegisterKeeps(st: Stores, c: Conn, id: Inode, path: Path, p: Probe)
    requires StoresOk(st) && c !in st.conns
    ensures StoresOk(Register(st, c, id, path, p)) && Register(st, c, id, path, p).open.Keys == st.open.Keys + {id}
    ensures Union(st.open, st.lockFiles) <= Union(Register(st, c, id, path, p).open, st.lockFiles)
  {
    var t := Register(st, c, id, path, p);
    RegisterUnion(st, c, id, path, p);
    forall x | x in t.open ensures t.open[x].connections == |ConnsOf(t, x)| && t.open[x].connections > 0 {
      RegisterCount(st, c, id, path, p, x);
    }
    hide Union, ConnsOf, Recorded;
  }

  lemma RegisterCount(st: Stores, c: Conn, id: Inode, path: Path, p: Probe, x: Inode)
    requires StoresOk(st) && c !in st.conns && (x in st.open || x == id)
    ensures var t := Register(st, c, id, path, p); t.open[x].connections == |ConnsOf(t, x)| && t.open[x].connections > 0
  {
    hide Union;
    var t := Register(st, c, id, path, p);
    assert c !in st.released;
    RegisteredConns(st, c, id, x);
    assert ConnsOf(t, x) == ConnsOf(st.(conns := st.conns[c := id]), x);
    if id !in st.open { NoneCounted(st, id); }
  }

  lemma RegisterUnion(st: Stores, c: Conn, id: Inode, path: Path, p: Probe)
    ensures Union(st.open, st.lockFiles) <= Union(Register(st, c, id, path, p).open, st.lockFiles)
  {
    var t := Register(st, c, id, path, p);
    forall x | x in Union(st.open, st.lockFiles) ensures x in Union(t.open, st.lockFiles) {
      if x !in st.open && x !in st.lockFiles { var k :| k in st.open && x in st.open[k].sidecars; assert x in t.open[k].sidecars; }
    }
  }

  lemma NoneCounted(st: Stores, id: Inode)
    requires StoresOk(st) && id !in st.open
    ensures ConnsOf(st, id) == {}
  {
  }

  // ------------------------------------------------------------------ draining spares what readers have

  /** Everything but parked descriptors is as it was. */
  ghost predicate Spares(rd: Readers, after: Readers) {
    && after.leases == rd.leases && after.readLocks == rd.readLocks && after.holders == rd.holders && after.deferred == rd.deferred
    && forall fd :: fd !in rd.roles || rd.roles[fd] != Parked ==>
         (fd in after.roles <==> fd in rd.roles) && (fd in rd.roles ==> after.roles[fd] == rd.roles[fd])
         && (fd in after.fds <==> fd in rd.fds) && (fd in rd.fds ==> after.fds[fd] == rd.fds[fd])
  }

  lemma CloseUnparkedSpares(s: Registry, p: Probe)
    requires ReadersOk(s.readers)
    ensures Spares(s.readers, CloseUnparked(s, p).readers)
  {
    hide LeasesOk, DeferredOk, LocksOk, ClosesOk, Union, ProbeAll;
    var st := LiveIdentities(s.stores.(liveCache := None), p);
    CloseParkedFacts(s.readers, st.liveCache.value, st.open.Keys);
    var rd := s.readers;
    forall fd | fd !in rd.roles || rd.roles[fd] != Parked ensures !Listed(rd.parked, fd) {
      HeldIsNotParked(rd.parked, rd.roles, rd.fds, fd);
    }
    forall fd | !Listed(rd.parked, fd)
      ensures var after := CloseParked(rd, st.liveCache.value, st.open.Keys);
              && (fd in after.roles <==> fd in rd.roles) && (fd in rd.roles ==> after.roles[fd] == rd.roles[fd])
              && (fd in after.fds <==> fd in rd.fds) && (fd in rd.fds ==> after.fds[fd] == rd.fds[fd])
    {
      OthersSurvive(rd, st.liveCache.value, st.open.Keys, fd);
    }
  }

  lemma {:induction false} DrainSpares(s: Registry, p: nat -> Probe)
    requires Inv(s) && forall i :: 0 <= i < |s.stores.finalized| ==> s.stores.finalized[i] in s.stores.conns
    ensures Spares(s.readers, Drain(s, p).readers)
    decreases |s.stores.finalized|
  {
    hide ReadersOk, Union, CloseUnparked;
    if s.stores.finalized != [] {
      var c := s.stores.finalized[0];
      var popped := s.(stores := s.stores.(finalized := s.stores.finalized[1..]));
      var q := p(|s.stores.finalized|);
      PoppedStores(s.stores);
      hide StoresOk;
      ApplyReleaseKeeps(popped, c, q);
      ReleaseSpares(popped, c, q);
      DrainSpares(ApplyRelease(popped, c, q), p);
    }
  }

  lemma ReleaseSpares(s: Registry, c: Conn, p: Probe)
    requires ReadersOk(s.readers) && c in s.stores.conns
    ensures Spares(s.readers, ApplyRelease(s, c, p).readers)
  {
    hide ReadersOk, CloseUnparked;
    var st := s.stores;
    if c !in st.released && st.conns[c] in st.open && st.open[st.conns[c]].connections - 1 <= 0 {
      CloseUnparkedSpares(s.(stores := st.(released := st.released + {c}, open := st.open - {st.conns[c]})), p);
    }
  }

  // ------------------------------------------------------------------ steps

  /** What happens to the registry, each in one section of the lock. */
  datatype Step =
    | Attempt(c: Conn, path: Path, r: Readings, p: nat -> Probe, q: Probe)
    | CloseConn(c: Conn, p: nat -> Probe, q: Probe)
    | Collect(c: Conn)
    | NoteSidecars(path: Path, named: Option<Inode>, p: nat -> Probe, q: Probe)
    | TrackLockFile(id: Inode, on: bool, q: Probe)
    | OpenFd(fd: Fd, id: Inode)
    | AdmitFd(fd: Fd, p: nat -> Probe, q: Probe)
    | OpenComponent(fd: Fd, named: Option<Inode>, found: Option<Inode>, p: nat -> Probe, q: Probe, late: seq<Conn>, p': nat -> Probe, q': Probe)
    | CloseFd(fd: Fd, p: nat -> Probe)
    | EnterLock(h: Holder, fd: Fd, granted: bool, p: nat -> Probe)
    | ExitLock(h: Holder, p: nat -> Probe)
    | CloseByHand(fd: Fd)

  /** What the callers of each operation keep to: a reader closes a descriptor once, does not close one
      behind a read lock's back, and admits what it has just opened. */
  ghost predicate Can(s: Registry, step: Step) {
    var rd := s.readers;
    match step
    case Attempt(c, path, r, p, q) => c !in s.stores.conns
    case CloseConn(c, p, q) => c in s.stores.conns
    case Collect(c) => c in s.stores.conns
    case NoteSidecars(path, named, p, q) => true
    case TrackLockFile(id, on, q) => true
    case OpenFd(fd, id) => fd !in rd.fds
    case AdmitFd(fd, p, q) => fd in rd.fds && fd !in rd.roles
    case OpenComponent(fd, named, id, p, q, late, p', q') =>
      fd !in rd.fds && forall i :: 0 <= i < |late| ==> late[i] in s.stores.conns
    case CloseFd(fd, p) => fd in rd.roles && rd.roles[fd] == Held
    case EnterLock(h, fd, granted, p) => fd in rd.roles && rd.roles[fd] == Held && h !in rd.holders
    case ExitLock(h, p) => h in rd.holders
    case CloseByHand(fd) =>
      fd in rd.fds && (fd in rd.roles ==> rd.roles[fd] == Held) && forall h :: h in rd.holders ==> rd.holders[h] != fd
  }

  /** is_known_live: by name, before opening; every open is refused once too many are parked. */
  function KnownLive(s: Registry, named: Option<Inode>, q: Probe): (bool, Registry) {
    if |s.readers.parked| >= MAX_PARKED then (true, s)
    else if s.stores.open == map[] && s.stores.lockFiles == {} then (false, s)
    else if named.None? then (false, s)
    else
      var st := LiveIdentities(s.stores, q);
      (named.value in st.liveCache.value, s.(stores := st))
  }

  function Note(st: Stores, path: Path, named: Option<Inode>, q: Probe): Stores {
    if named.None? || named.value !in st.open then st
    else
      var id := named.value;
      var noted := Recorded(st.open[id].(paths := st.open[id].paths + {path}), id, q);
      st.(open := st.open[id := noted], liveCache := if noted.sidecars == st.open[id].sidecars then st.liveCache else None)
  }

  ghost function AfterAttempt(s: Registry, c: Conn, path: Path, r: Readings, p: nat -> Probe, q: Probe): Registry
    requires Inv(s)
  {
    Queued(s.stores);
    var d := Drain(s, p);
    var (outcome, rd) := Decide(d.readers, r);
    if outcome.Registered? then Registry(Register(d.stores, c, outcome.inode, path, q), rd) else d.(readers := rd)
  }

  ghost function AfterOpenComponent(s: Registry, fd: Fd, named: Option<Inode>, id: Option<Inode>, p: nat -> Probe, q: Probe,
                                    late: seq<Conn>, p': nat -> Probe, q': Probe): Registry
    requires Inv(s) && fd !in s.readers.fds && forall i :: 0 <= i < |late| ==> late[i] in s.stores.conns
  {
    Queued(s.stores);
    DrainKeeps(s, p);
    DrainSpares(s, p);
    NotOpen(s.readers, fd);
    var (live, d) := KnownLive(Drain(s, p), named, q);
    if live || id.None? then d
    else
      KnownLiveKeeps(Drain(s, p), named, q);
      OpenedKeeps(d, fd, id.value, late);
      var ready := Registry(d.stores.(finalized := late), d.readers.(fds := d.readers.fds[fd := id.value]));
      DrainSpares(ready, p');
      Admit(Drain(ready, p'), fd, q')
  }

  lemma NotOpen(rd: Readers, fd: Fd)
    requires ReadersOk(rd) && fd !in rd.fds
    ensures fd !in rd.roles
  {
  }

  ghost function AfterCloseFd(s: Registry, fd: Fd, p: nat -> Probe): Registry
    requires Inv(s) && fd in s.readers.roles && s.readers.roles[fd] == Held
  {
    Queued(s.stores);
    DrainSpares(s, p);
    RolesAreOpen(s.readers.leases, s.readers.roles, s.readers.fds);
    var d := Drain(s, p);
    d.(readers := CloseReader(d.readers, fd, d.stores.open.Keys))
  }

  ghost function AfterEnterLock(s: Registry, h: Holder, fd: Fd, granted: bool, p: nat -> Probe): Registry
    requires Inv(s) && fd in s.readers.roles && s.readers.roles[fd] == Held
  {
    Queued(s.stores);
    DrainSpares(s, p);
    RolesAreOpen(s.readers.leases, s.readers.roles, s.readers.fds);
    var d := Drain(s, p);
    if d.readers.fds[fd] in d.readers.readLocks || granted then d.(readers := EnterReadLock(d.readers, h, fd)) else d
  }

  ghost function AfterExitLock(s: Registry, h: Holder, p: nat -> Probe): Registry
    requires Inv(s) && h in s.readers.holders
  {
    Queued(s.stores);
    DrainSpares(s, p);
    DrainKeeps(s, p);
    HolderIsOpen(s.readers, h);
    var d := Drain(s, p);
    HolderIsOpen(d.readers, h);
    d.(readers := ExitReadLock(d.readers, h, d.stores.open.Keys))
  }

  ghost function Next(s: Registry, step: Step): Registry
    requires Inv(s) && Can(s, step)
  {
    Queued(s.stores);
    match step
    case Attempt(c, path, r, p, q) => AfterAttempt(s, c, path, r, p, q)
    case CloseConn(c, p, q) => DrainKeeps(s, p); ApplyRelease(Drain(s, p), c, q)
    case Collect(c) => s.(stores := s.stores.(finalized := s.stores.finalized + [c]))
    case NoteSidecars(path, named, p, q) => var d := Drain(s, p); d.(stores := Note(d.stores, path, named, q))
    case TrackLockFile(id, on, q) =>
      CloseUnparked(s.(stores := s.stores.(lockFiles := if on then s.stores.lockFiles + {id} else s.stores.lockFiles - {id})), q)
    case OpenFd(fd, id) => s.(readers := s.readers.(fds := s.readers.fds[fd := id]))
    case AdmitFd(fd, p, q) => DrainSpares(s, p); Admit(Drain(s, p), fd, q)
    case OpenComponent(fd, named, id, p, q, late, p', q') => AfterOpenComponent(s, fd, named, id, p, q, late, p', q')
    case CloseFd(fd, p) => AfterCloseFd(s, fd, p)
    case EnterLock(h, fd, granted, p) => AfterEnterLock(s, h, fd, granted, p)
    case ExitLock(h, p) => AfterExitLock(s, h, p)
    case CloseByHand(fd) => s.(readers := s.readers.(fds := s.readers.fds - {fd}, roles := s.readers.roles - {fd}))
  }

  lemma Queued(st: Stores)
    requires StoresOk(st)
    ensures forall i :: 0 <= i < |st.finalized| ==> st.finalized[i] in st.conns
  {
  }

  lemma HolderIsOpen(rd: Readers, h: Holder)
    requires ReadersOk(rd) && h in rd.holders
    ensures rd.holders[h] in rd.roles && rd.roles[rd.holders[h]] != Parked
    ensures rd.holders[h] in rd.fds && rd.fds[rd.holders[h]] in rd.readLocks && rd.readLocks[rd.fds[rd.holders[h]]] > 0
  {
  }

  lemma KnownLiveKeeps(s: Registry, named: Option<Inode>, q: Probe)
    requires Inv(s)
    ensures var (live, d) := KnownLive(s, named, q);
            Inv(d) && d.readers == s.readers && d.stores.conns == s.stores.conns && d.stores.finalized == s.stores.finalized
            && (!live ==> |d.readers.parked| < MAX_PARKED)
  {
    hide StoresOk, ReadersOk, LiveIdentities, Union;
    LiveIdentitiesKeeps(s.stores, q);
  }

  lemma OpenedKeeps(s: Registry, fd: Fd, id: Inode, late: seq<Conn>)
    requires Inv(s) && fd !in s.readers.fds && forall i :: 0 <= i < |late| ==> late[i] in s.stores.conns
    ensures Inv(Registry(s.stores.(finalized := late), s.readers.(fds := s.readers.fds[fd := id])))
    ensures fd !in s.readers.roles
  {
    OpenedReaders(s.readers, fd, id);
    hide ReadersOk, Union;
    var t := s.stores.(finalized := late);
    forall x ensures ConnsOf(t, x) == ConnsOf(s.stores, x) {}
  }

  lemma OpenedReaders(rd: Readers, fd: Fd, id: Inode)
    requires ReadersOk(rd) && fd !in rd.fds
    ensures ReadersOk(rd.(fds := rd.fds[fd := id])) && fd !in rd.roles
  {
    var fds := rd.fds[fd := id];
    OpenedLeases(rd.leases, rd.roles, rd.fds, fds, fd);
    OpenedDeferred(rd.deferred, rd.readLocks, rd.roles, rd.fds, fds, fd);
    OpenedLocks(rd.readLocks, rd.holders, rd.roles, rd.fds, fds, fd);
    hide LeasesOk, DeferredOk, LocksOk, ClosesOk;
  }

  lemma OpenedLeases(leases: Leases, roles: Roles, fds: Fds, more: Fds, fd: Fd)
    requires LeasesOk(leases, roles, fds) && fd !in fds && more - {fd} == fds && fd in more
    ensures LeasesOk(leases, roles, more) && fd !in roles
  {
    forall x | x in fds ensures x in more && more[x] == fds[x] { assert x in more - {fd} && (more - {fd})[x] == more[x]; }
  }

  lemma OpenedDeferred(deferred: map<Inode, seq<Fd>>, readLocks: map<Inode, nat>, roles: Roles, fds: Fds, more: Fds, fd: Fd)
    requires DeferredOk(deferred, readLocks, roles, fds) && fd !in fds && more - {fd} == fds
    ensures DeferredOk(deferred, readLocks, roles, more)
  {
    forall x | x in fds ensures x in more && more[x] == fds[x] { assert x in more - {fd} && (more - {fd})[x] == more[x]; }
  }

  lemma OpenedLocks(readLocks: map<Inode, nat>, holders: map<Holder, Fd>, roles: Roles, fds: Fds, more: Fds, fd: Fd)
    requires LocksOk(readLocks, holders, roles, fds) && fd !in fds && more - {fd} == fds
    ensures LocksOk(readLocks, holders, roles, more)
  {
    forall x | x in fds ensures x in more && more[x] == fds[x] { assert x in more - {fd} && (more - {fd})[x] == more[x]; }
    forall x ensures HoldersOf(holders, more, x) == HoldersOf(holders, fds, x) {}
  }

  // ------------------------------------------------------------------ every step keeps the invariant

  lemma AdmitKeeps(s: Registry, fd: Fd, q: Probe)
    requires Inv(s) && fd in s.readers.fds && fd !in s.readers.roles
    ensures Inv(Admit(s, fd, q)) && |Admit(s, fd, q).readers.parked| <= |s.readers.parked| + 1
  {
    hide StoresOk, LeasesOk, ParkedOk, DeferredOk, LocksOk, ClosesOk, LiveIdentities, Union;
    var rd := s.readers;
    LiveIdentitiesKeeps(s.stores, q);
    var st := LiveIdentities(s.stores, q);
    StoresAreLive(s.stores.open, s.stores.lockFiles);
    StoresAreLive(st.open, st.lockFiles);
    ParkReader(rd, fd);
    LeaseReader(rd, fd);
    NothingOpen(s.stores);
    if s.stores.open == map[] && s.stores.lockFiles == {} {
      LeasedApart(s, rd.fds[fd]);
    } else if rd.fds[fd] in st.liveCache.value {
    } else {
      LeasedApart(Registry(st, rd), rd.fds[fd]);
    }
  }

  /** A descriptor is parked if and only if its inode is an open store, a sidecar or a lock file. */
  lemma AdmitIff(s: Registry, fd: Fd, q: Probe)
    requires Inv(s) && fd in s.readers.fds
    ensures var t := Admit(s, fd, q);
            && t.readers.fds == s.readers.fds && fd in t.readers.roles && t.readers.roles[fd] in {Parked, Held}
            && (t.readers.roles[fd] == Parked <==> s.readers.fds[fd] in Union(t.stores.open, t.stores.lockFiles))
            && (t.readers.roles[fd] == Parked ==> t.readers.parked == s.readers.parked + [(s.readers.fds[fd], fd)])
            && (t.readers.roles[fd] == Held ==> Leased(t.readers.leases, t.readers.fds, fd) && t.readers.parked == s.readers.parked)
  {
    hide ReadersOk, StoresOk, LiveIdentities, Union;
    LiveIdentitiesKeeps(s.stores, q);
    NothingOpen(s.stores);
  }

  /** The check by name refuses exactly a name that is live after a look at the names not recorded yet, and
      everything once the cap is reached. */
  lemma KnownLiveIff(s: Registry, named: Option<Inode>, q: Probe)
    requires Inv(s)
    ensures var (live, t) := KnownLive(s, named, q);
            && t.readers == s.readers
            && (live <==> |s.readers.parked| >= 64 || (named.Some? && named.value in Union(t.stores.open, t.stores.lockFiles)))
  {
    hide ReadersOk, StoresOk, LiveIdentities, Union;
    LiveIdentitiesKeeps(s.stores, q);
    NothingOpen(s.stores);
  }

  lemma NothingOpen(st: Stores)
    ensures st.open == map[] && st.lockFiles == {} ==> Union(st.open, st.lockFiles) == {}
  {
  }

  /** A lease on an inode that is no open store. */
  lemma LeasedApart(s: Registry, id: Inode)
    requires s.stores.open.Keys !! s.readers.leases.Keys && id !in s.stores.open
    ensures s.stores.open.Keys !! s.readers.leases.Keys + {id}
  {
  }

  lemma StoresAreLive(open: map<Inode, Store>, lockFiles: set<Inode>)
    ensures open.Keys <= Union(open, lockFiles)
  {
  }

  lemma ParkReader(rd: Readers, fd: Fd)
    requires ReadersOk(rd) && fd in rd.fds && fd !in rd.roles
    ensures ReadersOk(rd.(parked := rd.parked + [(rd.fds[fd], fd)], roles := rd.roles[fd := Parked]))
  {
    var roles := rd.roles[fd := Parked];
    RoleLeases(rd.leases, rd.roles, rd.fds, fd, Parked);
    RoleParked(rd.parked, rd.roles, rd.fds, fd, Parked);
    RoleDeferred(rd.deferred, rd.readLocks, rd.roles, rd.fds, fd, Parked);
    RoleLocks(rd.readLocks, rd.holders, rd.roles, rd.fds, fd, Parked);
    hide LeasesOk, ParkedOk, DeferredOk, LocksOk, ClosesOk;
    ParkLast(rd.parked, roles, rd.fds, rd.fds[fd], fd);
  }

  lemma ParkLast(parked: seq<(Inode, Fd)>, roles: Roles, fds: Fds, id: Inode, fd: Fd)
    requires ParkedOk(parked, roles, fds) && fd in roles && roles[fd] == Parked && fd in fds && fds[fd] == id
    requires forall i :: 0 <= i < |parked| ==> parked[i].1 != fd
    ensures ParkedOk(parked + [(id, fd)], roles, fds)
  {
  }

  lemma LeaseReader(rd: Readers, fd: Fd)
    requires ReadersOk(rd) && fd in rd.fds && fd !in rd.roles
    ensures var id := rd.fds[fd];
            var leases := rd.leases[id := (if id in rd.leases then rd.leases[id] else {}) + {fd}];
            ReadersOk(rd.(leases := leases, roles := rd.roles[fd := Held]))
  {
    var id := rd.fds[fd];
    var leases := rd.leases[id := (if id in rd.leases then rd.leases[id] else {}) + {fd}];
    LeaseMore(rd.leases, rd.roles, rd.fds, leases, fd);
    RoleParked(rd.parked, rd.roles, rd.fds, fd, Held);
    RoleDeferred(rd.deferred, rd.readLocks, rd.roles, rd.fds, fd, Held);
    RoleLocks(rd.readLocks, rd.holders, rd.roles, rd.fds, fd, Held);
    hide LeasesOk, ParkedOk, DeferredOk, LocksOk, ClosesOk;
  }

  lemma LeaseMore(leases: Leases, roles: Roles, fds: Fds, more: Leases, fd: Fd)
    requires LeasesOk(leases, roles, fds) && fd in fds
    requires more == leases[fds[fd] := (if fds[fd] in leases then leases[fds[fd]] else {}) + {fd}]
    ensures LeasesOk(more, roles[fd := Held], fds)
  {
  }

  /** A role for a descriptor that had none, or a new one that is not asked to be put off. */
  lemma RoleLeases(leases: Leases, roles: Roles, fds: Fds, fd: Fd, role: Role)
    requires LeasesOk(leases, roles, fds) && fd in fds && (role != Parked ==> Leased(leases, fds, fd))
    ensures LeasesOk(leases, roles[fd := role], fds)
  {
  }

  lemma RoleParked(parked: seq<(Inode, Fd)>, roles: Roles, fds: Fds, fd: Fd, role: Role)
    requires ParkedOk(parked, roles, fds) && (fd !in roles || roles[fd] != Parked)
    ensures ParkedOk(parked, roles[fd := role], fds) && forall i :: 0 <= i < |parked| ==> parked[i].1 != fd
  {
  }

  lemma RoleDeferred(deferred: map<Inode, seq<Fd>>, readLocks: map<Inode, nat>, roles: Roles, fds: Fds, fd: Fd, role: Role)
    requires DeferredOk(deferred, readLocks, roles, fds) && fd in fds && (fd in roles ==> roles[fd] != Deferred) && role != Deferred
    ensures DeferredOk(deferred, readLocks, roles[fd := role], fds)
  {
  }

  lemma RoleLocks(readLocks: map<Inode, nat>, holders: map<Holder, Fd>, roles: Roles, fds: Fds, fd: Fd, role: Role)
    requires LocksOk(readLocks, holders, roles, fds) && (fd !in roles || role != Parked)
    ensures LocksOk(readLocks, holders, roles[fd := role], fds)
  {
  }

  /** Putting a close off. */
  lemma DeferKeeps(rd: Readers, fd: Fd)
    requires ReadersOk(rd) && fd in rd.roles && rd.roles[fd] == Held && fd in rd.fds && rd.fds[fd] in rd.readLocks
    ensures var id := rd.fds[fd];
            ReadersOk(rd.(deferred := rd.deferred[id := (if id in rd.deferred then rd.deferred[id] else []) + [fd]],
                          roles := rd.roles[fd := Deferred]))
  {
    var id := rd.fds[fd];
    var deferred := rd.deferred[id := (if id in rd.deferred then rd.deferred[id] else []) + [fd]];
    HeldLeased(rd.leases, rd.roles, rd.fds, fd);
    RoleLeases(rd.leases, rd.roles, rd.fds, fd, Deferred);
    RoleParked(rd.parked, rd.roles, rd.fds, fd, Deferred);
    DeferOne(rd.deferred, rd.readLocks, rd.roles, rd.fds, deferred, fd);
    RoleLocks(rd.readLocks, rd.holders, rd.roles, rd.fds, fd, Deferred);
    hide LeasesOk, ParkedOk, DeferredOk, LocksOk, ClosesOk;
  }

  lemma HeldLeased(leases: Leases, roles: Roles, fds: Fds, fd: Fd)
    requires LeasesOk(leases, roles, fds) && fd in roles && roles[fd] != Parked
    ensures Leased(leases, fds, fd)
  {
  }

  lemma DeferOne(deferred: map<Inode, seq<Fd>>, readLocks: map<Inode, nat>, roles: Roles, fds: Fds, more: map<Inode, seq<Fd>>, fd: Fd)
    requires DeferredOk(deferred, readLocks, roles, fds) && fd in fds && fds[fd] in readLocks && fd in roles && roles[fd] == Held
    requires more == deferred[fds[fd] := (if fds[fd] in deferred then deferred[fds[fd]] else []) + [fd]]
    ensures DeferredOk(more, readLocks, roles[fd := Deferred], fds)
  {
    var id := fds[fd];
    var was := if id in deferred then deferred[id] else [];
    assert fd !in was;
    forall i, j | 0 <= i < j < |was + [fd]| ensures (was + [fd])[i] != (was + [fd])[j] {}
  }

  lemma CloseReaderKeeps(s: Registry, fd: Fd)
    requires Inv(s) && fd in s.readers.roles && s.readers.roles[fd] == Held && fd in s.readers.fds
    ensures Inv(s.(readers := CloseReader(s.readers, fd, s.stores.open.Keys)))
  {
    hide StoresOk, LeasesOk, ParkedOk, DeferredOk, LocksOk, ClosesOk, Union;
    var rd := s.readers;
    var id := rd.fds[fd];
    HeldLeased(rd.leases, rd.roles, rd.fds, fd);
    if id in rd.readLocks { DeferKeeps(rd, fd); } else { CloseLeasedKeeps(rd, id, fd, s.stores.open.Keys); }
  }

  // ------------------------------------------------------------------ read locks

  lemma EnterKeeps(rd: Readers, h: Holder, fd: Fd)
    requires ReadersOk(rd) && fd in rd.roles && rd.roles[fd] == Held && fd in rd.fds && h !in rd.holders
    ensures ReadersOk(EnterReadLock(rd, h, fd))
  {
    var after := EnterReadLock(rd, h, fd);
    EnterLocks(rd.readLocks, rd.holders, rd.roles, rd.fds, h, fd);
    MoreLocked(rd.deferred, rd.readLocks, after.readLocks, rd.roles, rd.fds);
    hide LeasesOk, ParkedOk, DeferredOk, LocksOk, ClosesOk;
  }

  lemma MoreLocked(deferred: map<Inode, seq<Fd>>, readLocks: map<Inode, nat>, more: map<Inode, nat>, roles: Roles, fds: Fds)
    requires DeferredOk(deferred, readLocks, roles, fds) && forall id :: id in deferred && id in readLocks ==> id in more
    ensures DeferredOk(deferred, more, roles, fds)
  {
  }

  lemma EnterLocks(readLocks: map<Inode, nat>, holders: map<Holder, Fd>, roles: Roles, fds: Fds, h: Holder, fd: Fd)
    requires LocksOk(readLocks, holders, roles, fds) && fd in roles && roles[fd] == Held && fd in fds && h !in holders
    ensures LocksOk(readLocks[fds[fd] := (if fds[fd] in readLocks then readLocks[fds[fd]] else 0) + 1], holders[h := fd], roles, fds)
  {
    var id := fds[fd];
    var after := holders[h := fd];
    forall x ensures |HoldersOf(after, fds, x)| == |HoldersOf(holders, fds, x)| + (if x == id then 1 else 0) {
      OneMoreHolder(holders, fds, h, fd, x);
    }
    if id !in readLocks { assert HoldersOf(holders, fds, id) == {}; }
    hide HoldersOf;
  }

  lemma OneMoreHolder(holders: map<Holder, Fd>, fds: Fds, h: Holder, fd: Fd, x: Inode)
    requires fd in fds && h !in holders
    ensures |HoldersOf(holders[h := fd], fds, x)| == |HoldersOf(holders, fds, x)| + (if x == fds[fd] then 1 else 0)
  {
    var after := holders[h := fd];
    if x == fds[fd] {
      assert HoldersOf(after, fds, x) == HoldersOf(holders, fds, x) + {h};
    } else {
      assert HoldersOf(after, fds, x) == HoldersOf(holders, fds, x);
    }
  }

  lemma LeaveLocks(readLocks: map<Inode, nat>, holders: map<Holder, Fd>, roles: Roles, fds: Fds, h: Holder)
    requires LocksOk(readLocks, holders, roles, fds) && h in holders && holders[h] in fds && fds[holders[h]] in readLocks
    ensures var id := fds[holders[h]];
            && (readLocks[id] > 1 ==> LocksOk(readLocks[id := readLocks[id] - 1], holders - {h}, roles, fds))
            && (readLocks[id] == 1 ==> LocksOk(readLocks - {id}, holders - {h}, roles, fds))
  {
    var id := fds[holders[h]];
    var after := holders - {h};
    assert HoldersOf(after, fds, id) == HoldersOf(holders, fds, id) - {h};
    forall x | x != id ensures HoldersOf(after, fds, x) == HoldersOf(holders, fds, x) {}
    if readLocks[id] == 1 {
      assert |HoldersOf(after, fds, id)| == 0;
      assert forall k :: k in after ==> k !in HoldersOf(after, fds, id);
    }
  }

  /** The closes put off for an inode fall due. */
  lemma ReturnDeferred(deferred: map<Inode, seq<Fd>>, readLocks: map<Inode, nat>, roles: Roles, fds: Fds, id: Inode, pending: seq<Fd>)
    requires DeferredOk(deferred, readLocks, roles, fds) && pending == (if id in deferred then deferred[id] else [])
    ensures DeferredOk(deferred - {id}, readLocks - {id}, Returned(roles, pending), fds) && NoDup(pending)
    ensures forall fd :: fd in pending ==> fd in roles && roles[fd] == Deferred && fd in fds && fds[fd] == id
  {
    var after := Returned(roles, pending);
    forall fd | fd in after && after[fd] == Deferred
      ensures fd in fds && fds[fd] in deferred - {id} && fd in (deferred - {id})[fds[fd]]
    {
      assert fd in roles && roles[fd] == Deferred && fd !in pending;
    }
    forall x, fd | x in deferred - {id} && fd in deferred[x] ensures fd in after && after[fd] == Deferred && fd in fds && fds[fd] == x {
      assert fds[fd] == x;
    }
  }

  lemma ReturnOthers(leases: Leases, parked: seq<(Inode, Fd)>, readLocks: map<Inode, nat>, holders: map<Holder, Fd>, roles: Roles, fds: Fds, pending: seq<Fd>)
    requires LeasesOk(leases, roles, fds) && ParkedOk(parked, roles, fds) && LocksOk(readLocks, holders, roles, fds)
    requires forall fd :: fd in pending ==> fd in roles && roles[fd] == Deferred
    ensures LeasesOk(leases, Returned(roles, pending), fds) && ParkedOk(parked, Returned(roles, pending), fds)
    ensures LocksOk(readLocks, holders, Returned(roles, pending), fds)
  {
  }

  lemma {:induction false} CloseAllKeeps(rd: Readers, id: Inode, fds: seq<Fd>, open: set<Inode>)
    requires ReadersOk(rd) && id !in rd.readLocks && id !in open && NoDup(fds)
    requires forall fd :: fd in fds ==> fd in rd.roles && rd.roles[fd] == Held && fd in rd.fds && rd.fds[fd] == id
    ensures var after := CloseAll(rd, id, fds, open);
            && ReadersOk(after) && after.leases.Keys <= rd.leases.Keys && after.parked == rd.parked
            && forall fd :: fd in after.fds <==> fd in rd.fds && fd !in fds
    decreases |fds|
  {
    hide LeasesOk, ParkedOk, DeferredOk, LocksOk, ClosesOk, DropLease;
    if fds != [] {
      CloseLeasedKeeps(rd, id, fds[0], open);
      assert fds[0] !in fds[1..];
      assert fds == [fds[0]] + fds[1..];
      CloseAllKeeps(CloseLeased(rd, id, fds[0], open), id, fds[1..], open);
    }
  }

  /** Leaving a read lock; the last holder's exit closes exactly the descriptors put off for that inode. */
  lemma ExitKeeps(rd: Readers, h: Holder, open: set<Inode>)
    requires ReadersOk(rd) && h in rd.holders && open !! rd.leases.Keys
    requires rd.holders[h] in rd.fds && rd.fds[rd.holders[h]] in rd.readLocks && rd.readLocks[rd.fds[rd.holders[h]]] > 0
    ensures var after, id := ExitReadLock(rd, h, open), rd.fds[rd.holders[h]];
            && ReadersOk(after) && after.leases.Keys <= rd.leases.Keys && after.parked == rd.parked
            && (forall fd :: fd in after.fds <==> fd in rd.fds && !(rd.readLocks[id] == 1 && id in rd.deferred && fd in rd.deferred[id]))
  {
    var id := rd.fds[rd.holders[h]];
    var pending := if id in rd.deferred then rd.deferred[id] else [];
    LeaveLocks(rd.readLocks, rd.holders, rd.roles, rd.fds, h);
    HolderLeased(rd, h);
    if rd.readLocks[id] > 1 {
      MoreLocked(rd.deferred, rd.readLocks, rd.readLocks[id := rd.readLocks[id] - 1], rd.roles, rd.fds);
    } else {
      ReturnDeferred(rd.deferred, rd.readLocks, rd.roles, rd.fds, id, pending);
      ReturnOthers(rd.leases, rd.parked, rd.readLocks - {id}, rd.holders - {h}, rd.roles, rd.fds, pending);
      hide LeasesOk, ParkedOk, DeferredOk, LocksOk, ClosesOk;
      CloseAllKeeps(rd.(holders := rd.holders - {h}, readLocks := rd.readLocks - {id}, deferred := rd.deferred - {id},
                        roles := Returned(rd.roles, pending)), id, pending, open);
    }
  }

  lemma HolderLeased(rd: Readers, h: Holder)
    requires ReadersOk(rd) && h in rd.holders && rd.holders[h] in rd.fds
    ensures rd.fds[rd.holders[h]] in rd.leases
  {
  }

  lemma AttemptKeeps(s: Registry, c: Conn, path: Path, r: Readings, p: nat -> Probe, q: Probe)
    requires Inv(s) && c !in s.stores.conns
    ensures Inv(AfterAttempt(s, c, path, r, p, q)) && |AfterAttempt(s, c, path, r, p, q).readers.parked| <= |s.readers.parked|
  {
    Queued(s.stores);
    DrainKeeps(s, p);
    var d := Drain(s, p);
    hide StoresOk, LeasesOk, ParkedOk, DeferredOk, LocksOk, ClosesOk, Union, Decide, Register, Drain, Apart;
    DecideKeeps(d.readers, r);
    var (outcome, rd) := Decide(d.readers, r);
    if outcome.Registered? {
      RegisteredKeeps(d, rd, c, outcome.inode, path, q);
    } else {
      FewerLeases(d, rd);
    }
  }

  lemma RegisteredKeeps(d: Registry, rd: Readers, c: Conn, id: Inode, path: Path, q: Probe)
    requires Inv(d) && ReadersOk(rd) && rd == d.readers.(leases := rd.leases) && rd.leases.Keys <= d.readers.leases.Keys
    requires c !in d.stores.conns && id !in rd.leases
    ensures Inv(Registry(Register(d.stores, c, id, path, q), rd))
  {
    hide StoresOk, ReadersOk, Union, Register;
    RegisterKeeps(d.stores, c, id, path, q);
    RegisterFields(d.stores, c, id, path, q);
  }

  lemma FewerLeases(d: Registry, rd: Readers)
    requires Inv(d) && ReadersOk(rd) && rd == d.readers.(leases := rd.leases) && rd.leases.Keys <= d.readers.leases.Keys
    ensures Inv(d.(readers := rd))
  {
    hide StoresOk, ReadersOk, Union;
  }

  lemma RegisterFields(st: Stores, c: Conn, id: Inode, path: Path, p: Probe)
    ensures Register(st, c, id, path, p).lockFiles == st.lockFiles
  {
  }

  lemma NoteKeeps(s: Registry, path: Path, named: Option<Inode>, q: Probe)
    requires Inv(s)
    ensures Inv(s.(stores := Note(s.stores, path, named, q)))
  {
    hide ReadersOk;
    var st := s.stores;
    var t := Note(st, path, named, q);
    forall x ensures ConnsOf(t, x) == ConnsOf(st, x) {}
    if named.Some? && named.value in st.open {
      if t.open[named.value].sidecars == st.open[named.value].sidecars { UnionOfSidecars(st.open, t.open, st.lockFiles); }
      UnionGrows(st.open, t.open, st.lockFiles);
    }
    hide ConnsOf, Union;
  }

  lemma UnionGrows(open: map<Inode, Store>, more: map<Inode, Store>, lockFiles: set<Inode>)
    requires open.Keys <= more.Keys && forall id :: id in open ==> open[id].sidecars <= more[id].sidecars
    ensures Union(open, lockFiles) <= Union(more, lockFiles)
  {
    forall x | x in Union(open, lockFiles) ensures x in Union(more, lockFiles) {
      if x !in open && x !in lockFiles { var k :| k in open && x in open[k].sidecars; assert x in more[k].sidecars; }
    }
  }

  lemma OpenComponentKeeps(s: Registry, fd: Fd, named: Option<Inode>, id: Option<Inode>, p: nat -> Probe, q: Probe,
                           late: seq<Conn>, p': nat -> Probe, q': Probe)
    requires Inv(s) && fd !in s.readers.fds && forall i :: 0 <= i < |late| ==> late[i] in s.stores.conns
    ensures var t := AfterOpenComponent(s, fd, named, id, p, q, late, p', q');
            Inv(t) && (|s.readers.parked| <= MAX_PARKED ==> |t.readers.parked| <= MAX_PARKED)
  {
    Queued(s.stores);
    NotOpen(s.readers, fd);
    hide StoresOk, ReadersOk, Union, Drain, Admit, KnownLive;
    DrainKeeps(s, p);
    DrainSpares(s, p);
    KnownLiveKeeps(Drain(s, p), named, q);
    var (live, d) := KnownLive(Drain(s, p), named, q);
    if !live && id.Some? {
      OpenedKeeps(d, fd, id.value, late);
      ReadyKeeps(Registry(d.stores.(finalized := late), d.readers.(fds := d.readers.fds[fd := id.value])), fd, p', q');
    }
  }

  /** A descriptor just opened, admitted after one more drain. */
  lemma ReadyKeeps(ready: Registry, fd: Fd, p: nat -> Probe, q: Probe)
    requires Inv(ready) && fd in ready.readers.fds && fd !in ready.readers.roles
    requires forall i :: 0 <= i < |ready.stores.finalized| ==> ready.stores.finalized[i] in ready.stores.conns
    ensures fd in Drain(ready, p).readers.fds && Inv(Admit(Drain(ready, p), fd, q))
    ensures |Admit(Drain(ready, p), fd, q).readers.parked| <= |ready.readers.parked| + 1
  {
    hide StoresOk, ReadersOk, Union, Drain, Admit;
    DrainSpares(ready, p);
    DrainKeeps(ready, p);
    AdmitKeeps(Drain(ready, p), fd, q);
  }

  /** A reader's open goes through exactly if there is something to open, fewer than 64 descriptors are
      parked, and the name is not one of a live store, sidecar or lock file after a look at the names not
      recorded yet. */
  lemma OpenComponentIff(s: Registry, fd: Fd, named: Option<Inode>, id: Option<Inode>, p: nat -> Probe, q: Probe,
                         late: seq<Conn>, p': nat -> Probe, q': Probe)
    requires Inv(s) && fd !in s.readers.fds && forall i :: 0 <= i < |late| ==> late[i] in s.stores.conns
    ensures (Queued(s.stores); var d, t := Drain(s, p), AfterOpenComponent(s, fd, named, id, p, q, late, p', q');
            && (fd in t.readers.fds <==>
                  id.Some? && |d.readers.parked| < 64
                  && !(named.Some? && named.value in Union(ProbeAll(d.stores.open, q), d.stores.lockFiles)))
            && (fd in t.readers.fds ==> t.readers.fds[fd] == id.value && fd in t.readers.roles))
  {
    Queued(s.stores);
    NotOpen(s.readers, fd);
    hide Inv, Union, Drain, Admit, KnownLive;
    DrainKeeps(s, p);
    DrainSpares(s, p);
    var d := Drain(s, p);
    KnownLiveKeeps(d, named, q);
    KnownLiveProbes(d, named, q);
    var (live, e) := KnownLive(d, named, q);
    if !live && id.Some? {
      OpenedKeeps(e, fd, id.value, late);
      var ready := Registry(e.stores.(finalized := late), e.readers.(fds := e.readers.fds[fd := id.value]));
      ReadyOpens(ready, fd, p', q');
    }
  }

  lemma ReadyOpens(ready: Registry, fd: Fd, p: nat -> Probe, q: Probe)
    requires Inv(ready) && fd in ready.readers.fds && fd !in ready.readers.roles
    requires forall i :: 0 <= i < |ready.stores.finalized| ==> ready.stores.finalized[i] in ready.stores.conns
    ensures fd in Drain(ready, p).readers.fds
    ensures var t := Admit(Drain(ready, p), fd, q);
            fd in t.readers.fds && t.readers.fds[fd] == ready.readers.fds[fd] && fd in t.readers.roles
  {
    hide Inv, Drain, Admit;
    DrainSpares(ready, p);
    DrainKeeps(ready, p);
    AdmitIff(Drain(ready, p), fd, q);
  }

  lemma KnownLiveProbes(s: Registry, named: Option<Inode>, q: Probe)
    requires Inv(s)
    ensures KnownLive(s, named, q).0 <==>
              |s.readers.parked| >= 64 || (named.Some? && named.value in Union(ProbeAll(s.stores.open, q), s.stores.lockFiles))
  {
    hide ReadersOk, StoresOk;
    LiveIdentitiesKeeps(s.stores, q);
  }

  lemma CloseFdKeeps(s: Registry, fd: Fd, p: nat -> Probe)
    requires Inv(s) && fd in s.readers.roles && s.readers.roles[fd] == Held
    ensures Inv(AfterCloseFd(s, fd, p)) && |AfterCloseFd(s, fd, p).readers.parked| <= |s.readers.parked|
  {
    Queued(s.stores);
    RolesAreOpen(s.readers.leases, s.readers.roles, s.readers.fds);
    hide StoresOk, ReadersOk, Union, Drain;
    DrainSpares(s, p);
    DrainKeeps(s, p);
    CloseReaderKeeps(Drain(s, p), fd);
  }

  lemma EnterLockKeeps(s: Registry, h: Holder, fd: Fd, granted: bool, p: nat -> Probe)
    requires Inv(s) && fd in s.readers.roles && s.readers.roles[fd] == Held && h !in s.readers.holders
    ensures Inv(AfterEnterLock(s, h, fd, granted, p)) && |AfterEnterLock(s, h, fd, granted, p).readers.parked| <= |s.readers.parked|
  {
    Queued(s.stores);
    RolesAreOpen(s.readers.leases, s.readers.roles, s.readers.fds);
    hide StoresOk, ReadersOk, Union, Drain;
    DrainSpares(s, p);
    DrainKeeps(s, p);
    EnterKeeps(Drain(s, p).readers, h, fd);
  }

  lemma ExitLockKeeps(s: Registry, h: Holder, p: nat -> Probe)
    requires Inv(s) && h in s.readers.holders
    ensures Inv(AfterExitLock(s, h, p)) && |AfterExitLock(s, h, p).readers.parked| <= |s.readers.parked|
  {
    Queued(s.stores);
    hide StoresOk, ReadersOk, Union, Drain, ExitReadLock, Spares;
    var d := Drain(s, p);
    DrainKeeps(s, p);
    DrainHolders(s, p);
    HolderIsOpen(d.readers, h);
    ExitOk(d, h);
  }

  lemma DrainHolders(s: Registry, p: nat -> Probe)
    requires Inv(s) && forall i :: 0 <= i < |s.stores.finalized| ==> s.stores.finalized[i] in s.stores.conns
    ensures Drain(s, p).readers.holders == s.readers.holders
  {
    hide StoresOk, ReadersOk, Union, Drain;
    DrainSpares(s, p);
  }

  lemma ExitOk(d: Registry, h: Holder)
    requires Inv(d) && h in d.readers.holders
    requires d.readers.holders[h] in d.readers.fds && d.readers.fds[d.readers.holders[h]] in d.readers.readLocks
    requires d.readers.readLocks[d.readers.fds[d.readers.holders[h]]] > 0
    ensures Inv(d.(readers := ExitReadLock(d.readers, h, d.stores.open.Keys)))
    ensures |ExitReadLock(d.readers, h, d.stores.open.Keys).parked| <= |d.readers.parked|
  {
    hide StoresOk, ReadersOk, Union, ExitReadLock;
    ExitKeeps(d.readers, h, d.stores.open.Keys);
  }

  lemma ByHandKeeps(rd: Readers, fd: Fd)
    requires ReadersOk(rd) && fd in rd.fds && (fd in rd.roles ==> rd.roles[fd] == Held) && forall h :: h in rd.holders ==> rd.holders[h] != fd
    ensures ReadersOk(rd.(fds := rd.fds - {fd}, roles := rd.roles - {fd}))
  {
    hide LeasesOk, ParkedOk, DeferredOk, LocksOk, ClosesOk;
    CloseFdLeases(rd.leases, rd.roles, rd.fds, fd, rd.fds[fd]);
    HeldIsNotParked(rd.parked, rd.roles, rd.fds, fd);
    CloseFdParked(rd.parked, rd.roles, rd.fds, fd);
    CloseFdLocks(rd.readLocks, rd.holders, rd.roles, rd.fds, fd);
    NotDeferred(rd.deferred, rd.readLocks, rd.roles, rd.fds, fd);
  }

  lemma NotDeferred(deferred: map<Inode, seq<Fd>>, readLocks: map<Inode, nat>, roles: Roles, fds: Fds, fd: Fd)
    requires DeferredOk(deferred, readLocks, roles, fds) && (fd in roles ==> roles[fd] != Deferred)
    ensures DeferredOk(deferred, readLocks, roles - {fd}, fds - {fd})
  {
  }

  lemma StoreStepKeeps(s: Registry, step: Step)
    requires Inv(s) && Can(s, step) && (step.CloseConn? || step.Collect? || step.NoteSidecars? || step.TrackLockFile?)
    ensures Inv(Next(s, step)) && |Next(s, step).readers.parked| <= |s.readers.parked|
  {
    Queued(s.stores);
    hide ReadersOk, Union, Drain, Note, ApplyRelease, CloseUnparked;
    match step
    case CloseConn(c, p, q) =>
      DrainKeeps(s, p);
      ApplyReleaseKeeps(Drain(s, p), c, q);
    case Collect(c) =>
      var t := s.stores.(finalized := s.stores.finalized + [c]);
      forall x ensures ConnsOf(t, x) == ConnsOf(s.stores, x) {}
    case NoteSidecars(path, named, p, q) =>
      DrainKeeps(s, p);
      NoteKeeps(Drain(s, p), path, named, q);
    case TrackLockFile(id, on, q) =>
      var t := s.stores.(lockFiles := if on then s.stores.lockFiles + {id} else s.stores.lockFiles - {id});
      forall x ensures ConnsOf(t.(liveCache := None), x) == ConnsOf(s.stores, x) {}
      CloseUnparkedKeeps(s.(stores := t), q);
  }

  lemma ReaderStepKeeps(s: Registry, step: Step)
    requires Inv(s) && Can(s, step) && (step.OpenFd? || step.AdmitFd? || step.CloseByHand?)
    ensures Inv(Next(s, step)) && (!step.AdmitFd? ==> |Next(s, step).readers.parked| <= |s.readers.parked|)
  {
    Queued(s.stores);
    hide StoresOk, ReadersOk, Union, Drain, Admit;
    match step
    case OpenFd(fd, id) => OpenedReaders(s.readers, fd, id);
    case AdmitFd(fd, p, q) =>
      DrainKeeps(s, p);
      DrainSpares(s, p);
      AdmitKeeps(Drain(s, p), fd, q);
    case CloseByHand(fd) => ByHandKeeps(s.readers, fd);
  }

  /** Every step keeps the invariant; only a reader admitted outside open_component_fd can exceed the cap. */
  lemma NextKeeps(s: Registry, step: Step)
    requires Inv(s) && Can(s, step)
    ensures Inv(Next(s, step))
    ensures !step.AdmitFd? && |s.readers.parked| <= MAX_PARKED ==> |Next(s, step).readers.parked| <= MAX_PARKED
  {
    hide Inv, AfterAttempt, AfterOpenComponent, AfterCloseFd, AfterEnterLock, AfterExitLock;
    match step
    case Attempt(c, path, r, p, q) => AttemptKeeps(s, c, path, r, p, q);
    case OpenComponent(fd, named, id, p, q, late, p', q') => OpenComponentKeeps(s, fd, named, id, p, q, late, p', q');
    case CloseFd(fd, p) => CloseFdKeeps(s, fd, p);
    case EnterLock(h, fd, granted, p) => EnterLockKeeps(s, h, fd, granted, p);
    case ExitLock(h, p) => ExitLockKeeps(s, h, p);
    case CloseConn(_, _, _) => StoreStepKeeps(s, step);
    case Collect(_) => StoreStepKeeps(s, step);
    case NoteSidecars(_, _, _, _) => StoreStepKeeps(s, step);
    case TrackLockFile(_, _, _) => StoreStepKeeps(s, step);
    case OpenFd(_, _) => ReaderStepKeeps(s, step);
    case AdmitFd(_, _, _) => ReaderStepKeeps(s, step);
    case CloseByHand(_) => ReaderStepKeeps(s, step);
  }
}

/**
 Which closes of this module drop a read lock, in every run. Closing any descriptor of an inode drops the
 process's locks on it; readers' closes are put off for that reason, parked descriptors are closed as
 soon as their inode is not live any more.
 */
module LiveStoreLocks {
  import opened Prelude
  import opened LiveStores
  import opened LiveStoreRuns

  // ------------------------------------------------------------------ the inodes a step finds no longer live

  ghost function NotLive(st: Stores): iset<Inode> {
    iset id: Inode | id !in Union(st.open, st.lockFiles)
  }

  /** What the release of a connection finds not live, if it is its store's last and so unparks. */
  ghost function ReleaseFinds(s: Registry, c: Conn, p: Probe): iset<Inode>
    requires c in s.stores.conns
  {
    var st := s.stores;
    if c !in st.released && st.conns[c] in st.open && st.open[st.conns[c]].connections <= 1 then NotLive(ApplyRelease(s, c, p).stores)
    else iset{}
  }

  ghost function DrainFinds(s: Registry, p: nat -> Probe): iset<Inode>
    requires forall i :: 0 <= i < |s.stores.finalized| ==> s.stores.finalized[i] in s.stores.conns
    decreases |s.stores.finalized|
  {
    if s.stores.finalized == [] then iset{} else
    var c := s.stores.finalized[0];
    var popped := s.(stores := s.stores.(finalized := s.stores.finalized[1..]));
    ReleaseKeepsQueue(popped, c, p(|s.stores.finalized|));
    ReleaseFinds(popped, c, p(|s.stores.finalized|)) + DrainFinds(ApplyRelease(popped, c, p(|s.stores.finalized|)), p)
  }

  /** What open_component_fd's second drain finds, if it gets that far. */
  ghost function LateFinds(s: Registry, fd: Fd, named: Option<Inode>, id: Option<Inode>, p: nat -> Probe, q: Probe,
                           late: seq<Conn>, p': nat -> Probe): iset<Inode>
    requires Inv(s) && fd !in s.readers.fds && forall i :: 0 <= i < |late| ==> late[i] in s.stores.conns
  {
    Queued(s.stores);
    DrainKeeps(s, p);
    KnownLiveKeeps(Drain(s, p), named, q);
    var (live, d) := KnownLive(Drain(s, p), named, q);
    if live || id.None? then iset{}
    else DrainFinds(Registry(d.stores.(finalized := late), d.readers.(fds := d.readers.fds[fd := id.value])), p')
  }

  /** The inodes that were not live at some unparking of the step. */
  ghost function Finds(s: Registry, step: Step): iset<Inode>
    requires Inv(s) && Can(s, step)
  {
    Queued(s.stores);
    match step
    case Attempt(_, _, _, p, _) => DrainFinds(s, p)
    case CloseConn(c, p, q) => DrainKeeps(s, p); DrainFinds(s, p) + ReleaseFinds(Drain(s, p), c, q)
    case NoteSidecars(_, _, p, _) => DrainFinds(s, p)
    case TrackLockFile(_, _, _) => NotLive(Next(s, step).stores)
    case AdmitFd(_, p, _) => DrainFinds(s, p)
    case OpenComponent(fd, named, id, p, q, late, p', _) => DrainFinds(s, p) + LateFinds(s, fd, named, id, p, q, late, p')
    case CloseFd(_, p) => DrainFinds(s, p)
    case EnterLock(_, _, _, p) => DrainFinds(s, p)
    case ExitLock(_, p) => DrainFinds(s, p)
    case _ => iset{}
  }

  // ------------------------------------------------------------------ what unparking closes

  /** `after` differs from `rd` by unparking: exactly the parked descriptors of inodes found not live were
      closed, and each close was logged with whether a read lock was held on its inode. */
  ghost predicate Unparked(rd: Readers, after: Readers, found: iset<Inode>) {
    && after.readLocks == rd.readLocks && rd.closes <= after.closes
    && (forall k :: |rd.closes| <= k < |after.closes| ==> FromParked(rd, found, after.closes[k]))
    && (forall x :: x in rd.parked && x.0 in found ==> ClosedSince(|rd.closes|, after.closes, x))
    && (forall x :: x in after.parked ==> x in rd.parked)
    && (forall x :: x in rd.parked && x.0 !in found ==> x in after.parked)
  }

  ghost predicate FromParked(rd: Readers, found: iset<Inode>, one: Closed) {
    (one.inode, one.fd) in rd.parked && one.inode in found && (one.onReadLock <==> one.inode in rd.readLocks)
  }

  ghost predicate ClosedSince(n: nat, closes: seq<Closed>, x: (Inode, Fd)) {
    exists k :: n <= k < |closes| && (closes[k].inode, closes[k].fd) == x
  }

  lemma UnparkedNone(rd: Readers)
    ensures Unparked(rd, rd, iset{})
  {
  }

  /** Two unparkings in a row are one. */
  lemma UnparkedTwice(a: Readers, b: Readers, c: Readers, f: iset<Inode>, g: iset<Inode>)
    requires Unparked(a, b, f) && Unparked(b, c, g)
    ensures Unparked(a, c, f + g)
  {
    forall x | x in a.parked && x.0 in f + g ensures ClosedSince(|a.closes|, c.closes, x) {
      if x.0 in f {
        var k :| |a.closes| <= k < |b.closes| && (b.closes[k].inode, b.closes[k].fd) == x;
        assert c.closes[k] == b.closes[k];
      } else {
        var k :| |b.closes| <= k < |c.closes| && (c.closes[k].inode, c.closes[k].fd) == x;
      }
    }
    forall k | |a.closes| <= k < |c.closes| ensures FromParked(a, f + g, c.closes[k]) {
      if k < |b.closes| { assert c.closes[k] == b.closes[k]; } else { assert FromParked(b, g, c.closes[k]); }
    }
  }

  lemma {:induction false} CloseParkedUnparks(rd: Readers, live: set<Inode>, open: set<Inode>)
    ensures Unparked(rd, CloseParked(rd, live, open), iset id: Inode | id !in live)
    decreases |rd.parked|
  {
    var found := iset id: Inode | id !in live;
    if rd.parked != [] {
      var (id, fd) := rd.parked[0];
      var rest := rd.(parked := rd.parked[1..]);
      assert rd.parked == [(id, fd)] + rest.parked;
      if id in live {
        CloseParkedUnparks(rest, live, open);
        OneKept(rd, rest, CloseParked(rest, live, open), found);
      } else {
        var closed := OsClose(rest, fd, id, open);
        CloseParkedUnparks(closed, live, open);
        OneClosed(rd, closed, CloseParked(closed, live, open), found);
      }
    }
  }

  lemma OneKept(rd: Readers, rest: Readers, after: Readers, found: iset<Inode>)
    requires rd.parked != [] && rest == rd.(parked := rd.parked[1..]) && rd.parked[0].0 !in found && Unparked(rest, after, found)
    ensures Unparked(rd, after.(parked := [rd.parked[0]] + after.parked), found)
  {
    assert rd.parked == [rd.parked[0]] + rest.parked;
    var all := after.(parked := [rd.parked[0]] + after.parked);
    forall k | |rd.closes| <= k < |all.closes| ensures FromParked(rd, found, all.closes[k]) {
      assert FromParked(rest, found, after.closes[k]);
    }
  }

  lemma OneClosed(rd: Readers, closed: Readers, after: Readers, found: iset<Inode>)
    requires rd.parked != [] && closed.parked == rd.parked[1..] && closed.readLocks == rd.readLocks && rd.parked[0].0 in found
    requires |closed.closes| == |rd.closes| + 1 && rd.closes <= closed.closes
    requires var one := closed.closes[|rd.closes|]; (one.inode, one.fd) == rd.parked[0] && (one.onReadLock <==> one.inode in rd.readLocks)
    requires Unparked(closed, after, found)
    ensures Unparked(rd, after, found)
  {
    assert rd.parked == [rd.parked[0]] + closed.parked;
    forall k | |rd.closes| <= k < |after.closes| ensures FromParked(rd, found, after.closes[k]) {
      if k == |rd.closes| { assert after.closes[k] == closed.closes[k]; } else { assert FromParked(closed, found, after.closes[k]); }
    }
    forall x | x in rd.parked && x.0 in found ensures ClosedSince(|rd.closes|, after.closes, x) {
      if x == rd.parked[0] {
        assert after.closes[|rd.closes|] == closed.closes[|rd.closes|];
      } else {
        assert ClosedSince(|closed.closes|, after.closes, x);
      }
    }
  }

  lemma CloseUnparkedUnparks(s: Registry, p: Probe)
    ensures Unparked(s.readers, CloseUnparked(s, p).readers, NotLive(CloseUnparked(s, p).stores))
  {
    hide Union, Unparked, ProbeAll, CloseParked;
    var st := LiveIdentities(s.stores.(liveCache := None), p);
    CloseParkedUnparks(s.readers, st.liveCache.value, st.open.Keys);
    assert (iset id: Inode | id !in st.liveCache.value) == NotLive(st);
  }

  lemma ReleaseUnparks(s: Registry, c: Conn, p: Probe)
    requires c in s.stores.conns
    ensures Unparked(s.readers, ApplyRelease(s, c, p).readers, ReleaseFinds(s, c, p))
  {
    hide Unparked, CloseUnparked, NotLive;
    var st := s.stores;
    UnparkedNone(s.readers);
    if c !in st.released && st.conns[c] in st.open && st.open[st.conns[c]].connections <= 1 {
      CloseUnparkedUnparks(s.(stores := st.(released := st.released + {c}, open := st.open - {st.conns[c]})), p);
    }
  }

  lemma {:induction false} DrainUnparks(s: Registry, p: nat -> Probe)
    requires forall i :: 0 <= i < |s.stores.finalized| ==> s.stores.finalized[i] in s.stores.conns
    ensures Unparked(s.readers, Drain(s, p).readers, DrainFinds(s, p))
    decreases |s.stores.finalized|
  {
    hide Unparked, ApplyRelease, ReleaseFinds;
    if s.stores.finalized == [] {
      UnparkedNone(s.readers);
    } else {
      var c := s.stores.finalized[0];
      var popped := s.(stores := s.stores.(finalized := s.stores.finalized[1..]));
      var q := p(|s.stores.finalized|);
      ReleaseKeepsQueue(popped, c, q);
      var next := ApplyRelease(popped, c, q);
      ReleaseUnparks(popped, c, q);
      DrainUnparks(next, p);
      UnparkedTwice(s.readers, next.readers, Drain(next, p).readers, ReleaseFinds(popped, c, q), DrainFinds(next, p));
    }
  }

  // ------------------------------------------------------------------ what a step closes

  /** The closes a step logged: it unparked, and then perhaps closed descriptors that were not parked and
      on whose inode no read lock was held. */
  ghost predicate Logged(rd: Readers, after: Readers, found: iset<Inode>) {
    exists mid :: Unparked(rd, mid, found) && Quietly(rd, mid, after)
  }

  ghost predicate Quietly(rd: Readers, mid: Readers, after: Readers) {
    mid.closes <= after.closes
    && forall k :: |mid.closes| <= k < |after.closes| ==>
         !after.closes[k].onReadLock && (after.closes[k].inode, after.closes[k].fd) !in rd.parked
  }

  /** The closes the step logged dropped a read lock exactly if they were of parked descriptors of
      read-locked inodes found not live; and every such descriptor was closed. */
  lemma LoggedDrops(rd: Readers, after: Readers, found: iset<Inode>)
    requires Logged(rd, after, found)
    ensures rd.closes <= after.closes
    ensures forall k :: |rd.closes| <= k < |after.closes| ==>
              (after.closes[k].onReadLock <==>
                 (after.closes[k].inode, after.closes[k].fd) in rd.parked && after.closes[k].inode in found
                 && after.closes[k].inode in rd.readLocks)
    ensures forall x :: x in rd.parked && x.0 in found ==> ClosedSince(|rd.closes|, after.closes, x)
  {
    var mid :| Unparked(rd, mid, found) && Quietly(rd, mid, after);
    forall k | |rd.closes| <= k < |mid.closes| ensures after.closes[k] == mid.closes[k] && FromParked(rd, found, mid.closes[k]) {}
    forall x | x in rd.parked && x.0 in found ensures ClosedSince(|rd.closes|, after.closes, x) {
      var k :| |rd.closes| <= k < |mid.closes| && (mid.closes[k].inode, mid.closes[k].fd) == x;
      assert after.closes[k] == mid.closes[k];
    }
  }

  lemma Unlogged(rd: Readers, mid: Readers, after: Readers, found: iset<Inode>)
    requires Unparked(rd, mid, found) && after.closes == mid.closes
    ensures Logged(rd, after, found)
  {
    assert Quietly(rd, mid, after);
  }

  lemma NotParked(rd: Readers, id: Inode, fd: Fd)
    requires ReadersOk(rd) && fd in rd.roles && rd.roles[fd] != Parked
    ensures (id, fd) !in rd.parked
  {
    hide LeasesOk, DeferredOk, LocksOk, ClosesOk;
    HeldIsNotParked(rd.parked, rd.roles, rd.fds, fd);
  }

  lemma {:induction false} CloseAllLogs(rd: Readers, id: Inode, fds: seq<Fd>, open: set<Inode>)
    requires id !in rd.readLocks
    ensures var after := CloseAll(rd, id, fds, open);
            rd.closes <= after.closes
            && forall k :: |rd.closes| <= k < |after.closes| ==>
                 !after.closes[k].onReadLock && after.closes[k].inode == id && after.closes[k].fd in fds
    decreases |fds|
  {
    hide DropLease;
    if fds != [] {
      var one := CloseLeased(rd, id, fds[0], open);
      CloseAllLogs(one, id, fds[1..], open);
      var after := CloseAll(rd, id, fds, open);
      forall k | |rd.closes| <= k < |after.closes|
        ensures !after.closes[k].onReadLock && after.closes[k].inode == id && after.closes[k].fd in fds
      {
        if k == |rd.closes| { assert after.closes[k] == one.closes[k]; }
      }
    }
  }

  lemma CloseFdLogs(s: Registry, fd: Fd, p: nat -> Probe)
    requires Inv(s) && fd in s.readers.roles && s.readers.roles[fd] == Held
    ensures (Queued(s.stores); Logged(s.readers, AfterCloseFd(s, fd, p).readers, DrainFinds(s, p)))
  {
    Queued(s.stores);
    RolesAreOpen(s.readers.leases, s.readers.roles, s.readers.fds);
    NotParked(s.readers, s.readers.fds[fd], fd);
    hide StoresOk, ReadersOk, Union, Drain, DrainFinds, Unparked;
    DrainSpares(s, p);
    DrainUnparks(s, p);
    var d := Drain(s, p);
    assert Quietly(s.readers, d.readers, AfterCloseFd(s, fd, p).readers);
  }

  lemma ExitLockLogs(s: Registry, h: Holder, p: nat -> Probe)
    requires Inv(s) && h in s.readers.holders
    ensures (Queued(s.stores); Logged(s.readers, AfterExitLock(s, h, p).readers, DrainFinds(s, p)))
  {
    Queued(s.stores);
    DrainKeeps(s, p);
    DrainUnparks(s, p);
    var d := Drain(s, p);
    DrainSpares(s, p);
    HolderIsOpen(d.readers, h);
    DeferredNotParked(s, d.readers);
    hide StoresOk, ReadersOk, Union, Drain, DrainFinds, Unparked;
    ExitLogs(s.readers, d.readers, h, d.stores.open.Keys);
    assert Quietly(s.readers, d.readers, AfterExitLock(s, h, p).readers);
  }

  /** What is put off is not parked. */
  lemma DeferredNotParked(s: Registry, d: Readers)
    requires Inv(s) && d.deferred == s.readers.deferred
    ensures forall id, fd :: id in d.deferred && fd in d.deferred[id] ==> (id, fd) !in s.readers.parked
  {
    hide StoresOk, LeasesOk, LocksOk, ClosesOk, Apart;
    forall id, fd | id in d.deferred && fd in d.deferred[id] ensures (id, fd) !in s.readers.parked {
      hide ParkedOk;
      NotParked(s.readers, id, fd);
    }
  }

  lemma ExitLogs(rd: Readers, d: Readers, h: Holder, open: set<Inode>)
    requires h in d.holders && d.holders[h] in d.fds && d.fds[d.holders[h]] in d.readLocks && d.readLocks[d.fds[d.holders[h]]] > 0
    requires forall id, fd :: id in d.deferred && fd in d.deferred[id] ==> (id, fd) !in rd.parked
    ensures Quietly(rd, d, ExitReadLock(d, h, open))
  {
    var id := d.fds[d.holders[h]];
    if d.readLocks[id] <= 1 {
      var pending := if id in d.deferred then d.deferred[id] else [];
      CloseAllLogs(d.(holders := d.holders - {h}, readLocks := d.readLocks - {id}, deferred := d.deferred - {id},
                      roles := Returned(d.roles, pending)), id, pending, open);
    }
  }

  lemma OpenComponentLogs(s: Registry, fd: Fd, named: Option<Inode>, id: Option<Inode>, p: nat -> Probe, q: Probe,
                          late: seq<Conn>, p': nat -> Probe, q': Probe)
    requires Inv(s) && fd !in s.readers.fds && forall i :: 0 <= i < |late| ==> late[i] in s.stores.conns
    ensures (Queued(s.stores); Logged(s.readers, AfterOpenComponent(s, fd, named, id, p, q, late, p', q').readers,
                   DrainFinds(s, p) + LateFinds(s, fd, named, id, p, q, late, p')))
  {
    Queued(s.stores);
    NotOpen(s.readers, fd);
    hide StoresOk, ReadersOk, Union, Drain, DrainFinds, KnownLive, Unparked, Logged;
    DrainKeeps(s, p);
    DrainSpares(s, p);
    DrainUnparks(s, p);
    KnownLiveKeeps(Drain(s, p), named, q);
    var (live, d) := KnownLive(Drain(s, p), named, q);
    if live || id.None? {
      assert DrainFinds(s, p) + iset{} == DrainFinds(s, p);
      Unlogged(s.readers, d.readers, d.readers, DrainFinds(s, p));
    } else {
      OpenedKeeps(d, fd, id.value, late);
      var ready := Registry(d.stores.(finalized := late), d.readers.(fds := d.readers.fds[fd := id.value]));
      DrainSpares(ready, p');
      DrainUnparks(ready, p');
      SameLog(d.readers, ready.readers, Drain(ready, p').readers, DrainFinds(ready, p'));
      UnparkedTwice(s.readers, d.readers, Drain(ready, p').readers, DrainFinds(s, p), DrainFinds(ready, p'));
      AdmitLogs(Drain(ready, p'), fd, q');
      Unlogged(s.readers, Drain(ready, p').readers, Admit(Drain(ready, p'), fd, q').readers, DrainFinds(s, p) + DrainFinds(ready, p'));
    }
  }

  lemma SameLog(rd: Readers, more: Readers, after: Readers, found: iset<Inode>)
    requires Unparked(more, after, found) && more.parked == rd.parked && more.readLocks == rd.readLocks && more.closes == rd.closes
    ensures Unparked(rd, after, found)
  {
    forall k | |rd.closes| <= k < |after.closes| ensures FromParked(rd, found, after.closes[k]) {
      assert FromParked(more, found, after.closes[k]);
    }
  }

  lemma AdmitLogs(s: Registry, fd: Fd, q: Probe)
    requires fd in s.readers.fds
    ensures Admit(s, fd, q).readers.closes == s.readers.closes
  {
  }

  lemma AttemptLogs(s: Registry, c: Conn, path: Path, r: Readings, p: nat -> Probe, q: Probe)
    requires Inv(s)
    ensures (Queued(s.stores); Logged(s.readers, AfterAttempt(s, c, path, r, p, q).readers, DrainFinds(s, p)))
  {
    Queued(s.stores);
    hide Inv, Drain, DrainFinds, Unparked, Logged, Register, CheckLeases;
    DrainUnparks(s, p);
    var d := Drain(s, p);
    CheckLogs(d.readers);
    Unlogged(s.readers, d.readers, AfterAttempt(s, c, path, r, p, q).readers, DrainFinds(s, p));
  }

  lemma CheckLogs(rd: Readers)
    ensures forall id :: CheckLeases(rd, id).closes == rd.closes
    ensures forall id, k :: CheckLeases(CheckLeases(rd, id), k).closes == rd.closes
  {
  }

  lemma StoreStepLogs(s: Registry, step: Step)
    requires Inv(s) && Can(s, step) && (step.CloseConn? || step.Collect? || step.NoteSidecars? || step.TrackLockFile?)
    ensures Logged(s.readers, Next(s, step).readers, Finds(s, step))
  {
    Queued(s.stores);
    hide StoresOk, ReadersOk, Union, Drain, DrainFinds, ReleaseFinds, ApplyRelease, Unparked, Logged, Note;
    match step
    case CloseConn(c, p, q) =>
      DrainKeeps(s, p);
      DrainUnparks(s, p);
      var d := Drain(s, p);
      ReleaseUnparks(d, c, q);
      UnparkedTwice(s.readers, d.readers, ApplyRelease(d, c, q).readers, DrainFinds(s, p), ReleaseFinds(d, c, q));
      Unlogged(s.readers, Next(s, step).readers, Next(s, step).readers, Finds(s, step));
    case Collect(c) =>
      UnparkedNone(s.readers);
      Unlogged(s.readers, s.readers, s.readers, iset{});
    case NoteSidecars(path, named, p, q) =>
      DrainUnparks(s, p);
      Unlogged(s.readers, Next(s, step).readers, Next(s, step).readers, Finds(s, step));
    case TrackLockFile(id, on, q) =>
      var t := s.(stores := s.stores.(lockFiles := if on then s.stores.lockFiles + {id} else s.stores.lockFiles - {id}));
      CloseUnparkedUnparks(t, q);
      Unlogged(s.readers, Next(s, step).readers, Next(s, step).readers, Finds(s, step));
  }

  lemma ReaderStepLogs(s: Registry, step: Step)
    requires Inv(s) && Can(s, step) && (step.OpenFd? || step.AdmitFd? || step.EnterLock? || step.CloseByHand?)
    ensures Logged(s.readers, Next(s, step).readers, Finds(s, step))
  {
    Queued(s.stores);
    UnparkedNone(s.readers);
    hide StoresOk, ReadersOk, Union, Drain, DrainFinds, Unparked, Logged, Admit;
    match step
    case OpenFd(fd, id) => Unlogged(s.readers, s.readers, Next(s, step).readers, iset{});
    case AdmitFd(fd, p, q) =>
      DrainUnparks(s, p);
      DrainSpares(s, p);
      AdmitLogs(Drain(s, p), fd, q);
      Unlogged(s.readers, Drain(s, p).readers, Next(s, step).readers, Finds(s, step));
    case EnterLock(h, fd, granted, p) =>
      DrainUnparks(s, p);
      Unlogged(s.readers, Drain(s, p).readers, Next(s, step).readers, Finds(s, step));
    case CloseByHand(fd) => Unlogged(s.readers, s.readers, Next(s, step).readers, iset{});
  }

  lemma StepLogs(s: Registry, step: Step)
    requires Inv(s) && Can(s, step)
    ensures Logged(s.readers, Next(s, step).readers, Finds(s, step))
  {
    Queued(s.stores);
    hide Inv, AfterAttempt, AfterOpenComponent, AfterCloseFd, AfterExitLock, Logged, DrainFinds, LateFinds;
    match step
    case Attempt(c, path, r, p, q) => AttemptLogs(s, c, path, r, p, q);
    case OpenComponent(fd, named, id, p, q, late, p', q') => OpenComponentLogs(s, fd, named, id, p, q, late, p', q');
    case CloseFd(fd, p) => CloseFdLogs(s, fd, p);
    case ExitLock(h, p) => ExitLockLogs(s, h, p);
    case CloseConn(_, _, _) => StoreStepLogs(s, step);
    case Collect(_) => StoreStepLogs(s, step);
    case NoteSidecars(_, _, _, _) => StoreStepLogs(s, step);
    case TrackLockFile(_, _, _) => StoreStepLogs(s, step);
    case OpenFd(_, _) => ReaderStepLogs(s, step);
    case AdmitFd(_, _, _) => ReaderStepLogs(s, step);
    case EnterLock(_, _, _, _) => ReaderStepLogs(s, step);
    case CloseByHand(_) => ReaderStepLogs(s, step);
  }

  // ------------------------------------------------------------------ in every run

  /** A close among those logged from the `n`-th on dropped a read lock. */
  ghost predicate DroppedSince(n: nat, closes: seq<Closed>) {
    exists k :: n <= k < |closes| && closes[k].onReadLock
  }

  /** In every reachable state, a close of the next step, whichever it is, drops a read lock if and only
      if it is of a descriptor that was parked, on a read-locked inode that the step found not live; and
      the step drops one if and only if there is such a descriptor. No close a reader asks for, at once
      or when the last holder leaves, drops one. */
  lemma DropsReadLockIff(steps: seq<Step>, t: Registry, step: Step)
    requires Reaches(steps, t) && Can(t, step)
    ensures (ReachedIsOk(steps, t); var after, found := Next(t, step).readers, Finds(t, step);
            && t.readers.closes <= after.closes
            && (forall k :: |t.readers.closes| <= k < |after.closes| ==>
                  (after.closes[k].onReadLock <==>
                     (after.closes[k].inode, after.closes[k].fd) in t.readers.parked && after.closes[k].inode in found
                     && after.closes[k].inode in t.readers.readLocks))
            && (DroppedSince(|t.readers.closes|, after.closes) <==>
                  exists x :: x in t.readers.parked && x.0 in found && x.0 in t.readers.readLocks))
  {
    hide Reaches, Inv, Can, Next, Finds, Logged;
    ReachedIsOk(steps, t);
    var after, found := Next(t, step).readers, Finds(t, step);
    StepLogs(t, step);
    LoggedDrops(t.readers, after, found);
    if x :| x in t.readers.parked && x.0 in found && x.0 in t.readers.readLocks {
      var k :| |t.readers.closes| <= k < |after.closes| && (after.closes[k].inode, after.closes[k].fd) == x;
      assert after.closes[k].onReadLock;
    }
  }
}

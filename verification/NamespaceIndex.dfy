/**
 The incremental refresh of a namespace's index against a store that other processes write at any
 moment: between reading the change token, the change feed, each row's proof and each row's vector.
 `history(t)` is the store at tick t.
 */
module NamespaceIndex {
  import opened Prelude
  import opened SlotMatrix
  import opened SpaceIndex

  const FEED_LIMIT := 256

  datatype Row = Row(active: bool, rowid: nat, updated: nat, proof: Option<Proof>)

  datatype Store = Store(rows: map<Id, Row>, epoch: nat, clock: nat)

  type History = nat -> Store

  datatype Token = Token(insertSeq: nat, top: nat, epoch: nat)

  function RowAt(s: Store, id: Id): Option<Row> {
    if id in s.rows then Some(s.rows[id]) else None
  }

  function ProofAt(s: Store, id: Id): Option<Proof> {
    if id in s.rows then s.rows[id].proof else None
  }

  function ActiveProof(s: Store, id: Id): Option<Proof> {
    if id in s.rows && s.rows[id].active then s.rows[id].proof else None
  }

  /** What a vector record says of itself: an unusable proof reads back as none. */
  function Usable(proof: Option<Proof>): Option<Proof> {
    if proof.Some? && proof.value.Proof? then proof else None
  }

  function TokenOf(s: Store): Token {
    Token(Greatest(set id | id in s.rows :: s.rows[id].rowid), Greatest(set id | id in s.rows :: s.rows[id].updated), s.epoch)
  }

  /** Rows inserted or stamped since a token; the top row's own stamp is read again. */
  function Feed(s: Store, since: Token): set<Id> {
    set id | id in s.rows && (s.rows[id].rowid > since.insertSeq || s.rows[id].updated >= since.top)
  }

  // ------------------------------------------------------------------ what writers do

  /** A write: rows that change are stamped with the clock or newly inserted above every rowid; a
      delete bumps the epoch; a row never gets a smaller rowid. */
  ghost predicate Writes(s: Store, s': Store) {
    && s.clock <= s'.clock && s.epoch <= s'.epoch
    && (forall id :: id in s.rows && id !in s'.rows ==> s'.epoch > s.epoch)
    && (forall id :: id in s.rows && id in s'.rows ==> s'.rows[id].rowid >= s.rows[id].rowid)
    && (forall id :: id in s'.rows && RowAt(s, id) != RowAt(s', id) ==>
          s'.rows[id].updated >= s.clock || (id !in s.rows && forall k :: k in s.rows ==> s'.rows[id].rowid > s.rows[k].rowid))
  }

  ghost predicate Written(h: History) {
    && (forall t: nat :: Writes(h(t), h(t + 1)))
    && (forall t: nat, id :: id in h(t).rows ==> h(t).rows[id].updated <= h(t).clock)
  }

  /** Up to a tick, no proof that this row has lost has come back to it. */
  ghost predicate NoReturn(h: History, id: Id, till: nat) {
    forall a: nat, b: nat, c: nat :: a < b < c <= till && ProofAt(h(a), id).Some? && ProofAt(h(b), id) != ProofAt(h(a), id) ==>
      ProofAt(h(c), id) != ProofAt(h(a), id)
  }

  ghost predicate Unchanged(h: History, id: Id, from: nat, till: nat) {
    forall t: nat :: from <= t <= till ==> RowAt(h(t), id) == RowAt(h(from), id)
  }

  // ------------------------------------------------------------------ the cached index

  /** The index, the tick its recorded token was read at, whether it was given up as too big, and the
      present tick. */
  datatype Cached = Cached(ix: Index, asOf: Option<nat>, oversize: bool, now: nat)

  const EMPTY_INDEX := Index(map[], map[])

  /** The ticks of one refresh: token, feed, each id's proof, each id's vector record. */
  datatype Reads = Reads(token: nat, feed: nat, proof: Id -> nat, record: Id -> nat, end: nat)

  ghost predicate InOrder(from: nat, r: Reads) {
    from <= r.token <= r.feed && (forall id :: r.feed <= r.proof(id) <= r.record(id) <= r.end) && r.feed <= r.end
  }

  ghost predicate Synced(h: History, ix: Index, ix': Index, full: bool, feed: set<Id>, r: Reads) {
    forall id :: At(ix', id) ==
      SyncOne(At(ix, id), full, id in feed, ActiveProof(h(r.proof(id)), id), Usable(ProofAt(h(r.record(id)), id)))
  }

  /** Whether the change feed can be used, and does not overflow. */
  ghost predicate Incremental(h: History, c: Cached, r: Reads, due: bool) {
    c.asOf.Some? && !due
    && h(r.token).epoch == h(c.asOf.value).epoch
    && TokenOf(h(r.token)).insertSeq >= TokenOf(h(c.asOf.value)).insertSeq
    && |Feed(h(r.feed), TokenOf(h(c.asOf.value)))| <= FEED_LIMIT
  }

  /** Nothing to read: the token stands, or the index has been given up, and no reconcile is due. */
  ghost predicate Quiet(h: History, c: Cached, r: Reads, due: bool) {
    c.asOf.Some? && !due && (TokenOf(h(r.token)) == TokenOf(h(c.asOf.value)) || c.oversize)
  }

  /** One refresh. `due`: the periodic reconcile is due; `large`: the index exceeds its budget. */
  ghost predicate Refreshed(h: History, c: Cached, c': Cached, r: Reads, due: bool, large: bool) {
    InOrder(c.now, r) && c'.now == r.end
    && if Quiet(h, c, r, due) then
         c'.asOf == c.asOf && if large then c'.oversize && c'.ix == EMPTY_INDEX else c'.oversize == c.oversize && c'.ix == c.ix
       else
         c'.asOf == Some(r.token)
         && if large then c'.oversize && c'.ix == EMPTY_INDEX
            else !c'.oversize
                 && var full := !Incremental(h, c, r, due);
                    Synced(h, c.ix, c'.ix, full, if full then {} else Feed(h(r.feed), TokenOf(h(c.asOf.value))), r)
  }

  /** A row this process has just written is indexed from its current stored vector. */
  ghost predicate Added(h: History, c: Cached, c': Cached, id: Id) {
    Usable(ProofAt(h(c.now), id)).Some?
    && c' == c.(ix := Index(c.ix.proofs, With(c.ix.held, id, PlaceOf(ProofAt(h(c.now), id).value))))
  }

  datatype Step = Refresh(r: Reads, due: bool, large: bool) | Add(id: Id) | Elapse

  ghost predicate Next(h: History, c: Cached, c': Cached, step: Step) {
    match step
    case Refresh(r, due, large) => Refreshed(h, c, c', r, due, large)
    case Add(id) => Added(h, c, c', id)
    case Elapse => c'.now >= c.now && c' == c.(now := c'.now)
  }

  ghost predicate Run(h: History, states: seq<Cached>, steps: seq<Step>) {
    |states| == |steps| + 1 && states[0].asOf == None && states[0].ix == EMPTY_INDEX
    && forall i :: 0 <= i < |steps| ==> Next(h, states[i], states[i + 1], steps[i])
  }

  // ------------------------------------------------------------------ the invariant

  /** A recorded proof was once the row's; what is held is its vector, or the row has lost it since. */
  ghost predicate Remembered(h: History, id: Id, e: Entry, now: nat) {
    e.proof.Some? ==>
      exists t: nat :: t <= now && ProofAt(h(t), id) == e.proof && (e.held == PlaceOf(e.proof.value) || LostSince(h, id, t, now))
  }

  ghost predicate LostSince(h: History, id: Id, t: nat, now: nat) {
    exists t': nat :: t < t' <= now && ProofAt(h(t'), id) != ProofAt(h(t), id)
  }

  /** The proof recorded for an ACTIVE row is the row's proof; a proven one has it recorded. */
  ghost predicate Recorded(s: Store, id: Id, e: Entry) {
    id in s.rows && s.rows[id].active && (e.proof.Some? || Usable(s.rows[id].proof).Some?) ==> e.proof == s.rows[id].proof
  }

  /** An ACTIVE row is held where its own proof says, or nowhere if it has no usable one. */
  ghost predicate RowRight(s: Store, id: Id, e: Entry) {
    id in s.rows && s.rows[id].active ==> e.held == PlaceFor(s.rows[id].proof)
  }

  function PlaceFor(proof: Option<Proof>): Option<Placed> {
    if proof.Some? then PlaceOf(proof.value) else None
  }

  ghost predicate Inv(h: History, c: Cached) {
    && (c.asOf.Some? ==> c.asOf.value <= c.now)
    && (forall id :: Remembered(h, id, At(c.ix, id), c.now))
    && (c.asOf.Some? && !c.oversize ==>
          forall id :: Unchanged(h, id, c.asOf.value, c.now) ==> Recorded(h(c.asOf.value), id, At(c.ix, id)))
  }

  // ------------------------------------------------------------------ the feed misses nothing

  lemma {:induction false} EpochGrows(h: History, a: nat, b: nat)
    requires Written(h) && a <= b
    ensures h(a).epoch <= h(b).epoch && h(a).clock <= h(b).clock
    decreases b - a
  {
    if a < b {
      assert Writes(h(a), h(a + 1));
      EpochGrows(h, a + 1, b);
    }
  }

  /** While the epoch stands still rows only come, and rowids only grow. */
  lemma {:induction false} RowsStay(h: History, a: nat, b: nat)
    requires Written(h) && a <= b && h(a).epoch == h(b).epoch
    ensures forall id :: id in h(a).rows ==> id in h(b).rows && h(b).rows[id].rowid >= h(a).rows[id].rowid
    decreases b - a
  {
    if a < b {
      assert Writes(h(a), h(a + 1));
      EpochGrows(h, a + 1, b);
      RowsStay(h, a + 1, b);
    }
  }

  /** A write after the token was read shows in what the token is compared with. */
  lemma ChangeShows(h: History, a: nat, k: nat, id: Id)
    requires Written(h) && a <= k && h(a).epoch == h(k).epoch
    requires id in h(k + 1).rows && RowAt(h(k), id) != RowAt(h(k + 1), id)
    ensures h(k + 1).rows[id].rowid > TokenOf(h(a)).insertSeq || h(k + 1).rows[id].updated >= TokenOf(h(a)).top
  {
    assert Writes(h(k), h(k + 1));
    RowsStay(h, a, k);
    EpochGrows(h, a, k);
    var seqs := set x | x in h(a).rows :: h(a).rows[x].rowid;
    var stamps := set x | x in h(a).rows :: h(a).rows[x].updated;
    if h(a).rows != map[] {
      var any :| any in h(a).rows;
      assert h(a).rows[any].rowid in seqs && h(a).rows[any].updated in stamps;
    }
  }

  /** A row that stands unchanged from the new token on and is not in the feed has not changed since
      the old token either. */
  lemma {:induction false} FeedCovers(h: History, a: nat, k: nat, b: nat, f: nat, id: Id)
    requires Written(h) && a <= k <= b <= f && h(a).epoch == h(b).epoch
    requires Unchanged(h, id, b, f) && id in h(b).rows && id !in Feed(h(f), TokenOf(h(a)))
    ensures Unchanged(h, id, k, f)
    decreases b - k
  {
    hide Written, TokenOf;
    if k < b {
      FeedCovers(h, a, k + 1, b, f, id);
      assert RowAt(h(k + 1), id) == RowAt(h(f), id) == RowAt(h(b), id);
      EpochGrows(h, a, k);
      EpochGrows(h, k, b);
      if RowAt(h(k), id) != RowAt(h(k + 1), id) { ChangeShows(h, a, k, id); }
    }
  }

  lemma UnchangedPart(h: History, id: Id, a: nat, d: nat, b: nat, c: nat)
    requires Unchanged(h, id, a, d) && a <= b <= c <= d
    ensures Unchanged(h, id, b, c) && RowAt(h(b), id) == RowAt(h(a), id) == RowAt(h(c), id)
  {
  }

  // ------------------------------------------------------------------ every step keeps the invariant

  /** A remembered proof that is the row's proof now was never lost, so what is held is its vector. */
  lemma RecordedIsRight(h: History, id: Id, e: Entry, now: nat)
    requires NoReturn(h, id, now) && Remembered(h, id, e, now) && e.proof.Some? && ProofAt(h(now), id) == e.proof
    ensures e.held == PlaceOf(e.proof.value)
  {
    hide ProofAt, PlaceOf;
    var t: nat :| t <= now && ProofAt(h(t), id) == e.proof && (e.held == PlaceOf(e.proof.value) || LostSince(h, id, t, now));
    if LostSince(h, id, t, now) {
      var t': nat :| t < t' <= now && ProofAt(h(t'), id) != ProofAt(h(t), id);
    }
  }

  /** What a sync leaves for an id is remembered, whatever was written between its reads. */
  lemma SyncRemembers(h: History, id: Id, e: Entry, now: nat, full: bool, inFeed: bool, p: nat, r: nat, end: nat)
    requires Remembered(h, id, e, now) && now <= p <= r <= end
    ensures Remembered(h, id, SyncOne(e, full, inFeed, ActiveProof(h(p), id), Usable(ProofAt(h(r), id))), end)
  {
    hide PlaceOf;
    var e' := SyncOne(e, full, inFeed, ActiveProof(h(p), id), Usable(ProofAt(h(r), id)));
    if e' == e {
      if e.proof.Some? {
        var t: nat :| t <= now && ProofAt(h(t), id) == e.proof && (e.held == PlaceOf(e.proof.value) || LostSince(h, id, t, now));
        if LostSince(h, id, t, now) {
          var t': nat :| t < t' <= now && ProofAt(h(t'), id) != ProofAt(h(t), id);
          assert LostSince(h, id, t, end);
        }
      }
    } else if e'.proof.Some? {
      assert ProofAt(h(p), id) == e'.proof;
      if ProofAt(h(r), id) != e'.proof { assert LostSince(h, id, p, end); }
    }
  }

  /** The proof recorded for a row that stands unchanged from the token to the end of the refresh, and
      was read, is the row's. */
  lemma SyncRecords(h: History, id: Id, e: Entry, full: bool, inFeed: bool, a: nat, p: nat, r: nat, end: nat)
    requires a <= p <= r <= end && (full || inFeed) && Unchanged(h, id, a, end)
    ensures Recorded(h(a), id, SyncOne(e, full, inFeed, ActiveProof(h(p), id), Usable(ProofAt(h(r), id))))
  {
    hide PlaceOf;
    UnchangedPart(h, id, a, end, p, end);
    UnchangedPart(h, id, a, end, r, end);
  }

  lemma RefreshKeeps(h: History, c: Cached, c': Cached, r: Reads, due: bool, large: bool)
    requires Written(h) && Inv(h, c) && Refreshed(h, c, c', r, due, large)
    ensures Inv(h, c')
  {
    hide Written, Remembered, Recorded, TokenOf, Feed, SyncOne, PlaceOf, Unchanged;
    if c'.ix == EMPTY_INDEX && c'.oversize {
      forall id ensures Remembered(h, id, At(c'.ix, id), c'.now) { NothingRemembered(h, id, c'.now); }
    } else if c'.asOf == c.asOf && c'.ix == c.ix && c'.oversize == c.oversize {
      ElapseKeeps(h, c, c'.now);
    } else {
      forall id ensures Remembered(h, id, At(c'.ix, id), c'.now) {
        RefreshRemembers(h, c, c', r, due, id);
      }
      forall id | Unchanged(h, id, r.token, r.end) ensures Recorded(h(r.token), id, At(c'.ix, id)) {
        RefreshRecords(h, c, c', r, due, id);
      }
    }
  }

  lemma NothingRemembered(h: History, id: Id, now: nat)
    ensures Remembered(h, id, At(EMPTY_INDEX, id), now)
  {
  }

  lemma RefreshRemembers(h: History, c: Cached, c': Cached, r: Reads, due: bool, id: Id)
    requires Inv(h, c) && InOrder(c.now, r) && c'.now == r.end
    requires var full := !Incremental(h, c, r, due);
             Synced(h, c.ix, c'.ix, full, if full then {} else Feed(h(r.feed), TokenOf(h(c.asOf.value))), r)
    ensures Remembered(h, id, At(c'.ix, id), c'.now)
  {
    hide Remembered, TokenOf, Feed, SyncOne;
    var full := !Incremental(h, c, r, due);
    var feed := if full then {} else Feed(h(r.feed), TokenOf(h(c.asOf.value)));
    SyncRemembers(h, id, At(c.ix, id), c.now, full, id in feed, r.proof(id), r.record(id), r.end);
  }

  lemma RefreshRecords(h: History, c: Cached, c': Cached, r: Reads, due: bool, id: Id)
    requires Written(h) && Inv(h, c) && InOrder(c.now, r) && (Incremental(h, c, r, due) ==> !c.oversize)
    requires var full := !Incremental(h, c, r, due);
             Synced(h, c.ix, c'.ix, full, if full then {} else Feed(h(r.feed), TokenOf(h(c.asOf.value))), r)
    requires Unchanged(h, id, r.token, r.end)
    ensures Recorded(h(r.token), id, At(c'.ix, id))
  {
    hide Written, Remembered, Recorded, TokenOf, Feed;
    var full := !Incremental(h, c, r, due);
    var feed := if full then {} else Feed(h(r.feed), TokenOf(h(c.asOf.value)));
    if full || id in feed {
      hide Unchanged, SyncOne;
      SyncRecords(h, id, At(c.ix, id), full, id in feed, r.token, r.proof(id), r.record(id), r.end);
    } else {
      UnreadIsRecorded(h, c, r, due, id);
    }
  }

  lemma UnreadIsRecorded(h: History, c: Cached, r: Reads, due: bool, id: Id)
    requires Written(h) && Inv(h, c) && InOrder(c.now, r) && Incremental(h, c, r, due) && !c.oversize
    requires id !in Feed(h(r.feed), TokenOf(h(c.asOf.value))) && Unchanged(h, id, r.token, r.end)
    ensures Recorded(h(r.token), id, At(c.ix, id))
  {
    hide Written, Remembered, TokenOf, Feed;
    if id in h(r.token).rows {
      var a := c.asOf.value;
      UnchangedPart(h, id, r.token, r.end, r.token, r.feed);
      FeedCovers(h, a, a, r.token, r.feed, id);
      UnchangedPart(h, id, a, r.feed, a, c.now);
      UnchangedPart(h, id, a, r.feed, a, r.token);
    }
  }

  lemma ElapseKeeps(h: History, c: Cached, later: nat)
    requires Inv(h, c) && later >= c.now
    ensures Inv(h, c.(now := later))
  {
    hide Recorded, PlaceOf;
    forall id ensures Remembered(h, id, At(c.ix, id), later) {
      SyncRemembers(h, id, At(c.ix, id), c.now, false, false, later, later, later);
    }
    if c.asOf.Some? && !c.oversize {
      forall id | Unchanged(h, id, c.asOf.value, later) ensures Recorded(h(c.asOf.value), id, At(c.ix, id)) {
        UnchangedPart(h, id, c.asOf.value, later, c.asOf.value, c.now);
      }
    }
  }

  lemma AddRemembers(h: History, id: Id, e: Entry, now: nat, e': Entry)
    requires Remembered(h, id, e, now) && e'.proof == e.proof
    requires ProofAt(h(now), id).Some? && e'.held == PlaceOf(ProofAt(h(now), id).value)
    ensures Remembered(h, id, e', now)
  {
    hide ProofAt, PlaceOf;
    if e.proof.Some? && ProofAt(h(now), id) != e.proof {
      var t: nat :| t <= now && ProofAt(h(t), id) == e.proof;
      assert LostSince(h, id, t, now);
    }
  }

  lemma AddKeeps(h: History, c: Cached, c': Cached, id: Id)
    requires Inv(h, c) && Added(h, c, c', id)
    ensures Inv(h, c')
  {
    hide PlaceOf;
    forall k ensures Remembered(h, k, At(c'.ix, k), c'.now) {
      if k == id {
        AddRemembers(h, id, At(c.ix, id), c.now, At(c'.ix, id));
      } else {
        assert At(c'.ix, k) == At(c.ix, k);
      }
    }
    if c.asOf.Some? && !c.oversize && Unchanged(h, id, c.asOf.value, c.now) {
      UnchangedPart(h, id, c.asOf.value, c.now, c.asOf.value, c.now);
    }
  }

  lemma NextKeeps(h: History, c: Cached, c': Cached, step: Step)
    requires Written(h) && Inv(h, c) && Next(h, c, c', step)
    ensures Inv(h, c')
  {
    hide Written, Inv, Refreshed, Added;
    match step
    case Refresh(r, due, large) => RefreshKeeps(h, c, c', r, due, large);
    case Add(id) => AddKeeps(h, c, c', id);
    case Elapse => ElapseKeeps(h, c, c'.now);
  }

  lemma {:induction false} RunKeeps(h: History, states: seq<Cached>, steps: seq<Step>, i: nat)
    requires Written(h) && Run(h, states, steps) && i < |states|
    ensures Inv(h, states[i])
  {
    hide Written, Next;
    if i > 0 {
      hide Inv;
      RunKeeps(h, states, steps, i - 1);
      NextKeeps(h, states[i - 1], states[i], steps[i - 1]);
    } else {
      forall id ensures Remembered(h, id, At(states[0].ix, id), states[0].now) { NothingRemembered(h, id, states[0].now); }
    }
  }

  // ------------------------------------------------------------------ how current a refresh leaves the index

  /** After a refresh the index is given up exactly if it is too large, or was given up before and no
      reconcile is due; if not, the token on record equals the one just read. A due reconcile that is not
      too large records the ACTIVE proof of every row that stands unchanged meanwhile, or none. */
  lemma RefreshIsCurrent(h: History, c: Cached, c': Cached, r: Reads, due: bool, large: bool)
    requires Refreshed(h, c, c', r, due, large)
    ensures c'.oversize <==> large || (c.oversize && c.asOf.Some? && !due)
    ensures c'.asOf.Some? && (!c'.oversize ==> TokenOf(h(c'.asOf.value)) == TokenOf(h(r.token)))
    ensures due && !large ==> c'.asOf == Some(r.token)
    ensures due && !large ==> forall id :: Unchanged(h, id, r.token, r.end) ==>
              At(c'.ix, id).proof == Usable(ActiveProof(h(r.token), id)) || At(c'.ix, id).proof == ActiveProof(h(r.token), id)
  {
    hide TokenOf, Feed, Incremental;
    if due && !large {
      var full := !Incremental(h, c, r, due);
      assert full by { DueIsFull(h, c, r, due); }
      forall id | Unchanged(h, id, r.token, r.end)
        ensures At(c'.ix, id).proof == Usable(ActiveProof(h(r.token), id)) || At(c'.ix, id).proof == ActiveProof(h(r.token), id)
      {
        FullSyncReads(h, c.ix, c'.ix, r, id);
      }
    }
  }

  lemma DueIsFull(h: History, c: Cached, r: Reads, due: bool)
    requires due
    ensures !Incremental(h, c, r, due)
  {
  }

  lemma FullSyncReads(h: History, ix: Index, ix': Index, r: Reads, id: Id)
    requires Synced(h, ix, ix', true, {}, r) && Unchanged(h, id, r.token, r.end) && r.token <= r.proof(id) <= r.record(id) <= r.end
    ensures var proof := ActiveProof(h(r.token), id);
            At(ix', id).proof == Usable(proof) || At(ix', id).proof == proof
  {
    hide PlaceOf;
    UnchangedPart(h, id, r.token, r.end, r.proof(id), r.end);
    UnchangedPart(h, id, r.token, r.end, r.record(id), r.end);
    assert At(ix', id) == SyncOne(At(ix, id), true, id in {}, ActiveProof(h(r.proof(id)), id), Usable(ProofAt(h(r.record(id)), id)));
  }

  /** Equal tokens: no row has gone, and every row that has changed carries the newest stamp there was. */
  lemma EqualTokensMean(h: History, a: nat, b: nat, id: Id)
    requires Written(h) && a <= b && TokenOf(h(a)) == TokenOf(h(b))
    ensures id in h(a).rows ==> id in h(b).rows
    ensures id in h(b).rows && RowAt(h(a), id) != RowAt(h(b), id) ==> h(b).rows[id].updated == TokenOf(h(a)).top
  {
    RowsStay(h, a, b);
    if id in h(b).rows && RowAt(h(a), id) != RowAt(h(b), id) {
      var k := LastChange(h, a, b, id);
      EpochGrows(h, a, k);
      EpochGrows(h, k, b);
      ChangeShows(h, a, k, id);
      assert RowAt(h(k + 1), id) == RowAt(h(b), id);
      TokenBounds(h(b), id);
    }
  }

  lemma {:induction false} LastChange(h: History, a: nat, b: nat, id: Id) returns (k: nat)
    requires a <= b && RowAt(h(a), id) != RowAt(h(b), id)
    ensures a <= k < b && RowAt(h(k), id) != RowAt(h(k + 1), id) && RowAt(h(k + 1), id) == RowAt(h(b), id)
    decreases b - a
  {
    if RowAt(h(b - 1), id) != RowAt(h(b), id) { k := b - 1; } else { k := LastChange(h, a, b - 1, id); }
  }

  lemma TokenBounds(s: Store, id: Id)
    requires id in s.rows
    ensures s.rows[id].rowid <= TokenOf(s).insertSeq && s.rows[id].updated <= TokenOf(s).top
  {
    var seqs := set x | x in s.rows :: s.rows[x].rowid;
    var stamps := set x | x in s.rows :: s.rows[x].updated;
    assert s.rows[id].rowid in seqs && s.rows[id].updated in stamps;
    assert TokenOf(s).insertSeq == Greatest(seqs) && TokenOf(s).top == Greatest(stamps);
  }

  // ------------------------------------------------------------------ torn entries

  /** Of the first `i` steps, the last that wrote the entry of `id` gave it another vector than its
      recorded proof's: a sync read a record placed elsewhere than the proof it had read before it, or
      an `add` put in the row's new vector under the proof recorded for the old one. */
  ghost predicate Torn(h: History, states: seq<Cached>, steps: seq<Step>, i: nat, id: Id)
    requires Run(h, states, steps) && i < |states|
  {
    i > 0 &&
    var c := states[i - 1];
    match steps[i - 1]
    case Elapse => Torn(h, states, steps, i - 1, id)
    case Add(k) =>
      assert Next(h, states[i - 1], states[i], steps[i - 1]);
      if k == id then id in c.ix.proofs && PlaceOf(ProofAt(h(c.now), id).value) != PlaceOf(c.ix.proofs[id])
      else Torn(h, states, steps, i - 1, id)
    case Refresh(r, due, large) =>
      !large
      && if Quiet(h, c, r, due) || !Scanned(h, c, r, due, id) || At(c.ix, id).proof == ActiveProof(h(r.proof(id)), id) then
           Torn(h, states, steps, i - 1, id)
         else TornRead(ActiveProof(h(r.proof(id)), id), Usable(ProofAt(h(r.record(id)), id)))
  }

  /** Whether a refresh that reads anything reads this id. */
  ghost predicate Scanned(h: History, c: Cached, r: Reads, due: bool, id: Id) {
    !Incremental(h, c, r, due) || id in Feed(h(r.feed), TokenOf(h(c.asOf.value)))
  }

  ghost predicate TornRead(proof: Option<Proof>, record: Option<Proof>) {
    proof.Some? && record.Some? && PlaceOf(record.value) != PlaceOf(proof.value)
  }

  /** In every run, an entry is not held where its recorded proof says exactly if it is torn. */
  lemma {:induction false} TornIff(h: History, states: seq<Cached>, steps: seq<Step>, i: nat, id: Id)
    requires Run(h, states, steps) && i < |states|
    ensures Torn(h, states, steps, i, id)
            <==> id in states[i].ix.proofs && At(states[i].ix, id).held != PlaceOf(states[i].ix.proofs[id])
  {
    hide PlaceOf, ProofAt, Quiet, Scanned, Refreshed, ActiveProof;
    if i > 0 {
      TornIff(h, states, steps, i - 1, id);
      assert Next(h, states[i - 1], states[i], steps[i - 1]);
      if steps[i - 1].Refresh? { EntryAfter(h, states[i - 1], states[i], steps[i - 1].r, steps[i - 1].due, steps[i - 1].large, id); }
    }
  }

  lemma EntryAfter(h: History, c: Cached, c': Cached, r: Reads, due: bool, large: bool, id: Id)
    requires Refreshed(h, c, c', r, due, large)
    ensures large ==> c'.ix == EMPTY_INDEX
    ensures !large && (Quiet(h, c, r, due) || !Scanned(h, c, r, due, id)) ==> At(c'.ix, id) == At(c.ix, id)
    ensures !large && !Quiet(h, c, r, due) && Scanned(h, c, r, due, id) ==>
              exists full, inFeed :: (full || inFeed) && At(c'.ix, id) == SyncOne(At(c.ix, id), full, inFeed, ActiveProof(h(r.proof(id)), id),
                                                                                   Usable(ProofAt(h(r.record(id)), id)))
  {
    hide TokenOf, Feed, ActiveProof, ProofAt;
    if !large && !Quiet(h, c, r, due) {
      var full := !Incremental(h, c, r, due);
      var inFeed := !full && id in Feed(h(r.feed), TokenOf(h(c.asOf.value)));
      assert At(c'.ix, id) == SyncOne(At(c.ix, id), full, inFeed, ActiveProof(h(r.proof(id)), id), Usable(ProofAt(h(r.record(id)), id)));
    }
  }

  // ------------------------------------------------------------------ what a query returns

  /** A hit of the plain scan: an ACTIVE row whose record is proven, in this space, above the threshold. */
  ghost predicate PlainHit(unit: Vec -> Vec, s: Store, space: Space, query: Vec, threshold: real, hit: Hit) {
    && hit.0 in s.rows && s.rows[hit.0].active && Usable(s.rows[hit.0].proof).Some?
    && IsPlacedHit(unit, PlaceOf(s.rows[hit.0].proof.value), space, query, threshold, hit)
  }

  ghost predicate IsPlacedHit(unit: Vec -> Vec, placed: Option<Placed>, space: Space, query: Vec, threshold: real, hit: Hit) {
    placed.Some? && placed.value.0 == space && Scores(unit, placed.value.1, query, threshold)
    && hit.1 == Dot(unit(placed.value.1), unit(query))
  }

  /** A hit of the index that is still ACTIVE when its row is looked up. */
  ghost predicate Returned(unit: Vec -> Vec, ix: Index, s: Store, space: Space, query: Vec, threshold: real, hit: Hit) {
    IndexHit(unit, ix, space, query, threshold, hit) && hit.0 in s.rows && s.rows[hit.0].active
  }

  /** A row added by a batch and never proven to the index, that is ACTIVE but no longer proven. */
  ghost predicate Orphan(ix: Index, s: Store, id: Id) {
    id in ix.held && id !in ix.proofs && id in s.rows && s.rows[id].active && Usable(s.rows[id].proof).None?
  }

  /** The index is usable at a state of a run, and this row has stood unchanged from the recorded token
      until `look`, when the hits are checked to be ACTIVE. */
  ghost predicate Stands(h: History, c: Cached, id: Id, look: nat) {
    c.asOf.Some? && !c.oversize && c.now <= look && Unchanged(h, id, c.asOf.value, look)
  }

  /** In every run, whatever other processes write at any moment: the proof recorded for an ACTIVE row
      that has stood unchanged is the row's own, and the row is held where it should be if and only if
      its entry is neither torn nor an orphan. */
  lemma RowRightIff(h: History, states: seq<Cached>, steps: seq<Step>, i: nat, look: nat, id: Id)
    requires Written(h) && Run(h, states, steps) && i < |states| && Stands(h, states[i], id, look)
    requires id in h(look).rows && h(look).rows[id].active
    ensures Recorded(h(look), id, At(states[i].ix, id))
    ensures RowRight(h(look), id, At(states[i].ix, id))
            <==> !Torn(h, states, steps, i, id) && !Orphan(states[i].ix, h(look), id)
  {
    hide Written, Run, Remembered, Torn;
    RunKeeps(h, states, steps, i);
    TornIff(h, states, steps, i, id);
    var c := states[i];
    UnchangedPart(h, id, c.asOf.value, look, c.asOf.value, c.now);
    UnchangedPart(h, id, c.asOf.value, look, c.asOf.value, look);
  }

  /** If no proof the row has lost has come back to it until then, its entry is not torn. */
  lemma SettledIsNotTorn(h: History, states: seq<Cached>, steps: seq<Step>, i: nat, look: nat, id: Id)
    requires Written(h) && Run(h, states, steps) && i < |states| && Stands(h, states[i], id, look)
    requires id in h(look).rows && h(look).rows[id].active && NoReturn(h, id, states[i].now)
    ensures !Torn(h, states, steps, i, id)
  {
    hide Written, Run, Remembered, Torn, NoReturn, PlaceOf;
    RunKeeps(h, states, steps, i);
    RowRightIff(h, states, steps, i, look, id);
    TornIff(h, states, steps, i, id);
    var c := states[i];
    UnchangedPart(h, id, c.asOf.value, look, c.now, look);
    if id in c.ix.proofs { RecordedIsRight(h, id, At(c.ix, id), c.now); }
  }

  /** Such a row is returned exactly when the plain scan returns it, with the same score, if it is no orphan. */
  lemma RowAgrees(h: History, states: seq<Cached>, steps: seq<Step>, i: nat, look: nat,
                  unit: Vec -> Vec, space: Space, query: Vec, threshold: real, hit: Hit)
    requires Written(h) && Run(h, states, steps) && i < |states| && Stands(h, states[i], hit.0, look)
    requires NoReturn(h, hit.0, states[i].now) && !Orphan(states[i].ix, h(look), hit.0)
    ensures Returned(unit, states[i].ix, h(look), space, query, threshold, hit)
            <==> PlainHit(unit, h(look), space, query, threshold, hit)
  {
    hide Written, Run, NoReturn, PlaceOf, Stands, Torn, Orphan, Recorded;
    var s := h(look);
    if hit.0 in s.rows && s.rows[hit.0].active {
      SettledIsNotTorn(h, states, steps, i, look, hit.0);
      RowRightIff(h, states, steps, i, look, hit.0);
      HitByScore(unit, states[i].ix, s, space, query, threshold, hit);
    }
  }

  /** What a vector held in some space scores for a query in this space, if it is a hit. */
  ghost function ScoreOf(unit: Vec -> Vec, placed: Option<Placed>, space: Space, query: Vec, threshold: real): Option<real> {
    if placed.Some? && placed.value.0 == space && Scores(unit, placed.value.1, query, threshold) then
      ScoresHaveDimension(unit, placed.value.1, query, threshold);
      Some(Dot(unit(placed.value.1), unit(query)))
    else None
  }

  lemma ScoresHaveDimension(unit: Vec -> Vec, v: Vec, query: Vec, threshold: real)
    requires Scores(unit, v, query, threshold)
    ensures |unit(v)| == |unit(query)|
  {
  }

  /** For an ACTIVE row, both kinds of hit are what the vector held, or the row's own, scores. */
  lemma HitByScore(unit: Vec -> Vec, ix: Index, s: Store, space: Space, query: Vec, threshold: real, hit: Hit)
    requires hit.0 in s.rows && s.rows[hit.0].active
    ensures Returned(unit, ix, s, space, query, threshold, hit)
            <==> ScoreOf(unit, At(ix, hit.0).held, space, query, threshold) == Some(hit.1)
    ensures PlainHit(unit, s, space, query, threshold, hit)
            <==> ScoreOf(unit, PlaceFor(s.rows[hit.0].proof), space, query, threshold) == Some(hit.1)
  {
    hide Scores, Place;
  }

  /** In every run, with every row unchanged since the recorded token: a query returns exactly the plain
      scan's hits if and only if no orphan scores, and every torn entry scores as its row's own vector does. */
  lemma QueryAgreesIff(h: History, states: seq<Cached>, steps: seq<Step>, i: nat, look: nat,
                       unit: Vec -> Vec, space: Space, query: Vec, threshold: real)
    requires Written(h) && Run(h, states, steps) && i < |states| && forall id :: Stands(h, states[i], id, look)
    ensures (forall hit :: Returned(unit, states[i].ix, h(look), space, query, threshold, hit)
                           <==> PlainHit(unit, h(look), space, query, threshold, hit))
            <==> (forall id :: Orphan(states[i].ix, h(look), id) ==>
                    ScoreOf(unit, At(states[i].ix, id).held, space, query, threshold).None?)
                 && (forall id :: id in h(look).rows && h(look).rows[id].active && Torn(h, states, steps, i, id) ==>
                       ScoreOf(unit, At(states[i].ix, id).held, space, query, threshold)
                       == ScoreOf(unit, PlaceFor(h(look).rows[id].proof), space, query, threshold))
  {
    hide Written, Run, PlaceFor, Stands, Torn, Orphan, Recorded, Returned, PlainHit, ScoreOf;
    var s, ix := h(look), states[i].ix;
    forall id | id in s.rows && s.rows[id].active
      ensures Agrees(unit, ix, s, space, query, threshold, id)
              <==> (Orphan(ix, s, id) ==> ScoreOf(unit, At(ix, id).held, space, query, threshold).None?)
                   && (Torn(h, states, steps, i, id) ==>
                         ScoreOf(unit, At(ix, id).held, space, query, threshold) == ScoreOf(unit, PlaceFor(s.rows[id].proof), space, query, threshold))
    {
      RowRightIff(h, states, steps, i, look, id);
      AgreesByScore(unit, ix, s, space, query, threshold, id);
      OrphanHasNoPlace(unit, ix, s, space, query, threshold, id);
    }
    AgreeOnActive(unit, ix, s, space, query, threshold);
    forall id | Orphan(ix, s, id) ensures id in s.rows && s.rows[id].active { OrphanIsActive(ix, s, id); }
  }

  ghost predicate SameHit(unit: Vec -> Vec, ix: Index, s: Store, space: Space, query: Vec, threshold: real, hit: Hit) {
    Returned(unit, ix, s, space, query, threshold, hit) <==> PlainHit(unit, s, space, query, threshold, hit)
  }

  /** For this row the query returns what the plain scan does. */
  ghost predicate Agrees(unit: Vec -> Vec, ix: Index, s: Store, space: Space, query: Vec, threshold: real, id: Id) {
    forall hit: Hit :: hit.0 == id ==> SameHit(unit, ix, s, space, query, threshold, hit)
  }

  lemma AgreeOnActive(unit: Vec -> Vec, ix: Index, s: Store, space: Space, query: Vec, threshold: real)
    ensures (forall hit :: Returned(unit, ix, s, space, query, threshold, hit) <==> PlainHit(unit, s, space, query, threshold, hit))
            <==> forall id :: id in s.rows && s.rows[id].active ==> Agrees(unit, ix, s, space, query, threshold, id)
  {
    hide Returned, PlainHit;
    if forall id :: id in s.rows && s.rows[id].active ==> Agrees(unit, ix, s, space, query, threshold, id) {
      forall hit: Hit
        ensures Returned(unit, ix, s, space, query, threshold, hit) <==> PlainHit(unit, s, space, query, threshold, hit)
      {
        if hit.0 in s.rows && s.rows[hit.0].active {
          assert SameHit(unit, ix, s, space, query, threshold, hit);
        } else {
          OnlyActive(unit, ix, s, space, query, threshold, hit);
        }
      }
    }
  }

  lemma OrphanIsActive(ix: Index, s: Store, id: Id)
    requires Orphan(ix, s, id)
    ensures id in s.rows && s.rows[id].active && PlaceFor(s.rows[id].proof).None?
  {
  }

  lemma OrphanHasNoPlace(unit: Vec -> Vec, ix: Index, s: Store, space: Space, query: Vec, threshold: real, id: Id)
    requires id in s.rows && s.rows[id].active
    ensures Orphan(ix, s, id) ==> ScoreOf(unit, PlaceFor(s.rows[id].proof), space, query, threshold).None?
  {
    hide Orphan;
    if Orphan(ix, s, id) { OrphanIsActive(ix, s, id); }
  }

  lemma OnlyActive(unit: Vec -> Vec, ix: Index, s: Store, space: Space, query: Vec, threshold: real, hit: Hit)
    requires !(hit.0 in s.rows && s.rows[hit.0].active)
    ensures !Returned(unit, ix, s, space, query, threshold, hit) && !PlainHit(unit, s, space, query, threshold, hit)
  {
  }

  lemma AgreesByScore(unit: Vec -> Vec, ix: Index, s: Store, space: Space, query: Vec, threshold: real, id: Id)
    requires id in s.rows && s.rows[id].active
    ensures Agrees(unit, ix, s, space, query, threshold, id)
            <==> ScoreOf(unit, At(ix, id).held, space, query, threshold) == ScoreOf(unit, PlaceFor(s.rows[id].proof), space, query, threshold)
  {
    hide Returned, PlainHit, ScoreOf, PlaceFor;
    var a, b := ScoreOf(unit, At(ix, id).held, space, query, threshold), ScoreOf(unit, PlaceFor(s.rows[id].proof), space, query, threshold);
    forall hit: Hit | hit.0 == id ensures SameHit(unit, ix, s, space, query, threshold, hit) <==> (a == Some(hit.1) <==> b == Some(hit.1)) {
      HitByScore(unit, ix, s, space, query, threshold, hit);
    }
    if a != b {
      var hit: Hit := (id, if a.Some? then a.value else b.value);
      assert !SameHit(unit, ix, s, space, query, threshold, hit);
    }
  }

  // ------------------------------------------------------------------ where agreement fails

  const LINE := Space(0, 1)
  const UP := Proof(LINE, [1.0], 0)
  const DOWN := Proof(LINE, [-1.0], 1)
  const TORN := Index(map[0 := UP], map[0 := (LINE, [-1.0])])
  const NOTHING := Cached(EMPTY_INDEX, None, false, 0)

  function OneRow(proof: Option<Proof>, t: nat): Store {
    Store(map[0 := Row(true, 1, t, proof)], 0, t)
  }

  /** A row re-vectored from UP to DOWN and back. */
  function BackAgain(t: nat): Store {
    if t == 0 then OneRow(Some(UP), 0) else if t == 1 then OneRow(Some(DOWN), 1) else OneRow(Some(UP), 2)
  }

  lemma OneRowToken(proof: Option<Proof>, t: nat)
    ensures TokenOf(OneRow(proof, t)) == Token(1, t, 0)
  {
    var s := OneRow(proof, t);
    assert 0 in s.rows && s.rows[0].rowid == 1 && s.rows[0].updated == t;
    assert (set id | id in s.rows :: s.rows[id].rowid) == {1};
    assert (set id | id in s.rows :: s.rows[id].updated) == {t};
  }

  lemma PlacesOfUpAndDown()
    ensures PlaceOf(UP) == Some((LINE, [1.0])) && PlaceOf(DOWN) == Some((LINE, [-1.0]))
  {
    assert UP.vec[0] != 0.0 && DOWN.vec[0] != 0.0;
  }

  /** A refresh at ticks that are the same for every id. */
  function ReadsAt(token: nat, record: nat): Reads {
    Reads(token, token, _ => token, _ => record, record)
  }

  lemma TornRefresh()
    ensures Refreshed(BackAgain, NOTHING, Cached(TORN, Some(0), false, 1), ReadsAt(0, 1), false, false)
  {
    hide PlaceOf, TokenOf, Feed;
    PlacesOfUpAndDown();
    assert BackAgain(0) == OneRow(Some(UP), 0) && BackAgain(1) == OneRow(Some(DOWN), 1);
    assert Synced(BackAgain, EMPTY_INDEX, TORN, true, {}, ReadsAt(0, 1)) by {
      forall id ensures At(TORN, id) ==
        SyncOne(At(EMPTY_INDEX, id), true, id in {}, ActiveProof(BackAgain(0), id), Usable(ProofAt(BackAgain(1), id)))
      {
        if id != 0 { assert id !in BackAgain(0).rows; }
      }
    }
  }

  lemma UntornRefresh()
    ensures Refreshed(BackAgain, Cached(TORN, Some(0), false, 1), Cached(TORN, Some(2), false, 2), ReadsAt(2, 2), false, false)
  {
    hide PlaceOf, TokenOf;
    OneRowToken(Some(UP), 0);
    OneRowToken(Some(UP), 2);
    assert BackAgain(0) == OneRow(Some(UP), 0) && BackAgain(2) == OneRow(Some(UP), 2);
    assert Feed(BackAgain(2), Token(1, 0, 0)) == {0};
    assert Synced(BackAgain, TORN, TORN, false, {0}, ReadsAt(2, 2)) by {
      forall id ensures At(TORN, id) ==
        SyncOne(At(TORN, id), false, id in {0}, ActiveProof(BackAgain(2), id), Usable(ProofAt(BackAgain(2), id)))
      {
        if id != 0 { assert id !in BackAgain(2).rows; }
      }
    }
  }

  lemma BackAgainIsWritten()
    ensures Written(BackAgain) && !NoReturn(BackAgain, 0, 2)
  {
    ProofsReturn();
    BackAgainWrites();
    hide BackAgain;
  }

  lemma ProofsReturn()
    ensures !NoReturn(BackAgain, 0, 2)
  {
    hide Written;
    var h: History := BackAgain;
    assert UP != DOWN;
    assert ProofAt(h(0), 0) == Some(UP) && ProofAt(h(1), 0) == Some(DOWN) && ProofAt(h(2), 0) == Some(UP);
  }

  lemma BackAgainWrites()
    ensures Written(BackAgain)
  {
    hide NoReturn;
  }

  /** Torn entries occur, and last. The first refresh reads the row's proof before and its vector
      after the change to DOWN; the second finds the proof it has recorded and does not read the vector
      again. From then on nothing changes, and the row, no orphan, is never returned. */
  lemma ProofComesBack()
    ensures var h: History, states := BackAgain, [NOTHING, Cached(TORN, Some(0), false, 1), Cached(TORN, Some(2), false, 2)];
            var steps := [Refresh(ReadsAt(0, 1), false, false), Refresh(ReadsAt(2, 2), false, false)];
            && Written(h) && !NoReturn(h, 0, 2) && Run(h, states, steps) && Torn(h, states, steps, 2, 0)
            && (forall id, look: nat :: look >= 2 ==> Unchanged(h, id, 2, look) && !Orphan(TORN, h(look), id))
            && forall look: nat :: look >= 2 ==>
                 PlainHit(v => v, h(look), LINE, [1.0], 0.0, (0, 1.0)) && !Returned(v => v, TORN, h(look), LINE, [1.0], 0.0, (0, 1.0))
  {
    hide PlaceOf, Refreshed, TokenOf, Written, NoReturn, Scores, Dot;
    BackAgainIsWritten();
    TornRefresh();
    UntornRefresh();
    PlacesOfUpAndDown();
    ScoresOnLine(1.0);
    ScoresOnLine(-1.0);
    TornIff(BackAgain, [NOTHING, Cached(TORN, Some(0), false, 1), Cached(TORN, Some(2), false, 2)],
            [Refresh(ReadsAt(0, 1), false, false), Refresh(ReadsAt(2, 2), false, false)], 2, 0);
  }

  lemma ScoresOnLine(x: real)
    requires x != 0.0
    ensures Scores(v => v, [x], [1.0], 0.0) <==> x > 0.0
    ensures Dot([x], [1.0]) == x
  {
    assert [x][0] != 0.0 && [1.0][0] != 0.0;
    assert Dot([x][1..], [1.0][1..]) == 0.0;
  }

  const ORPHANED := Index(map[], map[0 := (LINE, [1.0])])

  /** A row that a batch writes and adds, and that then loses its proof. */
  function Disproven(t: nat): Store {
    if t == 0 then Store(map[], 0, 0) else if t == 1 then OneRow(Some(UP), 1) else OneRow(None, 2)
  }

  lemma EmptyRefresh()
    ensures Refreshed(Disproven, NOTHING, Cached(EMPTY_INDEX, Some(0), false, 0), ReadsAt(0, 0), false, false)
  {
    hide PlaceOf, TokenOf, Feed;
    assert Disproven(0).rows == map[];
    assert Synced(Disproven, EMPTY_INDEX, EMPTY_INDEX, true, {}, ReadsAt(0, 0));
  }

  lemma OrphaningReconcile()
    ensures Refreshed(Disproven, Cached(ORPHANED, Some(0), false, 1), Cached(ORPHANED, Some(2), false, 2), ReadsAt(2, 2), true, false)
  {
    hide PlaceOf, TokenOf, Feed;
    assert Disproven(2) == OneRow(None, 2);
    assert Synced(Disproven, ORPHANED, ORPHANED, true, {}, ReadsAt(2, 2)) by {
      forall id ensures ActiveProof(Disproven(2), id) == None { if id != 0 { assert id !in Disproven(2).rows; } }
    }
  }

  lemma DisprovenIsWritten()
    ensures Written(Disproven) && forall id, till: nat :: NoReturn(Disproven, id, till)
  {
  }

  /** Orphans occur. The row was added from the batch before any refresh saw it; the periodic reconcile
      looks for vanished proofs only among those it has recorded, keeps it, and it is returned. */
  lemma OrphanIsReturned()
    ensures var h: History := Disproven;
            var states := [NOTHING, Cached(EMPTY_INDEX, Some(0), false, 0), Cached(EMPTY_INDEX, Some(0), false, 1),
                           Cached(ORPHANED, Some(0), false, 1), Cached(ORPHANED, Some(2), false, 2)];
            var steps := [Refresh(ReadsAt(0, 0), false, false), Elapse, Add(0), Refresh(ReadsAt(2, 2), true, false)];
            && Written(h) && (forall id, till: nat :: NoReturn(h, id, till)) && Run(h, states, steps)
            && (forall id, look: nat :: look >= 2 ==> Unchanged(h, id, 2, look))
            && forall look: nat :: look >= 2 ==>
                 Returned(v => v, ORPHANED, h(look), LINE, [1.0], 0.0, (0, 1.0)) && !PlainHit(v => v, h(look), LINE, [1.0], 0.0, (0, 1.0))
  {
    hide PlaceOf, Refreshed, TokenOf, Written, NoReturn, Scores, Dot;
    DisprovenIsWritten();
    EmptyRefresh();
    OrphaningReconcile();
    PlacesOfUpAndDown();
    var h: History := Disproven;
    assert ProofAt(h(1), 0) == Some(UP);
    assert Added(h, Cached(EMPTY_INDEX, Some(0), false, 1), Cached(ORPHANED, Some(0), false, 1), 0);
    ScoresOnLine(1.0);
  }
}

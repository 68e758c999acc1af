/**
 The cached index as the object the refresh updates field by field, tied to the step relation whose
 runs are proved to agree with a plain scan.
 */
module RefreshObject {
  import opened Prelude
  import opened SlotMatrix
  import opened SpaceIndex
  import opened NamespaceIndex

  /** What the backend answers during one refresh: the change feed, the ACTIVE rows' proofs (of some ids
      or of all), and the usable provenance of vector records. */
  datatype Answers = Answers(token: Token, feed: Token -> Option<set<Id>>, proofs: Option<set<Id>> -> map<Id, Proof>,
                             records: () -> map<Id, Proof>)

  /** The answers are those of the store at the ticks they were read at. */
  ghost predicate Truthful(h: History, r: Reads, a: Answers) {
    && a.token == TokenOf(h(r.token))
    && (forall since :: a.feed(since) == (if |Feed(h(r.feed), since)| <= FEED_LIMIT then Some(Feed(h(r.feed), since)) else None))
    && (forall ids :: ProofsOf(h, r, a, ids))
    && (forall id :: Get(a.records(), id) == Usable(ProofAt(h(r.record(id)), id)))
  }

  ghost predicate ProofsOf(h: History, r: Reads, a: Answers, ids: Option<set<Id>>) {
    var read := a.proofs(ids);
    forall id :: Get(read, id) == if ids.Some? && id !in ids.value then None else ActiveProof(h(r.proof(id)), id)
  }

  class CachedIndex {
    ghost const history: History
    const index: IndexState
    var token: Option<Token>
    var oversize: bool
    ghost var asOf: Option<nat>
    ghost var now: nat

    constructor (unit: Vec -> Vec, ghost history: History, ghost now: nat)
      ensures Valid() && Value() == Cached(EMPTY_INDEX, None, false, now) && this.history == history && fresh(index)
    {
      this.history, this.now, token, asOf, oversize := history, now, None, None, false;
      index := new IndexState(unit);
    }

    ghost predicate Valid()
      reads this, index, index.spaces.Values, index.Arrays()
    {
      index.Valid() && token == (if asOf.Some? then Some(TokenOf(history(asOf.value))) else None)
    }

    ghost function Value(): Cached
      reads this, index, index.spaces.Values
    {
      Cached(index.Abs(), asOf, oversize, now)
    }

    /** One refresh, its branches in order. `due`: the periodic reconcile; `tooMany`: a full read finds
        more proofs than will be indexed; `tooBig`: the matrices exceed the budget afterwards. */
    method Refresh(a: Answers, due: bool, tooMany: bool, tooBig: bool, ghost r: Reads) returns (ghost large: bool)
      requires Valid() && InOrder(now, r) && Truthful(history, r, a)
      modifies this`token, this`oversize, this`asOf, this`now
      modifies index`proofs, index`spaces, index`where, index.Parts(), index.Arrays()
      ensures Valid() && Refreshed(history, old(Value()), Value(), r, due, large)
      ensures large <==> tooBig || (tooMany && !Quiet(history, old(Value()), r, due) && !Incremental(history, old(Value()), r, due))
    {
      hide InOrder, Refreshed, Quiet, Incremental, Truthful, TokenOf, Feed, Synced, SyncOne, IndexState.Valid, IndexState.Abs, IndexState.Sound, SpaceRows.Valid;
      ghost var before := Value();
      large := tooBig;
      now := r.end;
      TruthfulToken(history, r, a);
      if token.Some? && !due && (a.token == token.value || oversize) {
        if tooBig { GiveUp(); }
        EarlyReturn(history, before, Value(), r, a, due, tooBig);
        return;
      }
      var feed: Option<set<Id>> := None;
      if token.Some? && !due && a.token.epoch == token.value.epoch && a.token.insertSeq >= token.value.insertSeq {
        feed := a.feed(token.value);
      }
      var gaveUp := SyncOrGiveUp(feed, tooMany, a, r);
      large := tooBig || gaveUp;
      token := Some(a.token);
      asOf := Some(r.token);
      if tooBig { GiveUp(); }
      ReadingRefresh(history, before, Value(), r, a, due, large, feed);
    }

    method GiveUp()
      requires index.Valid()
      modifies this`oversize, index`proofs, index`spaces, index`where
      ensures index.Valid() && oversize && index.Abs() == EMPTY_INDEX
      ensures index.Parts() == {} && index.Arrays() == {}
    {
      hide IndexState.Valid, IndexState.Abs;
      index.Clear();
      oversize := true;
    }

    /** A full read starts over, and gives up at once if there is too much to index. */
    method SyncOrGiveUp(feed: Option<set<Id>>, tooMany: bool, a: Answers, ghost r: Reads) returns (gaveUp: bool)
      requires index.Valid() && Truthful(history, r, a)
      modifies this`oversize, index`proofs, index`spaces, index`where, index.Parts(), index.Arrays()
      ensures index.Valid() && (gaveUp <==> feed.None? && tooMany)
      ensures fresh(index.Parts() - old(index.Parts())) && fresh(index.Arrays() - old(index.Arrays()))
      ensures gaveUp ==> oversize && index.Abs() == EMPTY_INDEX
      ensures !gaveUp ==> (oversize <==> feed.Some? && old(oversize))
                          && Synced(history, old(index.Abs()), index.Abs(), feed.None?, if feed.None? then {} else feed.value, r)
    {
      hide Truthful, Synced, IndexState.Valid, IndexState.Abs, IndexState.Sound, SpaceRows.Valid;
      gaveUp := feed.None? && tooMany;
      if feed.None? { oversize := false; }
      if gaveUp { GiveUp(); } else { SyncFrom(feed, a, r); }
    }

    method SyncFrom(feed: Option<set<Id>>, a: Answers, ghost r: Reads)
      requires index.Valid() && Truthful(history, r, a)
      modifies index`proofs, index`spaces, index`where, index.Parts(), index.Arrays()
      ensures index.Valid()
      ensures fresh(index.Parts() - old(index.Parts())) && fresh(index.Arrays() - old(index.Arrays()))
      ensures Synced(history, old(index.Abs()), index.Abs(), feed.None?, if feed.None? then {} else feed.value, r)
    {
      hide IndexState.Valid, IndexState.Abs, SyncOne, ActiveProof, Usable, ProofAt;
      var read, records := a.proofs(feed), a.records();
      ReadsAreOf(history, r, a, feed);
      ghost var before := index.Abs();
      index.Sync(feed, read, records);
      ghost var after := index.Abs();
      forall id
        ensures At(after, id) == SyncOne(At(before, id), feed.None?, feed.Some? && id in feed.value,
                                         ActiveProof(history(r.proof(id)), id), Usable(ProofAt(history(r.record(id)), id)))
      {
        UnreadIsKept(At(before, id), feed.None?, feed.Some? && id in feed.value, Get(read, id),
                     ActiveProof(history(r.proof(id)), id), Get(records, id));
      }
    }
  }

  lemma TruthfulToken(h: History, r: Reads, a: Answers)
    requires Truthful(h, r, a)
    ensures a.token == TokenOf(h(r.token))
  {
  }

  lemma ReadsAreOf(h: History, r: Reads, a: Answers, feed: Option<set<Id>>)
    requires Truthful(h, r, a)
    ensures feed.Some? ==> a.proofs(feed).Keys <= feed.value
    ensures forall id :: Get(a.proofs(feed), id) == if feed.Some? && id !in feed.value then None else ActiveProof(h(r.proof(id)), id)
    ensures forall id :: Get(a.records(), id) == Usable(ProofAt(h(r.record(id)), id))
    ensures forall id :: id in a.records() ==> a.records()[id].Proof?
  {
    assert ProofsOf(h, r, a, feed);
    if feed.Some? { ReadKeys(a.proofs(feed), feed.value); }
    forall id | id in a.records() ensures a.records()[id].Proof? { assert Get(a.records(), id) == Usable(ProofAt(h(r.record(id)), id)); }
  }

  lemma ReadKeys(read: map<Id, Proof>, ids: set<Id>)
    requires forall id :: id !in ids ==> Get(read, id).None?
    ensures read.Keys <= ids
  {
    forall id | id in read ensures id in ids { assert Get(read, id).Some?; }
  }

  lemma UnreadIsKept(e: Entry, full: bool, inFeed: bool, read: Option<Proof>, now: Option<Proof>, record: Option<Proof>)
    requires full || inFeed ==> read == now
    ensures SyncOne(e, full, inFeed, read, record) == SyncOne(e, full, inFeed, now, record)
  {
  }

  lemma EarlyReturn(h: History, c: Cached, c': Cached, r: Reads, a: Answers, due: bool, large: bool)
    requires InOrder(c.now, r) && Truthful(h, r, a) && c'.now == r.end && c'.asOf == c.asOf
    requires c.asOf.Some? && !due && (a.token == TokenOf(h(c.asOf.value)) || c.oversize)
    requires if large then c'.oversize && c'.ix == EMPTY_INDEX else c'.oversize == c.oversize && c'.ix == c.ix
    ensures Refreshed(h, c, c', r, due, large) && Quiet(h, c, r, due)
  {
    hide TokenOf, Feed;
  }

  lemma ReadingRefresh(h: History, c: Cached, c': Cached, r: Reads, a: Answers, due: bool, large: bool, feed: Option<set<Id>>)
    requires InOrder(c.now, r) && Truthful(h, r, a) && c'.now == r.end && c'.asOf == Some(r.token)
    requires !(c.asOf.Some? && !due && (a.token == TokenOf(h(c.asOf.value)) || c.oversize))
    requires feed == (if c.asOf.Some? && !due && a.token.epoch == TokenOf(h(c.asOf.value)).epoch
                         && a.token.insertSeq >= TokenOf(h(c.asOf.value)).insertSeq
                      then a.feed(TokenOf(h(c.asOf.value))) else None)
    requires if large then c'.oversize && c'.ix == EMPTY_INDEX
             else !c'.oversize && Synced(h, c.ix, c'.ix, feed.None?, if feed.None? then {} else feed.value, r)
    ensures Refreshed(h, c, c', r, due, large) && !Quiet(h, c, r, due) && (feed.Some? <==> Incremental(h, c, r, due))
  {
    hide Feed, Synced;
    assert TokenOf(h(r.token)).epoch == h(r.token).epoch;
    if c.asOf.Some? { assert TokenOf(h(c.asOf.value)).epoch == h(c.asOf.value).epoch; }
    assert feed.Some? <==> Incremental(h, c, r, due);
  }
}

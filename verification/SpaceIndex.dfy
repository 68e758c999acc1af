/**
 A namespace's similarity index: one slot matrix per embedding space, where each id was put, and the
 proof each entry was indexed from. Every method is tied to one table from id to (space, vector).
 */
module SpaceIndex {
  import opened Prelude
  import opened SlotMatrix

  datatype Space = Space(name: nat, dimensions: nat)

  /** A recorded vector proof. It names the vector's digest, so equal proofs mean equal vectors; an
      unusable one reads back as no provenance. */
  datatype Proof = Proof(space: Space, vec: Vec, rest: nat) | Unusable(text: nat)

  type Placed = (Space, Vec)
  type Tables = map<Space, map<Id, Vec>>

  datatype Index = Index(proofs: map<Id, Proof>, held: map<Id, Placed>)

  /** What the index has for one id. */
  datatype Entry = Entry(proof: Option<Proof>, held: Option<Placed>)

  function At(ix: Index, id: Id): Entry {
    Entry(if id in ix.proofs then Some(ix.proofs[id]) else None, if id in ix.held then Some(ix.held[id]) else None)
  }

  /** A vector of the wrong dimension or of length zero is no candidate. */
  function Place(space: Space, v: Vec): Option<Placed> {
    if |v| == space.dimensions && !IsZero(v) then Some((space, v)) else None
  }

  function With(held: map<Id, Placed>, id: Id, placed: Option<Placed>): map<Id, Placed> {
    if placed.Some? then held[id := placed.value] else held - {id}
  }

  function PlaceOf(proof: Proof): Option<Placed> {
    if proof.Proof? then Place(proof.space, proof.vec) else None
  }

  function Get(proofs: map<Id, Proof>, id: Id): Option<Proof> {
    if id in proofs then Some(proofs[id]) else None
  }

  /** A stale row's new entry: from its record, or none. */
  function Reread(proof: Proof, record: Option<Proof>): Entry {
    if record.None? then Entry(None, None) else Entry(Some(proof), PlaceOf(record.value))
  }

  /** What a sync makes of one id: `now` is the proof just read for it if it is ACTIVE, `record` the
      usable provenance its vector record was then read with. */
  function SyncOne(e: Entry, full: bool, inFeed: bool, now: Option<Proof>, record: Option<Proof>): Entry {
    if !full && !inFeed then e
    else if now.None? then (if full && e.proof.None? then e else Entry(None, None))
    else if e.proof == now then e
    else Reread(now.value, record)
  }

  // ------------------------------------------------------------------ tables by space

  /** Every id is in the table of the space it was put in, or in none. */
  ghost predicate Located(where: map<Id, Space>, tables: Tables) {
    && (forall id :: id in where ==> where[id] in tables)
    && (forall s, id :: s in tables && id in tables[s] ==> id in where && where[id] == s)
  }

  function HeldOf(where: map<Id, Space>, tables: Tables): map<Id, Placed> {
    map id | id in where && where[id] in tables && id in tables[where[id]] :: (where[id], tables[where[id]][id])
  }

  lemma Removed(where: map<Id, Space>, tables: Tables, s: Space, id: Id)
    requires Located(where, tables) && s in tables && (id in where ==> where[id] == s)
    ensures var after := tables[s := tables[s] - {id}];
            Located(where, after) && HeldOf(where, after) == HeldOf(where, tables) - {id}
  {
  }

  lemma NewTable(where: map<Id, Space>, tables: Tables, s: Space)
    requires Located(where, tables) && s !in tables
    ensures var after := tables[s := map[]]; Located(where, after) && HeldOf(where, after) == HeldOf(where, tables)
  {
  }

  lemma Inserted(where: map<Id, Space>, tables: Tables, s: Space, id: Id, v: Vec)
    requires Located(where, tables) && s in tables && (id in where && where[id] != s ==> id !in tables[where[id]])
    ensures var table: map<Id, Vec> := tables[s][id := v];
            var after, at := tables[s := table], where[id := s];
            Located(at, after) && HeldOf(at, after) == HeldOf(where, tables)[id := (s, v)]
  {
  }

  /** Moving an id that is in no table, or forgetting where it was, changes nothing held. */
  lemma Relocated(where: map<Id, Space>, tables: Tables, s: Space, id: Id)
    requires Located(where, tables) && s in tables && (id in where ==> id !in tables[where[id]])
    ensures Located(where[id := s], tables) && HeldOf(where[id := s], tables) == HeldOf(where, tables)
    ensures Located(where - {id}, tables) && HeldOf(where - {id}, tables) == HeldOf(where, tables)
    ensures id !in HeldOf(where, tables)
  {
  }

  // ------------------------------------------------------------------ the object

  class IndexState {
    const unit: Vec -> Vec
    var proofs: map<Id, Proof>
    var spaces: map<Space, SpaceRows>
    var where: map<Id, Space>

    ghost function Parts(): set<object>
      reads this`spaces
    {
      set s | s in spaces :: spaces[s]
    }

    ghost function Arrays(): set<object>
      reads this`spaces, spaces.Values`rows
    {
      set s | s in spaces :: spaces[s].rows
    }

    ghost function Contents(): (tables: Tables)
      reads this`spaces, spaces.Values`vectors
    {
      map s | s in spaces :: spaces[s].vectors
    }

    /** The matrices are sound and share nothing. */
    ghost predicate Sound()
      reads this`spaces, spaces.Values, Arrays()
    {
      && (forall s :: s in spaces ==> spaces[s].Valid() && spaces[s].dim == s.dimensions && spaces[s].unit == unit)
      && (forall s, t :: s in spaces && t in spaces && s != t ==> spaces[s] != spaces[t] && spaces[s].rows != spaces[t].rows)
    }

    ghost predicate Valid()
      reads this`spaces, this`where, spaces.Values, Arrays()
    {
      Sound() && Located(where, Contents())
    }

    ghost function Abs(): Index
      reads this`proofs, this`where, this`spaces, spaces.Values`vectors
    {
      Index(proofs, HeldOf(where, Contents()))
    }

    constructor (unit: Vec -> Vec)
      ensures Valid() && Abs() == Index(map[], map[]) && this.unit == unit && spaces == map[]
    {
      this.unit, proofs, spaces, where := unit, map[], map[], map[];
    }

    method Clear()
      modifies this`proofs, this`spaces, this`where
      ensures Valid() && Abs() == Index(map[], map[]) && Parts() == {} && Arrays() == {}
    {
      proofs, spaces, where := map[], map[], map[];
    }

    method RemoveFrom(space: Space, id: Id)
      requires Sound() && space in spaces
      modifies Parts(), Arrays()
      ensures Sound() && fresh(Arrays() - old(Arrays()))
      ensures Contents() == old(Contents())[space := old(Contents())[space] - {id}]
    {
      hide SpaceRows.Valid;
      ghost var tables := Contents();
      spaces[space].Remove(id);
      assert Contents() == tables[space := tables[space] - {id}];
    }

    method PutIn(space: Space, id: Id, v: Vec)
      requires Sound() && space in spaces && |v| == space.dimensions
      modifies Parts(), Arrays()
      ensures Sound() && fresh(Arrays() - old(Arrays()))
      ensures Contents() == old(Contents())[space := PutTable(old(Contents())[space], id, v)]
    {
      hide SpaceRows.Valid, IsZero;
      ghost var tables := Contents();
      spaces[space].Put(id, v);
      assert Contents() == tables[space := PutTable(tables[space], id, v)];
    }

    method AddSpace(space: Space)
      requires Sound() && space !in spaces
      modifies this`spaces
      ensures Sound() && space in spaces && fresh(Arrays() - old(Arrays())) && fresh(Parts() - old(Parts()))
      ensures Contents() == old(Contents())[space := map[]]
    {
      hide SpaceRows.Valid;
      ghost var tables := Contents();
      var rows := new SpaceRows(space.dimensions, unit);
      spaces := spaces[space := rows];
      assert Contents() == tables[space := map[]];
    }

    /** The matrix of a space, made if need be, and the id out of any other matrix. */
    method Prepare(id: Id, space: Space)
      requires Valid()
      modifies this`spaces, Parts(), Arrays()
      ensures Valid() && space in spaces && fresh(Arrays() - old(Arrays())) && fresh(Parts() - old(Parts()))
      ensures id in where && where[id] != space ==> id !in Contents()[where[id]]
      ensures With(Abs().held, id, None) == With(old(Abs().held), id, None)
    {
      hide Located, HeldOf, Sound;
      WhereIsIn(where, Contents());
      if id in where && where[id] != space {
        Removed(where, Contents(), where[id], id);
        RemoveFrom(where[id], id);
      }
      ForgetTwice(old(Abs().held), id);
      if space !in spaces {
        NewTable(where, Contents(), space);
        AddSpace(space);
      }
    }

    /** Puts a vector in its space's matrix and takes it out of the one it was in. */
    method Put(id: Id, v: Vec, space: Space)
      requires Valid()
      modifies this`spaces, this`where, Parts(), Arrays()
      ensures Valid() && fresh(Arrays() - old(Arrays())) && fresh(Parts() - old(Parts()))
      ensures Abs() == Index(old(proofs), With(old(Abs().held), id, Place(space, v)))
    {
      hide Located, HeldOf, IsZero, Sound, With, Place, PutTable, SpaceRows.Valid;
      Prepare(id, space);
      WithAfter(old(Abs().held), Abs().held, id, Place(space, v));
      WrongDimension(Abs().held, id, space, v);
      if |v| != space.dimensions {
        Drop(id);
      } else {
        PutHere(id, v, space);
      }
    }

    method PutHere(id: Id, v: Vec, space: Space)
      requires Valid() && space in spaces && |v| == space.dimensions && (id in where && where[id] != space ==> id !in Contents()[where[id]])
      modifies this`where, Parts(), Arrays()
      ensures Valid() && fresh(Arrays() - old(Arrays()))
      ensures Abs() == Index(old(proofs), With(old(Abs().held), id, Place(space, v)))
    {
      hide Located, HeldOf, IsZero, Sound, With, Place, PutTable, SpaceRows.Valid;
      PutTables(where, Contents(), space, id, v);
      PutIn(space, id, v);
      where := where[id := space];
    }

    method Drop(id: Id)
      requires Valid()
      modifies this`where, Parts(), Arrays()
      ensures Valid() && fresh(Arrays() - old(Arrays()))
      ensures Abs() == Index(old(proofs), old(Abs().held) - {id})
    {
      hide Located, HeldOf, SpaceRows.Valid, Sound;
      WhereIsIn(where, Contents());
      if id in where {
        var space := where[id];
        Removed(where, Contents(), space, id);
        RemoveFrom(space, id);
        Relocated(where, Contents(), space, id);
        where := where - {id};
      } else {
        NotHeld(where, Contents(), id);
      }
    }

    /** Forgets an id and its proof. */
    method Forget(id: Id)
      requires Valid()
      modifies this`proofs, this`where, Parts(), Arrays()
      ensures Valid() && fresh(Arrays() - old(Arrays()))
      ensures forall k :: At(Abs(), k) == if k == id then Entry(None, None) else At(old(Abs()), k)
    {
      hide Located, HeldOf, SpaceRows.Valid, Sound;
      proofs := proofs - {id};
      Drop(id);
    }

    /** Indexes an id from a vector record, under the proof that was read for it. */
    method IndexRow(id: Id, proof: Proof, record: Proof)
      requires Valid() && record.Proof?
      modifies this`proofs, this`spaces, this`where, Parts(), Arrays()
      ensures Valid() && fresh(Arrays() - old(Arrays())) && fresh(Parts() - old(Parts()))
      ensures forall k :: At(Abs(), k) == if k == id then Entry(Some(proof), PlaceOf(record)) else At(old(Abs()), k)
    {
      hide Located, HeldOf, SpaceRows.Valid, Sound, Place;
      proofs := proofs[id := proof];
      Put(id, record.vec, record.space);
    }

    method ForgetAll(gone: set<Id>)
      requires Valid()
      modifies this`proofs, this`where, Parts(), Arrays()
      ensures Valid() && fresh(Arrays() - old(Arrays()))
      ensures forall k :: At(Abs(), k) == if k in gone then Entry(None, None) else At(old(Abs()), k)
    {
      hide At, Located, HeldOf, SpaceRows.Valid, Sound;
      ghost var before := Abs();
      var todo := gone;
      while todo != {}
        invariant Valid() && fresh(Arrays() - old(Arrays())) && spaces == old(spaces) && todo <= gone
        invariant forall k :: At(Abs(), k) == if k in gone - todo then Entry(None, None) else At(before, k)
        decreases |todo|
      {
        var id :| id in todo;
        Forget(id);
        todo := todo - {id};
      }
    }

    method IndexAll(stale: set<Id>, read: map<Id, Proof>, records: map<Id, Proof>)
      requires Valid() && stale <= read.Keys && forall id :: id in records ==> records[id].Proof?
      modifies this`proofs, this`spaces, this`where, Parts(), Arrays()
      ensures Valid() && fresh(Arrays() - old(Arrays())) && fresh(Parts() - old(Parts()))
      ensures forall k :: At(Abs(), k) == if k in stale then Reread(read[k], Get(records, k)) else At(old(Abs()), k)
    {
      hide At, Located, HeldOf, SpaceRows.Valid, Sound, PlaceOf;
      ghost var before := Abs();
      var todo := stale;
      while todo != {}
        invariant Valid() && fresh(Arrays() - old(Arrays())) && fresh(Parts() - old(Parts())) && todo <= stale
        invariant forall k :: At(Abs(), k) == if k in stale - todo then Reread(read[k], Get(records, k)) else At(before, k)
        decreases |todo|
      {
        var id :| id in todo;
        if id in records {
          IndexRow(id, read[id], records[id]);
        } else {
          Forget(id);
        }
        todo := todo - {id};
      }
    }

    /** Brings the index up to date for `ids` (None: everything): drops what has no proof any more, and
        re-reads only the rows whose proof differs from the one they were indexed from. */
    method Sync(ids: Option<set<Id>>, read: map<Id, Proof>, records: map<Id, Proof>)
      requires Valid() && (ids.Some? ==> read.Keys <= ids.value) && forall id :: id in records ==> records[id].Proof?
      modifies this`proofs, this`spaces, this`where, Parts(), Arrays()
      ensures Valid() && fresh(Arrays() - old(Arrays())) && fresh(Parts() - old(Parts()))
      ensures forall id ::
                At(Abs(), id) == SyncOne(At(old(Abs()), id), ids.None?, ids.Some? && id in ids.value, Get(read, id), Get(records, id))
    {
      hide Located, HeldOf, SpaceRows.Valid, Sound, PlaceOf, SyncOne, Reread, At, Get;
      ghost var before := Abs();
      var scope := if ids.None? then proofs.Keys else ids.value;
      var gone := set id | id in scope && id !in read;
      RecordedProofs(before);
      ForgetAll(gone);
      ghost var middle := Abs();
      RecordedProofs(middle);
      var stale := set id | id in read && (id !in proofs || proofs[id] != read[id]);
      IndexAll(stale, read, records);
      ghost var after := Abs();
      forall id
        ensures At(after, id) == SyncOne(At(before, id), ids.None?, ids.Some? && id in ids.value, Get(read, id), Get(records, id))
      {
        SyncPieces(At(before, id), At(middle, id), At(after, id), ids.None?, ids.Some? && id in ids.value, read, Get(records, id), id);
      }
    }

    /** Scores a query against the rows of one space. */
    method Score(space: Space, query: Vec, threshold: real) returns (hits: seq<Hit>)
      requires Valid() && Normalises(unit)
      ensures forall hit :: hit in hits <==> IndexHit(unit, Abs(), space, query, threshold, hit)
      ensures forall x, y :: 0 <= x < y < |hits| ==> hits[x].0 != hits[y].0
    {
      hide SpaceRows.Valid, Scores;
      HeldBySpace(where, Contents(), space);
      if space !in spaces { return []; }
      hits := spaces[space].Above(query, threshold);
    }
  }

  lemma RecordedProofs(ix: Index)
    ensures forall id :: At(ix, id).proof == if id in ix.proofs then Some(ix.proofs[id]) else None
  {
  }

  lemma SyncPieces(before: Entry, middle: Entry, after: Entry, full: bool, inFeed: bool, read: map<Id, Proof>, record: Option<Proof>, id: Id)
    requires !full && !inFeed ==> id !in read
    requires middle == if (if full then before.proof.Some? else inFeed) && id !in read then Entry(None, None) else before
    requires after == if id in read && middle.proof != Some(read[id]) then Reread(read[id], record) else middle
    ensures after == SyncOne(before, full, inFeed, Get(read, id), record)
  {
    hide Reread;
  }

  /** A hit among the vectors an index holds in a space. */
  ghost predicate IndexHit(unit: Vec -> Vec, ix: Index, space: Space, query: Vec, threshold: real, hit: Hit) {
    hit.0 in ix.held && ix.held[hit.0].0 == space && Scores(unit, ix.held[hit.0].1, query, threshold)
    && hit.1 == Dot(unit(ix.held[hit.0].1), unit(query))
  }

  lemma HeldBySpace(where: map<Id, Space>, tables: Tables, space: Space)
    requires Located(where, tables)
    ensures forall id :: id in HeldOf(where, tables) && HeldOf(where, tables)[id].0 == space <==> space in tables && id in tables[space]
    ensures forall id :: space in tables && id in tables[space] ==> HeldOf(where, tables)[id] == (space, tables[space][id])
  {
  }

  lemma WhereIsIn(where: map<Id, Space>, tables: Tables)
    requires Located(where, tables)
    ensures forall id :: id in where ==> where[id] in tables
  {
  }

  lemma NotHeld(where: map<Id, Space>, tables: Tables, id: Id)
    requires Located(where, tables) && id !in where
    ensures HeldOf(where, tables) - {id} == HeldOf(where, tables)
  {
  }

  lemma WrongDimension(held: map<Id, Placed>, id: Id, space: Space, v: Vec)
    ensures |v| != space.dimensions ==> With(held, id, Place(space, v)) == held - {id}
  {
  }

  lemma ForgetTwice(held: map<Id, Placed>, id: Id)
    ensures held - {id} - {id} == held - {id}
  {
  }

  lemma WithAfter(held: map<Id, Placed>, other: map<Id, Placed>, id: Id, placed: Option<Placed>)
    requires With(held, id, None) == With(other, id, None)
    ensures With(held, id, placed) == With(other, id, placed)
  {
    if placed.Some? {
      assert held[id := placed.value] == (held - {id})[id := placed.value];
      assert other[id := placed.value] == (other - {id})[id := placed.value];
    }
  }

  /** A space's table after its matrix takes a vector. */
  function PutTable(table: map<Id, Vec>, id: Id, v: Vec): map<Id, Vec> {
    if IsZero(v) then table - {id} else table[id := v]
  }

  lemma PutTables(where: map<Id, Space>, tables: Tables, space: Space, id: Id, v: Vec)
    requires Located(where, tables) && space in tables && |v| == space.dimensions
    requires id in where && where[id] != space ==> id !in tables[where[id]]
    ensures var after, at := tables[space := PutTable(tables[space], id, v)], where[id := space];
            Located(at, after) && HeldOf(at, after) == With(HeldOf(where, tables), id, Place(space, v))
  {
    hide IsZero;
    if IsZero(v) {
      if id in where && where[id] == space {
        Removed(where, tables, space, id);
        Relocated(where, tables[space := tables[space] - {id}], space, id);
      } else {
        Relocated(where, tables, space, id);
        assert tables[space] - {id} == tables[space];
        assert tables[space := tables[space]] == tables;
        NotThere(HeldOf(where, tables), id);
      }
    } else {
      Inserted(where, tables, space, id, v);
    }
  }

  lemma NotThere(held: map<Id, Placed>, id: Id)
    ensures id !in held ==> held - {id} == held
  {
  }
}

/**
 One embedding space's slot matrix: unit rows by slot, slots by id, removed slots zeroed and compacted
 lazily; and the plain scan it has to agree with. A vector's unit vector is a given function of it.
 */
module SlotMatrix {
  import opened Prelude

  type Id = nat
  type Vec = seq<real>
  type Hit = (Id, real)

  function Zeros(n: nat): (z: Vec)
    ensures |z| == n
  {
    seq(n, _ => 0.0)
  }

  predicate IsZero(v: Vec) {
    forall x :: 0 <= x < |v| ==> v[x] == 0.0
  }

  function Dot(a: Vec, b: Vec): real
    requires |a| == |b|
  {
    if a == [] then 0.0 else a[0] * b[0] + Dot(a[1..], b[1..])
  }

  /** Normalising keeps the dimension. */
  ghost predicate Normalises(unit: Vec -> Vec) {
    forall v :: |unit(v)| == |v|
  }

  // ------------------------------------------------------------------ the plain scan

  /** Whether a stored vector is a hit, and its score. */
  predicate Scores(unit: Vec -> Vec, v: Vec, query: Vec, threshold: real) {
    |v| == |query| && !IsZero(v) && !IsZero(query)
    && |unit(v)| == |unit(query)| && Dot(unit(v), unit(query)) > threshold
  }

  /** The hits of a table of vectors. */
  ghost predicate IsHit(unit: Vec -> Vec, held: map<Id, Vec>, query: Vec, threshold: real, hit: Hit) {
    hit.0 in held && Scores(unit, held[hit.0], query, threshold) && hit.1 == Dot(unit(held[hit.0]), unit(query))
  }

  /** Candidates grouped by dimension, zero vectors dropped, each group in insertion order. */
  class CandidateVectors {
    const unit: Vec -> Vec
    var groups: map<nat, seq<(Id, Vec)>>

    /** Each group lists the unit rows of the given vectors of its dimension that are not zero. */
    ghost predicate Groups(vectors: seq<(Id, Vec)>)
      reads this
    {
      Grouped(unit, vectors, groups)
    }

    constructor (unit: Vec -> Vec, vectors: seq<(Id, Vec)>)
      ensures this.unit == unit && Groups(vectors)
    {
      this.unit := unit;
      groups := map[];
      new;
      groups := GroupAll(unit, vectors);
    }

    /** (id, score) of every candidate above the threshold, in insertion order. */
    method Above(query: Vec, threshold: real, ghost vectors: seq<(Id, Vec)>) returns (hits: seq<Hit>)
      requires Groups(vectors) && Normalises(unit)
      ensures hits == Hits(unit, vectors, query, threshold)
    {
      hide Hits, Rows, IsZero, Scores;
      HitsFromRows(unit, vectors, query, threshold);
      if |query| !in groups || IsZero(query) { return []; }
      hits := ScanRows(groups[|query|], unit(query), threshold);
    }
  }

  ghost predicate Grouped(unit: Vec -> Vec, vectors: seq<(Id, Vec)>, groups: map<nat, seq<(Id, Vec)>>) {
    forall d :: Rows(unit, vectors, d) == if d in groups then groups[d] else []
  }

  method GroupAll(unit: Vec -> Vec, vectors: seq<(Id, Vec)>) returns (groups: map<nat, seq<(Id, Vec)>>)
    ensures Grouped(unit, vectors, groups)
  {
    hide Grouped, IsZero;
    groups := map[];
    NoneGrouped(unit);
    assert vectors[..0] == [];
    for i := 0 to |vectors|
      invariant Grouped(unit, vectors[..i], groups)
    {
      var (id, v) := vectors[i];
      assert vectors[..i + 1] == vectors[..i] + [vectors[i]];
      OneGrouped(unit, vectors[..i], groups, id, v);
      if !IsZero(v) { groups := groups[|v| := (if |v| in groups then groups[|v|] else []) + [(id, unit(v))]]; }
    }
    assert vectors[..|vectors|] == vectors;
  }

  lemma NoneGrouped(unit: Vec -> Vec)
    ensures Grouped(unit, [], map[])
  {
  }

  /** One more vector goes to the end of its dimension's group, or nowhere if it is zero. */
  lemma OneGrouped(unit: Vec -> Vec, vectors: seq<(Id, Vec)>, groups: map<nat, seq<(Id, Vec)>>, id: Id, v: Vec)
    requires Grouped(unit, vectors, groups)
    ensures Grouped(unit, vectors + [(id, v)],
                    if IsZero(v) then groups else groups[|v| := (if |v| in groups then groups[|v|] else []) + [(id, unit(v))]])
  {
    hide Rows, IsZero;
    forall d ensures Rows(unit, vectors + [(id, v)], d) == Rows(unit, vectors, d) + RowOf(unit, (id, v), d) {
      RowsAppend(unit, vectors, (id, v), d);
    }
  }

  method ScanRows(rows: seq<(Id, Vec)>, q: Vec, threshold: real) returns (hits: seq<Hit>)
    ensures hits == RowHits(rows, q, threshold)
  {
    hits := [];
    for i := 0 to |rows|
      invariant hits == RowHits(rows[..i], q, threshold)
    {
      assert rows[..i + 1][..i] == rows[..i];
      if |rows[i].1| == |q| && Dot(rows[i].1, q) > threshold { hits := hits + [(rows[i].0, Dot(rows[i].1, q))]; }
    }
    assert rows[..|rows|] == rows;
  }

  function RowOf(unit: Vec -> Vec, candidate: (Id, Vec), d: nat): seq<(Id, Vec)> {
    if |candidate.1| == d && !IsZero(candidate.1) then [(candidate.0, unit(candidate.1))] else []
  }

  function Rows(unit: Vec -> Vec, vectors: seq<(Id, Vec)>, d: nat): seq<(Id, Vec)> {
    if vectors == [] then [] else Rows(unit, vectors[..|vectors| - 1], d) + RowOf(unit, vectors[|vectors| - 1], d)
  }

  lemma RowsAppend(unit: Vec -> Vec, vectors: seq<(Id, Vec)>, last: (Id, Vec), d: nat)
    ensures Rows(unit, vectors + [last], d) == Rows(unit, vectors, d) + RowOf(unit, last, d)
  {
    assert (vectors + [last])[..|vectors|] == vectors;
  }

  function RowHits(rows: seq<(Id, Vec)>, q: Vec, threshold: real): seq<Hit> {
    if rows == [] then [] else
    var (id, row) := rows[|rows| - 1];
    RowHits(rows[..|rows| - 1], q, threshold) + if |row| == |q| && Dot(row, q) > threshold then [(id, Dot(row, q))] else []
  }

  /** The scan of a list of vectors, one by one. */
  function Hits(unit: Vec -> Vec, vectors: seq<(Id, Vec)>, query: Vec, threshold: real): seq<Hit> {
    if vectors == [] then [] else
    var (id, v) := vectors[|vectors| - 1];
    Hits(unit, vectors[..|vectors| - 1], query, threshold)
    + if Scores(unit, v, query, threshold) then [(id, Dot(unit(v), unit(query)))] else []
  }

  /** Grouping by dimension loses nothing and changes no order. */
  lemma {:induction false} HitsFromRows(unit: Vec -> Vec, vectors: seq<(Id, Vec)>, query: Vec, threshold: real)
    requires Normalises(unit)
    ensures Hits(unit, vectors, query, threshold)
            == if IsZero(query) then [] else RowHits(Rows(unit, vectors, |query|), unit(query), threshold)
  {
    if vectors != [] {
      var init, last := vectors[..|vectors| - 1], vectors[|vectors| - 1];
      HitsFromRows(unit, init, query, threshold);
      var rows, row := Rows(unit, init, |query|), RowOf(unit, last, |query|);
      if row != [] {
        assert (rows + row)[..|rows|] == rows;
      } else {
        assert rows + row == rows;
      }
    }
  }

  // ------------------------------------------------------------------ the slot matrix

  /** Slots and ids are inverse to each other. */
  ghost predicate Slots(ids: seq<Option<Id>>, pos: map<Id, nat>) {
    && (forall id :: id in pos ==> pos[id] < |ids| && ids[pos[id]] == Some(id))
    && (forall i :: 0 <= i < |ids| && ids[i].Some? ==> ids[i].value in pos && pos[ids[i].value] == i)
  }

  /** Live slots hold the unit rows of the vectors, none of them zero; dead slots hold zeros. */
  ghost predicate Cells(ids: seq<Option<Id>>, pos: map<Id, nat>, cells: seq<Vec>, vectors: map<Id, Vec>, dim: nat, unit: Vec -> Vec) {
    && |ids| <= |cells| && vectors.Keys == pos.Keys
    && (forall i :: 0 <= i < |ids| && ids[i].None? ==> cells[i] == Zeros(dim))
    && (forall id :: id in pos ==> pos[id] < |ids| && |vectors[id]| == dim && !IsZero(vectors[id]) && cells[pos[id]] == unit(vectors[id]))
  }

  lemma AppendSlot(ids: seq<Option<Id>>, pos: map<Id, nat>, cells: seq<Vec>, vectors: map<Id, Vec>, dim: nat, unit: Vec -> Vec, id: Id, v: Vec)
    requires Slots(ids, pos) && Cells(ids, pos, cells, vectors, dim, unit) && |ids| < |cells|
    requires id !in pos && |v| == dim && !IsZero(v)
    ensures Slots(ids + [Some(id)], pos[id := |ids|])
    ensures Cells(ids + [Some(id)], pos[id := |ids|], cells[|ids| := unit(v)], vectors[id := v], dim, unit)
  {
    hide IsZero;
  }

  lemma WriteSlot(ids: seq<Option<Id>>, pos: map<Id, nat>, cells: seq<Vec>, vectors: map<Id, Vec>, dim: nat, unit: Vec -> Vec, id: Id, v: Vec)
    requires Slots(ids, pos) && Cells(ids, pos, cells, vectors, dim, unit)
    requires id in pos && |v| == dim && !IsZero(v)
    ensures Cells(ids, pos, cells[pos[id] := unit(v)], vectors[id := v], dim, unit)
  {
    hide IsZero;
  }

  lemma RemoveSlot(ids: seq<Option<Id>>, pos: map<Id, nat>, cells: seq<Vec>, vectors: map<Id, Vec>, dim: nat, unit: Vec -> Vec, id: Id)
    requires Slots(ids, pos) && Cells(ids, pos, cells, vectors, dim, unit) && id in pos
    ensures Slots(ids[pos[id] := None], pos - {id})
    ensures Cells(ids[pos[id] := None], pos - {id}, cells[pos[id] := Zeros(dim)], vectors - {id}, dim, unit)
  {
    hide IsZero;
  }

  /** The live slots of a matrix, in order, and where each id goes. */
  ghost predicate Packs(ids: seq<Option<Id>>, live: seq<nat>, kept: seq<Option<Id>>, at: map<Id, nat>, n: nat) {
    && n == |kept| == |at| <= |live|
    && (forall x :: 0 <= x < |live| ==> live[x] < |ids| && ids[live[x]].Some?)
    && (forall x, y :: 0 <= x < y < |live| ==> live[x] < live[y])
    && (forall y :: 0 <= y < n ==> kept[y] == ids[live[y]] && ids[live[y]].value in at && at[ids[live[y]].value] == y)
    && (forall id :: id in at ==> at[id] < n && kept[at[id]] == Some(id))
  }

  lemma PackOne(ids: seq<Option<Id>>, pos: map<Id, nat>, live: seq<nat>, kept: seq<Option<Id>>, at: map<Id, nat>, n: nat)
    requires Slots(ids, pos) && Packs(ids, live, kept, at, n) && n < |live|
    ensures ids[live[n]].Some? && Packs(ids, live, kept + [ids[live[n]]], at[ids[live[n]].value := n], n + 1)
  {
    var id := ids[live[n]].value;
    assert pos[id] == live[n];
    assert forall x :: 0 <= x < n ==> pos[ids[live[x]].value] == live[x];
    assert id !in at;
  }

  lemma PackedIds(ids: seq<Option<Id>>, pos: map<Id, nat>, live: seq<nat>, kept: seq<Option<Id>>, at: map<Id, nat>)
    requires Slots(ids, pos) && Packs(ids, live, kept, at, |live|)
    requires forall i :: 0 <= i < |ids| && ids[i].Some? ==> i in live
    ensures at.Keys == pos.Keys && forall id :: id in at ==> live[at[id]] == pos[id]
  {
    forall id | id in pos ensures id in at {
      assert pos[id] in live;
      var x :| 0 <= x < |live| && live[x] == pos[id];
    }
    forall id | id in at ensures id in pos && live[at[id]] == pos[id] {
      assert kept[at[id]] == ids[live[at[id]]];
    }
  }

  lemma PackedSlots(ids: seq<Option<Id>>, pos: map<Id, nat>, live: seq<nat>, kept: seq<Option<Id>>, at: map<Id, nat>)
    requires Slots(ids, pos) && Packs(ids, live, kept, at, |live|)
    ensures Slots(kept, at)
  {
    forall i | 0 <= i < |kept| && kept[i].Some? ensures kept[i].value in at && at[kept[i].value] == i {
      assert kept[i] == ids[live[i]];
    }
  }

  lemma PackedCells(ids: seq<Option<Id>>, pos: map<Id, nat>, cells: seq<Vec>, vectors: map<Id, Vec>, dim: nat, unit: Vec -> Vec,
                    live: seq<nat>, kept: seq<Option<Id>>, at: map<Id, nat>, packed: seq<Vec>)
    requires Slots(ids, pos) && Cells(ids, pos, cells, vectors, dim, unit) && Packs(ids, live, kept, at, |live|)
    requires |packed| >= |live| && forall x :: 0 <= x < |live| ==> packed[x] == cells[live[x]]
    requires forall i :: 0 <= i < |ids| && ids[i].Some? ==> i in live
    ensures Slots(kept, at) && Cells(kept, at, packed, vectors, dim, unit)
  {
    hide IsZero, Slots, Packs;
    PackedIds(ids, pos, live, kept, at);
    PackedSlots(ids, pos, live, kept, at);
    PackedShape(ids, live, kept, at);
  }

  lemma PackedShape(ids: seq<Option<Id>>, live: seq<nat>, kept: seq<Option<Id>>, at: map<Id, nat>)
    requires Packs(ids, live, kept, at, |live|)
    ensures |kept| == |live| && (forall i :: 0 <= i < |kept| ==> kept[i].Some?) && forall id :: id in at ==> at[id] < |live|
  {
  }

  class SpaceRows {
    const dim: nat
    const unit: Vec -> Vec
    var ids: seq<Option<Id>>
    var pos: map<Id, nat>
    var rows: array<Vec>
    /** The vectors the matrix stands for. */
    ghost var vectors: map<Id, Vec>

    ghost predicate Consistent()
      reads this, rows
    {
      rows.Length >= 16 && Slots(ids, pos) && Cells(ids, pos, rows[..], vectors, dim, unit)
    }

    /** Consistent, and few slots are dead. */
    ghost predicate Valid()
      reads this, rows
    {
      Consistent() && |ids| - |pos| <= Max(64, |pos|)
    }

    constructor (dim: nat, unit: Vec -> Vec)
      ensures Valid() && vectors == map[] && this.dim == dim && this.unit == unit && fresh(rows)
    {
      this.dim, this.unit, ids, pos, vectors := dim, unit, [], map[], map[];
      rows := new Vec[16](_ => Zeros(dim));
    }

    /** Stores a vector's unit row in its slot, or in a new one; a zero vector is no candidate. */
    method Put(id: Id, vector: Vec)
      requires Valid() && |vector| == dim
      modifies this, rows
      ensures Valid() && (rows == old(rows) || fresh(rows))
      ensures vectors == if IsZero(vector) then old(vectors) - {id} else old(vectors)[id := vector]
    {
      hide Slots, Cells, IsZero;
      if IsZero(vector) {
        Remove(id);
      } else if id in pos {
        Write(id, vector);
      } else {
        Append(id, vector);
      }
    }

    method Write(id: Id, vector: Vec)
      requires Valid() && |vector| == dim && !IsZero(vector) && id in pos
      modifies this, rows
      ensures Valid() && rows == old(rows) && vectors == old(vectors)[id := vector]
    {
      hide Slots, Cells, IsZero;
      ghost var cells := rows[..];
      SlotBounds(ids, pos, cells, vectors, dim, unit);
      WriteSlot(ids, pos, cells, vectors, dim, unit, id, vector);
      rows[pos[id]] := unit(vector);
      vectors := vectors[id := vector];
      assert rows[..] == cells[pos[id] := unit(vector)];
    }

    method Append(id: Id, vector: Vec)
      requires Valid() && |vector| == dim && !IsZero(vector) && id !in pos
      modifies this, rows
      ensures Valid() && (rows == old(rows) || fresh(rows))
      ensures vectors == old(vectors)[id := vector]
    {
      hide Slots, Cells, IsZero;
      SlotBounds(ids, pos, rows[..], vectors, dim, unit);
      var index := |ids|;
      if index == rows.Length { Grow(); }
      ghost var cells := rows[..];
      AppendSlot(ids, pos, cells, vectors, dim, unit, id, vector);
      ids := ids + [Some(id)];
      pos := pos[id := index];
      rows[index] := unit(vector);
      vectors := vectors[id := vector];
      assert rows[..] == cells[index := unit(vector)];
    }

    /** Doubles the matrix. */
    method Grow()
      requires Valid()
      modifies this`rows
      ensures Valid() && fresh(rows) && rows.Length == 2 * old(rows.Length)
    {
      hide Slots, Cells;
      var grown := Enlarged(rows, 2 * rows.Length, dim);
      SameCells(ids, pos, rows[..], grown[..], vectors, dim, unit);
      rows := grown;
    }

    method Remove(id: Id)
      requires Valid()
      modifies this, rows
      ensures Valid() && (rows == old(rows) || fresh(rows))
      ensures vectors == old(vectors) - {id}
    {
      hide Slots, Cells, IsZero;
      SlotBounds(ids, pos, rows[..], vectors, dim, unit);
      if id !in pos {
        assert vectors - {id} == vectors;
        return;
      }
      var index := pos[id];
      ghost var cells := rows[..];
      RemoveSlot(ids, pos, cells, vectors, dim, unit, id);
      pos := pos - {id};
      ids := ids[index := None];
      rows[index] := Zeros(dim);
      vectors := vectors - {id};
      assert rows[..] == cells[index := Zeros(dim)];
      if |ids| - |pos| > Max(64, |pos|) { Compact(); }
    }

    /** Moves the live rows together and leaves 16 spare ones. */
    method Compact()
      requires Consistent()
      modifies this`ids, this`pos, this`rows
      ensures Valid() && fresh(rows) && |ids| == |pos| && rows.Length == |pos| + 16
    {
      hide Slots, Cells, Packs;
      SlotBounds(ids, pos, rows[..], vectors, dim, unit);
      var live := LiveSlots(ids);
      var kept, at, packed := Pack(ids, pos, rows, live, dim);
      PackedCells(ids, pos, rows[..], vectors, dim, unit, live, kept, at, packed[..]);
      PackSize(ids, live, kept, at);
      ids, pos, rows := kept, at, packed;
    }

    /** The hits among the live slots. */
    method Above(query: Vec, threshold: real) returns (hits: seq<Hit>)
      requires Valid() && Normalises(unit)
      ensures forall hit :: hit in hits <==> IsHit(unit, vectors, query, threshold, hit)
      ensures forall x, y :: 0 <= x < y < |hits| ==> hits[x].0 != hits[y].0
    {
      if |query| != dim || |pos| == 0 || IsZero(query) { return []; }
      var q := unit(query);
      hits := [];
      for i := 0 to |ids|
        invariant forall hit :: hit in hits <==> IsHit(unit, vectors, query, threshold, hit) && pos[hit.0] < i
        invariant forall x, y :: 0 <= x < y < |hits| ==> hits[x].0 != hits[y].0
      {
        if ids[i].Some? && Dot(rows[i], q) > threshold {
          hits := hits + [(ids[i].value, Dot(rows[i], q))];
        }
      }
    }
  }

  lemma SlotBounds(ids: seq<Option<Id>>, pos: map<Id, nat>, cells: seq<Vec>, vectors: map<Id, Vec>, dim: nat, unit: Vec -> Vec)
    requires Slots(ids, pos) && Cells(ids, pos, cells, vectors, dim, unit)
    ensures |ids| <= |cells| && vectors.Keys == pos.Keys && forall id :: id in pos ==> pos[id] < |ids|
  {
  }

  lemma SameCells(ids: seq<Option<Id>>, pos: map<Id, nat>, cells: seq<Vec>, more: seq<Vec>, vectors: map<Id, Vec>, dim: nat, unit: Vec -> Vec)
    requires Cells(ids, pos, cells, vectors, dim, unit) && |more| >= |cells| && forall i :: 0 <= i < |cells| ==> more[i] == cells[i]
    ensures Cells(ids, pos, more, vectors, dim, unit)
  {
    hide IsZero;
  }

  /** The indices of the live slots, in order. */
  method LiveSlots(ids: seq<Option<Id>>) returns (live: seq<nat>)
    ensures forall x :: 0 <= x < |live| ==> live[x] < |ids| && ids[live[x]].Some?
    ensures forall x, y :: 0 <= x < y < |live| ==> live[x] < live[y]
    ensures forall i :: 0 <= i < |ids| && ids[i].Some? ==> i in live
  {
    live := [];
    for i := 0 to |ids|
      invariant forall x :: 0 <= x < |live| ==> live[x] < i && ids[live[x]].Some?
      invariant forall x, y :: 0 <= x < y < |live| ==> live[x] < live[y]
      invariant forall j :: 0 <= j < i && ids[j].Some? ==> j in live
    {
      if ids[i].Some? { live := live + [i]; }
    }
  }

  /** A larger matrix with the same first rows, the rest zero. */
  method Enlarged(small: array<Vec>, size: nat, dim: nat) returns (grown: array<Vec>)
    requires size >= small.Length
    ensures fresh(grown) && grown.Length == size && forall j :: 0 <= j < small.Length ==> grown[j] == small[j]
  {
    grown := new Vec[size](_ => Zeros(dim));
    for i := 0 to small.Length
      invariant forall j :: 0 <= j < i ==> grown[j] == small[j]
    {
      grown[i] := small[i];
    }
  }

  /** The live rows moved together, with 16 spare ones behind them. */
  method Pack(ids: seq<Option<Id>>, ghost pos: map<Id, nat>, cells: array<Vec>, live: seq<nat>, dim: nat)
    returns (kept: seq<Option<Id>>, at: map<Id, nat>, packed: array<Vec>)
    requires Slots(ids, pos) && |ids| <= cells.Length
    requires forall x :: 0 <= x < |live| ==> live[x] < |ids| && ids[live[x]].Some?
    requires forall x, y :: 0 <= x < y < |live| ==> live[x] < live[y]
    ensures Packs(ids, live, kept, at, |live|) && fresh(packed) && packed.Length == |live| + 16
    ensures forall y :: 0 <= y < |live| ==> packed[..][y] == cells[..][live[y]]
  {
    hide Slots, Packs;
    packed := new Vec[|live| + 16](_ => Zeros(dim));
    kept, at := [], map[];
    PackNone(ids, live);
    for x := 0 to |live|
      invariant Packs(ids, live, kept, at, x)
      invariant forall y :: 0 <= y < x ==> packed[y] == cells[live[y]]
    {
      packed[x] := cells[live[x]];
      PackOne(ids, pos, live, kept, at, x);
      kept := kept + [ids[live[x]]];
      at := at[ids[live[x]].value := x];
    }
  }

  lemma PackNone(ids: seq<Option<Id>>, live: seq<nat>)
    requires forall x :: 0 <= x < |live| ==> live[x] < |ids| && ids[live[x]].Some?
    requires forall x, y :: 0 <= x < y < |live| ==> live[x] < live[y]
    ensures Packs(ids, live, [], map[], 0)
  {
  }

  lemma PackSize(ids: seq<Option<Id>>, live: seq<nat>, kept: seq<Option<Id>>, at: map<Id, nat>)
    requires Packs(ids, live, kept, at, |live|)
    ensures |kept| == |at| == |live|
  {
  }

  /** `listing` lists a table, every id once. */
  ghost predicate Lists(listing: seq<(Id, Vec)>, held: map<Id, Vec>) {
    && (forall x, y :: 0 <= x < y < |listing| ==> listing[x].0 != listing[y].0)
    && (forall x :: 0 <= x < |listing| ==> listing[x].0 in held && held[listing[x].0] == listing[x].1)
    && (forall id :: id in held ==> (id, held[id]) in listing)
  }

  lemma {:induction false} HitsAre(unit: Vec -> Vec, listing: seq<(Id, Vec)>, query: Vec, threshold: real, hit: Hit)
    ensures hit in Hits(unit, listing, query, threshold) <==>
              exists x :: 0 <= x < |listing| && listing[x].0 == hit.0 && Scores(unit, listing[x].1, query, threshold)
                          && hit.1 == Dot(unit(listing[x].1), unit(query))
  {
    hide Scores;
    if listing != [] {
      var init := listing[..|listing| - 1];
      HitsAre(unit, init, query, threshold, hit);
      assert forall x :: 0 <= x < |init| ==> init[x] == listing[x];
    }
  }

  /** The slot matrix's hits are exactly those of a plain scan built afresh from the live vectors. */
  lemma AgreesWithScan(unit: Vec -> Vec, listing: seq<(Id, Vec)>, held: map<Id, Vec>, query: Vec, threshold: real, hits: seq<Hit>)
    requires Lists(listing, held) && forall hit :: hit in hits <==> IsHit(unit, held, query, threshold, hit)
    ensures forall hit :: hit in hits <==> hit in Hits(unit, listing, query, threshold)
  {
    hide Scores, Hits;
    forall hit ensures hit in hits <==> hit in Hits(unit, listing, query, threshold) {
      HitsAre(unit, listing, query, threshold, hit);
      if hit in hits { assert (hit.0, held[hit.0]) in listing; }
    }
  }
}

/**
 The bounded walk over stored edges: breadth first from the roots, reading each node's edges page by
 page through two index seeks, within a node cap and an edge budget.
 Nodes and edge types are numbers; type 0 is the empty string that no stored edge has.
 */
module Traversal {
  import opened Prelude

  type Node = nat

  const MAX_DEPTH := 3
  const MAX_ROOTS := 1000
  const BUDGET_MULTIPLIER := 50

  datatype Edge = Edge(target: Node, etype: nat, weight: real, rowid: int, namespace: Option<int>)

  /** The edges of each source in index order, whether edges carry a namespace, and the memories by
      id and namespace with their active flag. */
  datatype Store = Store(adjacency: Node -> seq<Edge>, edgesScoped: bool, memories: map<(Node, int), bool>)

  /** What is asked for; no types means every stored type. */
  datatype Request = Request(roots: seq<Node>, depth: int, types: set<nat>, namespace: Option<int>,
                             maxNodes: Option<int>, activeOnly: bool)

  datatype Found = Found(id: Node, depth: nat, etype: nat, weight: real)

  datatype Outcome = Nodes(found: seq<Found>) | BadMaxNodes

  ghost predicate Indexed(rows: seq<Edge>) {
    && (forall x :: 0 <= x < |rows| ==> rows[x].etype >= 1)
    && (forall x, y :: 0 <= x < y < |rows| ==> EdgeOrder(rows[x], rows[y]))
  }

  predicate EdgeOrder(a: Edge, b: Edge) {
    a.etype < b.etype || (a.etype == b.etype && a.rowid < b.rowid)
  }

  ghost predicate ValidStore(store: Store) {
    forall u :: Indexed(store.adjacency(u))
  }

  // ------------------------------------------------------------------ reading one node's edges

  datatype Seek = Whole | SameType(etype: nat, rowid: int) | LaterTypes(etype: nat)

  predicate InScope(store: Store, req: Request, e: Edge) {
    req.namespace.Some? && store.edgesScoped ==> e.namespace == req.namespace
  }

  /** The WHERE clause of a seek; finishing the current type does not repeat the type filter. */
  predicate Keeps(store: Store, req: Request, seek: Seek, e: Edge) {
    InScope(store, req, e)
    && match seek
       case Whole => req.types == {} || e.etype in req.types
       case SameType(t, r) => e.etype == t && e.rowid > r
       case LaterTypes(t) => (req.types == {} || e.etype in req.types) && e.etype > t
  }

  function Select(store: Store, req: Request, seek: Seek, rows: seq<Edge>): seq<Edge> {
    if rows == [] then []
    else (if Keeps(store, req, seek, rows[0]) then [rows[0]] else []) + Select(store, req, seek, rows[1..])
  }

  function Limit(rows: seq<Edge>, n: nat): seq<Edge> {
    if n <= |rows| then rows[..n] else rows
  }

  /** A node's edges that pass the type and namespace filters. */
  function Matching(store: Store, req: Request, u: Node): seq<Edge> {
    Select(store, req, Whole, store.adjacency(u))
  }

  /** One page behind the cursor: finish the current type, then take the rest from later types. */
  method ReadPage(store: Store, req: Request, u: Node, lastType: nat, lastRow: int, pageLimit: nat, ghost k: nat)
    returns (rows: seq<Edge>)
    requires ValidStore(store) && pageLimit >= 1 && k <= |Matching(store, req, u)|
    requires if k == 0 then lastType == 0
             else lastType == Matching(store, req, u)[k - 1].etype && lastRow == Matching(store, req, u)[k - 1].rowid
    ensures |rows| == Min(pageLimit, |Matching(store, req, u)| - k)
    ensures rows == Matching(store, req, u)[k..k + |rows|]
  {
    rows := [];
    ghost var ahead := Matching(store, req, u)[k..];
    SeeksCoverTheRest(store, req, u, k, lastType, lastRow);
    hide Select, Matching;
    if lastType != 0 {
      rows := Limit(Select(store, req, SameType(lastType, lastRow), store.adjacency(u)), pageLimit);
    }
    if |rows| < pageLimit {
      rows := rows + Limit(Select(store, req, LaterTypes(lastType), store.adjacency(u)), pageLimit - |rows|);
    }
    assert rows == Limit(ahead, pageLimit);
  }

  lemma {:induction false} SelectAppend(store: Store, req: Request, seek: Seek, a: seq<Edge>, b: seq<Edge>)
    ensures Select(store, req, seek, a + b) == Select(store, req, seek, a) + Select(store, req, seek, b)
  {
    hide Keeps;
    if a == [] {
      assert a + b == b;
    } else {
      SelectAppend(store, req, seek, a[1..], b);
      assert (a + b)[1..] == a[1..] + b;
    }
  }

  lemma {:induction false} SelectNone(store: Store, req: Request, seek: Seek, rows: seq<Edge>)
    requires forall x :: 0 <= x < |rows| ==> !Keeps(store, req, seek, rows[x])
    ensures Select(store, req, seek, rows) == []
  {
    if rows != [] { SelectNone(store, req, seek, rows[1..]); }
  }

  lemma {:induction false} SelectKeepsOrder(store: Store, req: Request, seek: Seek, rows: seq<Edge>)
    requires Indexed(rows)
    ensures var kept := Select(store, req, seek, rows);
            Indexed(kept) && forall x :: 0 <= x < |kept| ==> Keeps(store, req, seek, kept[x]) && kept[x] in rows
  {
    hide Keeps;
    if rows != [] { SelectKeepsOrder(store, req, seek, rows[1..]); }
  }

  /** A seek reads the same rows from the whole adjacency as from the matching edges, when it only
      keeps matching ones. */
  lemma {:induction false} SelectFromMatching(store: Store, req: Request, seek: Seek, rows: seq<Edge>)
    requires forall x :: 0 <= x < |rows| && Keeps(store, req, seek, rows[x]) ==> Keeps(store, req, Whole, rows[x])
    ensures Select(store, req, seek, rows) == Select(store, req, seek, Select(store, req, Whole, rows))
  {
    hide Keeps;
    if rows != [] {
      SelectFromMatching(store, req, seek, rows[1..]);
      var head := if Keeps(store, req, Whole, rows[0]) then [rows[0]] else [];
      SelectAppend(store, req, seek, head, Select(store, req, Whole, rows[1..]));
      assert head != [] ==> head[1..] == [];
    }
  }

  /** Among rows at or after type `t`: those of type `t`, then those of later types, are all of them. */
  lemma {:induction false} TypeThenLater(store: Store, req: Request, t: nat, r: int, rows: seq<Edge>)
    requires Indexed(rows) && forall x :: 0 <= x < |rows| ==> Keeps(store, req, Whole, rows[x])
    requires forall x :: 0 <= x < |rows| ==> rows[x].etype > t || (rows[x].etype == t && rows[x].rowid > r)
    ensures Select(store, req, SameType(t, r), rows) + Select(store, req, LaterTypes(t), rows) == rows
  {
    if rows != [] {
      var same, later := SameType(t, r), LaterTypes(t);
      TypeThenLater(store, req, t, r, rows[1..]);
      SelectHead(store, req, same, rows);
      SelectHead(store, req, later, rows);
      if rows[0].etype > t {
        SelectNone(store, req, same, rows[1..]);
      }
      hide Select, Indexed;
      assert rows == [rows[0]] + rows[1..];
    }
  }

  lemma SelectHead(store: Store, req: Request, seek: Seek, rows: seq<Edge>)
    requires rows != []
    ensures Select(store, req, seek, rows)
            == (if Keeps(store, req, seek, rows[0]) then [rows[0]] else []) + Select(store, req, seek, rows[1..])
  {
  }

  /** What lies behind the cursor is exactly the two seeks' rows, in order. */
  lemma SeeksCoverTheRest(store: Store, req: Request, u: Node, k: nat, lastType: nat, lastRow: int)
    requires ValidStore(store) && k <= |Matching(store, req, u)|
    requires if k == 0 then lastType == 0
             else lastType == Matching(store, req, u)[k - 1].etype && lastRow == Matching(store, req, u)[k - 1].rowid
    ensures var later := Select(store, req, LaterTypes(lastType), store.adjacency(u));
            Matching(store, req, u)[k..] == if lastType == 0 then later
                                            else Select(store, req, SameType(lastType, lastRow), store.adjacency(u)) + later
    ensures lastType == 0 <==> k == 0
  {
    hide Select;
    var all := store.adjacency(u);
    var m := Matching(store, req, u);
    assert Indexed(all);
    SelectKeepsOrder(store, req, Whole, all);
    SelectFromMatching(store, req, LaterTypes(lastType), all);
    assert m == m[..k] + m[k..];
    SelectAppend(store, req, LaterTypes(lastType), m[..k], m[k..]);
    SelectNone(store, req, LaterTypes(lastType), m[..k]);
    if k == 0 {
      SelectNone(store, req, SameType(0, 0), m[k..]);
      TypeThenLater(store, req, 0, 0, m[k..]);
    } else {
      SelectFromMatching(store, req, SameType(lastType, lastRow), all);
      SelectAppend(store, req, SameType(lastType, lastRow), m[..k], m[k..]);
      SelectNone(store, req, SameType(lastType, lastRow), m[..k]);
      TypeThenLater(store, req, lastType, lastRow, m[k..]);
    }
  }

  // ------------------------------------------------------------------ the filtered graph

  /** Nodes the walk may follow an edge to. */
  predicate Admits(store: Store, req: Request, v: Node) {
    req.namespace.Some? ==>
      (v, req.namespace.value) in store.memories && (req.activeOnly ==> store.memories[(v, req.namespace.value)])
  }

  function Truncated(roots: seq<Node>): seq<Node> {
    if |roots| <= MAX_ROOTS then roots else roots[..MAX_ROOTS]
  }

  function InNamespace(store: Store, req: Request, roots: seq<Node>): (kept: seq<Node>)
    ensures forall v :: v in kept <==> v in roots && (req.namespace.Some? ==> (v, req.namespace.value) in store.memories)
  {
    if req.namespace.None? then roots
    else if roots == [] then []
    else if (roots[0], req.namespace.value) in store.memories then [roots[0]] + InNamespace(store, req, roots[1..])
    else InNamespace(store, req, roots[1..])
  }

  /** The roots the walk starts from. */
  function Start(store: Store, req: Request): seq<Node> {
    InNamespace(store, req, Truncated(req.roots))
  }

  ghost predicate Link(store: Store, req: Request, u: Node, v: Node) {
    Admits(store, req, v) && exists x :: 0 <= x < |Matching(store, req, u)| && Matching(store, req, u)[x].target == v
  }

  /** `v` is at most `k` links from a root. */
  ghost predicate Within(store: Store, req: Request, k: nat, v: Node) {
    if k == 0 then v in Start(store, req)
    else Within(store, req, k - 1, v) || exists u :: Within(store, req, k - 1, u) && Link(store, req, u, v)
  }

  /** The length of the shortest path from a root to `v` is `d`. */
  ghost predicate Distance(store: Store, req: Request, d: nat, v: Node) {
    Within(store, req, d, v) && (d > 0 ==> !Within(store, req, d - 1, v))
  }

  /** The result carries the type and weight of the first matching edge to it from some node one level up. */
  ghost predicate Witnessed(store: Store, req: Request, r: Found) {
    r.depth > 0 && exists u, x :: Distance(store, req, r.depth - 1, u) && 0 <= x < |Matching(store, req, u)|
                                  && FirstEdge(Matching(store, req, u), x, r)
  }

  ghost predicate FirstEdge(rows: seq<Edge>, x: nat, r: Found)
    requires x < |rows|
  {
    rows[x].target == r.id && rows[x].etype == r.etype && rows[x].weight == r.weight
    && forall y :: 0 <= y < x ==> rows[y].target != r.id
  }

  lemma {:induction false} WithinGrows(store: Store, req: Request, k: nat, l: nat, v: Node)
    requires k <= l && Within(store, req, k, v)
    ensures Within(store, req, l, v)
    decreases l
  {
    if k < l { WithinGrows(store, req, k, l - 1, v); }
  }

  lemma DistanceIsOne(store: Store, req: Request, d: nat, e: nat, v: Node)
    requires Distance(store, req, d, v) && Within(store, req, e, v)
    ensures d <= e && (Distance(store, req, e, v) ==> d == e)
  {
    hide Within;
    if e < d { WithinGrows(store, req, e, d - 1, v); }
    if d < e && Distance(store, req, e, v) { WithinGrows(store, req, d, e - 1, v); }
  }

  // ------------------------------------------------------------------ what the request asks for, field by field

  /** A node of the asked namespace (any node if none is asked), ACTIVE if that is asked. */
  predicate Wanted(memories: map<(Node, int), bool>, namespace: Option<int>, activeOnly: bool, v: Node) {
    match namespace
    case None => true
    case Some(ns) => (v, ns) in memories && (activeOnly ==> memories[(v, ns)])
  }

  /** An edge of an asked type, in the asked namespace if edges have one. */
  predicate Followed(edgesScoped: bool, types: set<nat>, namespace: Option<int>, e: Edge) {
    (types != {} ==> e.etype in types) && (edgesScoped && namespace.Some? ==> e.namespace == namespace)
  }

  /** A stored edge from `u` that may be followed to `v`. */
  ghost predicate Hop(store: Store, req: Request, u: Node, v: Node) {
    Wanted(store.memories, req.namespace, req.activeOnly, v)
    && exists x :: 0 <= x < |store.adjacency(u)| && store.adjacency(u)[x].target == v
                   && Followed(store.edgesScoped, req.types, req.namespace, store.adjacency(u)[x])
  }

  /** One of the first thousand roots asked for that is a memory of the asked namespace, ACTIVE or not. */
  ghost predicate RootOf(store: Store, req: Request, v: Node) {
    (exists i :: 0 <= i < |req.roots| && i < 1000 && req.roots[i] == v) && Wanted(store.memories, req.namespace, false, v)
  }

  /** The matching edges are the stored ones that may be followed, each once, in index order. */
  lemma MatchingAre(store: Store, req: Request, u: Node)
    requires ValidStore(store)
    ensures Indexed(Matching(store, req, u))
    ensures forall e :: e in Matching(store, req, u) <==>
              e in store.adjacency(u) && Followed(store.edgesScoped, req.types, req.namespace, e)
  {
    assert Indexed(store.adjacency(u));
    SelectKeepsOrder(store, req, Whole, store.adjacency(u));
    forall e | e in store.adjacency(u) && Keeps(store, req, Whole, e) ensures e in Matching(store, req, u) {
      SelectTakes(store, req, Whole, store.adjacency(u), e);
    }
  }

  lemma {:induction false} SelectTakes(store: Store, req: Request, seek: Seek, rows: seq<Edge>, e: Edge)
    requires e in rows && Keeps(store, req, seek, e)
    ensures e in Select(store, req, seek, rows)
  {
    hide Keeps;
    if rows[0] != e {
      assert e in rows[1..] by { assert rows == [rows[0]] + rows[1..]; }
      SelectTakes(store, req, seek, rows[1..], e);
    }
  }

  /** A link of the filtered graph is a stored edge that may be followed. */
  lemma LinkIsHop(store: Store, req: Request, u: Node, v: Node)
    requires ValidStore(store)
    ensures Link(store, req, u, v) <==> Hop(store, req, u, v)
  {
    hide Matching, ValidStore;
    MatchingAre(store, req, u);
    var m, rows := Matching(store, req, u), store.adjacency(u);
    if x :| 0 <= x < |m| && m[x].target == v {
      assert m[x] in m;
      var y :| 0 <= y < |rows| && rows[y] == m[x];
    }
    if y :| 0 <= y < |rows| && rows[y].target == v && Followed(store.edgesScoped, req.types, req.namespace, rows[y]) {
      assert rows[y] in rows;
      var x :| 0 <= x < |m| && m[x] == rows[y];
    }
  }

  lemma RootsAre(store: Store, req: Request, v: Node)
    ensures v in Start(store, req) <==> RootOf(store, req, v)
  {
    var cut := Truncated(req.roots);
    if v in cut {
      var i :| 0 <= i < |cut| && cut[i] == v;
      assert req.roots[i] == v;
    }
    if i :| 0 <= i < |req.roots| && i < 1000 && req.roots[i] == v { assert cut[i] == v; }
  }

  /** A path from a root, each step of it a stored edge that may be followed. */
  ghost predicate PathTo(store: Store, req: Request, path: seq<Node>, v: Node) {
    path != [] && path[|path| - 1] == v && RootOf(store, req, path[0])
    && forall i :: 0 <= i < |path| - 1 ==> Hop(store, req, path[i], path[i + 1])
  }

  /** Being within `k` links of a root is having a path of at most `k` steps from one. */
  lemma {:induction false} WithinIsPath(store: Store, req: Request, k: nat, v: Node)
    requires ValidStore(store)
    ensures Within(store, req, k, v) <==> exists path :: |path| <= k + 1 && PathTo(store, req, path, v)
  {
    hide Hop, Link, RootOf, Start, ValidStore;
    RootsAre(store, req, v);
    if Within(store, req, k, v) {
      var path := PathOf(store, req, k, v);
    }
    if path :| |path| <= k + 1 && PathTo(store, req, path, v) { PathIsWithin(store, req, k, path, v); }
  }

  lemma {:induction false} PathOf(store: Store, req: Request, k: nat, v: Node) returns (path: seq<Node>)
    requires ValidStore(store) && Within(store, req, k, v)
    ensures |path| <= k + 1 && PathTo(store, req, path, v)
  {
    hide Hop, Link, RootOf, Start, ValidStore;
    if k == 0 {
      RootsAre(store, req, v);
      path := [v];
    } else if Within(store, req, k - 1, v) {
      path := PathOf(store, req, k - 1, v);
    } else {
      var u :| Within(store, req, k - 1, u) && Link(store, req, u, v);
      LinkIsHop(store, req, u, v);
      var before := PathOf(store, req, k - 1, u);
      path := before + [v];
      forall i | 0 <= i < |path| - 1 ensures Hop(store, req, path[i], path[i + 1]) {
        if i < |before| - 1 { assert Hop(store, req, before[i], before[i + 1]); }
      }
    }
  }

  lemma {:induction false} PathIsWithin(store: Store, req: Request, k: nat, path: seq<Node>, v: Node)
    requires ValidStore(store) && |path| <= k + 1 && PathTo(store, req, path, v)
    ensures Within(store, req, k, v)
    decreases k
  {
    hide Hop, Link, RootOf, Start, ValidStore;
    if |path| == 1 {
      RootsAre(store, req, v);
      WithinGrows(store, req, 0, k, v);
    } else {
      var n := |path| - 1;
      var u := path[n - 1];
      assert Hop(store, req, path[n - 1], path[n]);
      assert PathTo(store, req, path[..n], u) by {
        forall i | 0 <= i < n - 1 ensures Hop(store, req, path[..n][i], path[..n][i + 1]) { assert Hop(store, req, path[i], path[i + 1]); }
      }
      PathIsWithin(store, req, k - 1, path[..n], u);
      LinkIsHop(store, req, u, v);
    }
  }

  /** What is asked of a result: a wanted node, no root, within the depth asked for and three; and the type
      and weight reported are those of a stored edge to it that may be followed. */
  ghost predicate Asked(store: Store, req: Request, r: Found) {
    && Wanted(store.memories, req.namespace, req.activeOnly, r.id) && !RootOf(store, req, r.id)
    && 1 <= r.depth <= req.depth && r.depth <= 3
    && exists u, x :: 0 <= x < |store.adjacency(u)| && Reports(store, req, store.adjacency(u)[x], r)
  }

  ghost predicate Reports(store: Store, req: Request, e: Edge, r: Found) {
    e.target == r.id && e.etype == r.etype && e.weight == r.weight && Followed(store.edgesScoped, req.types, req.namespace, e)
  }

  // ------------------------------------------------------------------ the walk's state

  datatype Walk = Walk(visited: set<Node>, found: seq<Found>, queue: seq<(Node, nat)>)

  predicate Full(req: Request, w: Walk) {
    req.maxNodes.Some? && |w.found| >= req.maxNodes.value
  }

  /** One edge row from a node at depth `d`; a full walk has returned and takes nothing more. */
  function Take(store: Store, req: Request, w: Walk, d: nat, e: Edge): Walk {
    if Full(req, w) || !Admits(store, req, e.target) || e.target in w.visited then w
    else
      var found := w.found + [Found(e.target, d + 1, e.etype, e.weight)];
      Walk(w.visited + {e.target}, found, w.queue + [(e.target, d + 1)])
  }

  function Absorb(store: Store, req: Request, w: Walk, d: nat, rows: seq<Edge>): Walk {
    if rows == [] then w
    else Take(store, req, Absorb(store, req, w, d, rows[..|rows| - 1]), d, rows[|rows| - 1])
  }

  /** Every edge of `v` the walk may follow leads to a visited node. */
  ghost predicate Expanded(store: Store, req: Request, visited: set<Node>, v: Node) {
    Covered(store, req, visited, Matching(store, req, v))
  }

  ghost predicate Covered(store: Store, req: Request, visited: set<Node>, rows: seq<Edge>) {
    forall x :: 0 <= x < |rows| && Admits(store, req, rows[x].target) ==> rows[x].target in visited
  }

  function Depth(req: Request): int { Min(req.depth, MAX_DEPTH) }

  predicate Queued(w: Walk, v: Node) {
    exists i :: 0 <= i < |w.queue| && w.queue[i].0 == v
  }

  /** A root, or among the first `i` found. */
  ghost predicate Known(store: Store, req: Request, found: seq<Found>, i: nat, v: Node)
    requires i <= |found|
  {
    v in Start(store, req) || exists j :: 0 <= j < i && found[j].id == v
  }

  /** Distinct non-roots, nearest first, each at its true shortest distance, each after every node that
      is nearer than it. */
  ghost predicate Ranked(store: Store, req: Request, found: seq<Found>) {
    && (forall i :: 0 <= i < |found| ==>
          found[i].id !in Start(store, req) && 1 <= found[i].depth <= Depth(req)
          && Distance(store, req, found[i].depth, found[i].id) && Witnessed(store, req, found[i]))
    && (forall i, j :: 0 <= i < j < |found| ==> found[i].id != found[j].id && found[i].depth <= found[j].depth)
    && (forall i, v :: 0 <= i < |found| && Within(store, req, found[i].depth - 1, v) ==> Known(store, req, found, i, v))
  }

  ghost predicate FoundRight(store: Store, req: Request, w: Walk) {
    && (forall v :: v in w.visited <==> Known(store, req, w.found, |w.found|, v))
    && Ranked(store, req, w.found)
  }

  /** The queue while the walk is at depth `h`: nodes at `h`, then nodes at `h + 1`; all nearer nodes are visited. */
  ghost predicate Level(store: Store, req: Request, w: Walk, h: nat) {
    && (forall i :: 0 <= i < |w.queue| ==>
          h <= w.queue[i].1 <= h + 1 && w.queue[i].0 in w.visited && Distance(store, req, w.queue[i].1, w.queue[i].0))
    && (forall i, j :: 0 <= i < j < |w.queue| ==> w.queue[i].1 <= w.queue[j].1)
    && (forall v :: Within(store, req, h, v) ==> v in w.visited)
    && (forall i :: 0 <= i < |w.found| ==> w.found[i].depth <= h + 1)
  }

  /** Visited nodes above the depth limit that are out of the queue have been expanded, `u` aside. */
  ghost predicate Settled(store: Store, req: Request, w: Walk, u: Option<Node>) {
    forall v, d: nat :: v in w.visited && !Queued(w, v) && u != Some(v) && d < Depth(req) && Distance(store, req, d, v) ==>
      Expanded(store, req, w.visited, v)
  }

  /** While node `u` at depth `d` is being expanded, `k` of its edges read. */
  ghost predicate Expanding(store: Store, req: Request, w: Walk, u: Node, d: nat, k: nat) {
    && FoundRight(store, req, w) && Level(store, req, w, d) && Settled(store, req, w, Some(u))
    && Distance(store, req, d, u) && d < Depth(req)
    && k <= |Matching(store, req, u)| && (Full(req, w) || Covered(store, req, w.visited, Matching(store, req, u)[..k]))
  }

  // ------------------------------------------------------------------ one row

  /** A row that adds a node. */
  ghost predicate Adds(store: Store, req: Request, w: Walk, e: Edge) {
    !Full(req, w) && Admits(store, req, e.target) && e.target !in w.visited
  }

  /** The added node is exactly one link further than the node being expanded. */
  lemma NewDistance(store: Store, req: Request, w: Walk, u: Node, d: nat, k: nat)
    requires Expanding(store, req, w, u, d, k) && k < |Matching(store, req, u)| && Adds(store, req, w, Matching(store, req, u)[k])
    ensures var e := Matching(store, req, u)[k];
            Distance(store, req, d + 1, e.target) && Witnessed(store, req, Found(e.target, d + 1, e.etype, e.weight))
  {
    hide Matching, Start, Admits, FoundRight, Settled;
    var m := Matching(store, req, u);
    var r := Found(m[k].target, d + 1, m[k].etype, m[k].weight);
    assert Link(store, req, u, m[k].target);
    assert Within(store, req, d + 1, m[k].target);
    forall y | 0 <= y < k ensures m[y].target != r.id {
      assert m[..k][y] == m[y];
    }
    assert FirstEdge(m, k, r);
  }

  lemma TakeFound(store: Store, req: Request, w: Walk, d: nat, e: Edge)
    requires FoundRight(store, req, w) && Adds(store, req, w, e) && d < Depth(req)
    requires (forall i :: 0 <= i < |w.found| ==> w.found[i].depth <= d + 1) && forall v :: Within(store, req, d, v) ==> v in w.visited
    requires Distance(store, req, d + 1, e.target) && Witnessed(store, req, Found(e.target, d + 1, e.etype, e.weight))
    ensures FoundRight(store, req, Take(store, req, w, d, e))
  {
    hide Start, Admits, Distance, Witnessed, Within;
    var next := Take(store, req, w, d, e);
    var n := |w.found|;
    assert next.found[n].id == e.target;
    forall i: nat, v | i <= n && Known(store, req, w.found, i, v) ensures Known(store, req, next.found, i, v) {
      KnownPrefix(store, req, w.found, next.found, i, v);
    }
    forall v ensures v in next.visited <==> Known(store, req, next.found, n + 1, v) {
      if j :| 0 <= j < n && w.found[j].id == v { assert next.found[j].id == v; }
    }
  }

  lemma KnownPrefix(store: Store, req: Request, found: seq<Found>, more: seq<Found>, i: nat, v: Node)
    requires i <= |found| && found <= more
    ensures Known(store, req, found, i, v) <==> Known(store, req, more, i, v)
  {
    hide Start;
    if j :| 0 <= j < i && found[j].id == v { assert more[j].id == v; }
    if j :| 0 <= j < i && more[j].id == v { assert found[j].id == v; }
  }

  lemma TakeLevel(store: Store, req: Request, w: Walk, d: nat, e: Edge)
    requires Level(store, req, w, d) && Adds(store, req, w, e) && Distance(store, req, d + 1, e.target)
    ensures Level(store, req, Take(store, req, w, d, e), d)
  {
    hide Within, Admits, Distance;
  }

  lemma TakeSettles(store: Store, req: Request, w: Walk, d: nat, e: Edge, u: Option<Node>)
    requires Settled(store, req, w, u) && Adds(store, req, w, e)
    ensures Settled(store, req, Take(store, req, w, d, e), u)
  {
    hide Admits, Distance, Matching;
    var next := Take(store, req, w, d, e);
    assert next.queue[|w.queue|].0 == e.target;
    forall v | Queued(w, v) ensures Queued(next, v) {
      var i :| 0 <= i < |w.queue| && w.queue[i].0 == v;
      assert next.queue[i].0 == v;
    }
  }

  lemma TakeKeeps(store: Store, req: Request, w: Walk, u: Node, d: nat, k: nat)
    requires Expanding(store, req, w, u, d, k) && k < |Matching(store, req, u)|
    ensures Expanding(store, req, Take(store, req, w, d, Matching(store, req, u)[k]), u, d, k + 1)
  {
    var m := Matching(store, req, u);
    if Adds(store, req, w, m[k]) {
      NewDistance(store, req, w, u, d, k);
      TakeFound(store, req, w, d, m[k]);
      TakeLevel(store, req, w, d, m[k]);
      TakeSettles(store, req, w, d, m[k], Some(u));
    }
    hide Matching, Start, Admits, Within, Distance, FoundRight, Settled;
    assert m[..k + 1] == m[..k] + [m[k]];
  }

  lemma {:induction false} AbsorbKeeps(store: Store, req: Request, w: Walk, u: Node, d: nat, k: nat)
    requires Expanding(store, req, w, u, d, 0) && k <= |Matching(store, req, u)|
    ensures Expanding(store, req, Absorb(store, req, w, d, Matching(store, req, u)[..k]), u, d, k)
  {
    hide Expanding, Matching;
    var m := Matching(store, req, u);
    if k > 0 {
      AbsorbKeeps(store, req, w, u, d, k - 1);
      assert m[..k][..k - 1] == m[..k - 1];
      TakeKeeps(store, req, Absorb(store, req, w, d, m[..k - 1]), u, d, k - 1);
    }
  }

  // ------------------------------------------------------------------ one node

  /** Between nodes: what the walk keeps. */
  ghost predicate Walking(store: Store, req: Request, w: Walk) {
    && FoundRight(store, req, w) && Settled(store, req, w, None) && Placed(store, req, w)
    && (w.queue != [] && w.queue[0].1 < Depth(req) ==> Level(store, req, w, w.queue[0].1))
  }

  ghost predicate Placed(store: Store, req: Request, w: Walk) {
    && (forall i :: 0 <= i < |w.queue| ==> Distance(store, req, w.queue[i].1, w.queue[i].0))
    && (forall i, j :: 0 <= i < j < |w.queue| ==> w.queue[i].1 <= w.queue[j].1)
  }

  /** Taking the head off the queue leaves every other queued node queued. */
  lemma StillQueued(w: Walk, v: Node)
    requires w.queue != [] && Queued(w, v) && v != w.queue[0].0
    ensures Queued(w.(queue := w.queue[1..]), v)
  {
    var i :| 0 <= i < |w.queue| && w.queue[i].0 == v;
    assert w.(queue := w.queue[1..]).queue[i - 1].0 == v;
  }

  /** Taking the head off the queue to expand it. */
  lemma Popped(store: Store, req: Request, w: Walk)
    requires Walking(store, req, w) && w.queue != [] && w.queue[0].1 < Depth(req)
    ensures Expanding(store, req, w.(queue := w.queue[1..]), w.queue[0].0, w.queue[0].1, 0)
  {
    hide Within, Matching, Start, Admits, Distance, Expanded;
    forall v | Queued(w, v) && v != w.queue[0].0 ensures Queued(w.(queue := w.queue[1..]), v) { StillQueued(w, v); }
    assert FoundRight(store, req, w.(queue := w.queue[1..]));
  }

  /** Taking a head at the depth limit off the queue. */
  lemma Skipped(store: Store, req: Request, w: Walk)
    requires Walking(store, req, w) && w.queue != [] && w.queue[0].1 >= Depth(req)
    ensures Walking(store, req, w.(queue := w.queue[1..]))
  {
    hide Within, Matching, Start, Admits, Distance, Expanded;
    var head, next := w.queue[0], w.(queue := w.queue[1..]);
    assert FoundRight(store, req, next);
    forall v, d: nat | v in w.visited && !Queued(next, v) && d < Depth(req) && Distance(store, req, d, v)
      ensures Expanded(store, req, w.visited, v)
    {
      if v == head.0 { TwoDistances(store, req, d, head.1, v); } else if Queued(w, v) { StillQueued(w, v); }
    }
  }

  lemma TwoDistances(store: Store, req: Request, d: nat, e: nat, v: Node)
    requires Distance(store, req, d, v) && Distance(store, req, e, v)
    ensures d == e
  {
    DistanceIsOne(store, req, d, e, v);
  }

  lemma {:induction false} HasDistance(store: Store, req: Request, k: nat, v: Node) returns (d: nat)
    requires Within(store, req, k, v)
    ensures d <= k && Distance(store, req, d, v)
  {
    if k > 0 && Within(store, req, k - 1, v) { d := HasDistance(store, req, k - 1, v); } else { d := k; }
  }

  /** A node's links are all visited once it is visited, out of the queue and above the depth limit. */
  lemma LinksVisited(store: Store, req: Request, w: Walk, k: nat, t: Node, v: Node)
    requires Settled(store, req, w, None) && t in w.visited && !Queued(w, t)
    requires Within(store, req, k, t) && k < Depth(req) && Link(store, req, t, v)
    ensures v in w.visited
  {
    hide Within, Matching, Admits, Distance;
    var d := HasDistance(store, req, k, t);
    assert Expanded(store, req, w.visited, t);
  }

  /** A node read to its end: the walk is between nodes again, the next level complete if it is its turn. */
  lemma NodeDone(store: Store, req: Request, w: Walk, u: Node, d: nat)
    requires Expanding(store, req, w, u, d, |Matching(store, req, u)|) && !Full(req, w)
    ensures Walking(store, req, w)
  {
    hide Within, Matching, Start, Admits, Distance, FoundRight;
    var m := Matching(store, req, u);
    assert m[..|m|] == m;
    assert Expanded(store, req, w.visited, u);
    assert Settled(store, req, w, None);
    if w.queue != [] && w.queue[0].1 != d {
      forall v | Within(store, req, d + 1, v) ensures v in w.visited {
        NextLevelVisited(store, req, w, d, v);
      }
    }
  }

  lemma NextLevelVisited(store: Store, req: Request, w: Walk, d: nat, v: Node)
    requires Level(store, req, w, d) && Settled(store, req, w, None) && d < Depth(req)
    requires w.queue != [] && w.queue[0].1 == d + 1 && Within(store, req, d + 1, v)
    ensures v in w.visited
  {
    hide Matching, Admits, Start, Settled, Link;
    if !Within(store, req, d, v) {
      var t :| Within(store, req, d, t) && Link(store, req, t, v);
      LinksVisited(store, req, w, d, t, v);
    }
  }

  // ------------------------------------------------------------------ sequences of rows

  lemma {:induction false} AbsorbAppend(store: Store, req: Request, w: Walk, d: nat, a: seq<Edge>, b: seq<Edge>)
    ensures Absorb(store, req, w, d, a + b) == Absorb(store, req, Absorb(store, req, w, d, a), d, b)
  {
    hide Take;
    if b == [] {
      assert a + b == a;
    } else {
      var n := |b| - 1;
      AbsorbAppend(store, req, w, d, a, b[..n]);
      assert (a + b)[..|a + b| - 1] == a + b[..n];
    }
  }

  lemma AbsorbNone(store: Store, req: Request, w: Walk, d: nat)
    ensures Absorb(store, req, w, d, []) == w
  {
  }

  lemma {:induction false} AbsorbSizes(store: Store, req: Request, w: Walk, d: nat, rows: seq<Edge>)
    requires req.maxNodes.Some? ==> |w.found| <= req.maxNodes.value
    ensures |Absorb(store, req, w, d, rows).queue| <= |w.queue| + |rows|
    ensures req.maxNodes.Some? ==> |Absorb(store, req, w, d, rows).found| <= req.maxNodes.value
  {
    hide Admits;
    if rows != [] { AbsorbSizes(store, req, w, d, rows[..|rows| - 1]); }
  }

  function Budget(req: Request): int {
    (if req.maxNodes.Some? then req.maxNodes.value else MAX_ROOTS) * BUDGET_MULTIPLIER
  }

  lemma Starting(store: Store, req: Request, w: Walk)
    requires w.visited == (set v | v in Start(store, req)) && w.found == []
    requires w.queue == seq(|Start(store, req)|, i requires 0 <= i < |Start(store, req)| => (Start(store, req)[i], 0))
    ensures Walking(store, req, w)
  {
    hide Matching, Admits, Start;
    forall v | v in w.visited ensures Queued(w, v) {
      var i :| 0 <= i < |Start(store, req)| && Start(store, req)[i] == v;
      assert w.queue[i].0 == v;
    }
    assert forall v :: v in Start(store, req) <==> Within(store, req, 0, v);
  }

  /** Every result is what was asked for. */
  lemma RankedIsAsked(store: Store, req: Request, found: seq<Found>, i: nat)
    requires ValidStore(store) && Ranked(store, req, found) && i < |found|
    ensures Asked(store, req, found[i])
  {
    hide Matching, Start, Followed, RootOf, ValidStore;
    var r := found[i];
    RootsAre(store, req, r.id);
    assert Distance(store, req, r.depth, r.id);
    var t :| Within(store, req, r.depth - 1, t) && Link(store, req, t, r.id);
    var u, x :| Distance(store, req, r.depth - 1, u) && 0 <= x < |Matching(store, req, u)| && FirstEdge(Matching(store, req, u), x, r);
    MatchingAre(store, req, u);
    var m, rows := Matching(store, req, u), store.adjacency(u);
    assert m[x] in m;
    var y :| 0 <= y < |rows| && rows[y] == m[x];
    assert Reports(store, req, rows[y], r);
  }
}

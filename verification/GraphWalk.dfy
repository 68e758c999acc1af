/**
 graph_query's loops: pages of one node, nodes of one queue. Proved against the filtered graph of
 `Traversal` and the trace of `WalkTrace`.
 */
module GraphWalk {
  import opened Prelude
  import opened Traversal
  import opened WalkTrace

  /** The rows of one page, in order; stops when the node cap is met. */
  method TakePage(store: Store, req: Request, w: Walk, d: nat, rows: seq<Edge>) returns (next: Walk)
    requires !Full(req, w)
    ensures next == Absorb(store, req, w, d, rows)
  {
    hide Admits;
    var valid := set x | 0 <= x < |rows| && Admits(store, req, rows[x].target) :: rows[x].target;
    next := w;
    for x := 0 to |rows|
      invariant next == Absorb(store, req, w, d, rows[..x])
    {
      var e := rows[x];
      assert rows[..x + 1][..x] == rows[..x] && rows[..x + 1][x] == e;
      assert e.target in valid <==> Admits(store, req, e.target);
      if !Full(req, next) && e.target in valid && e.target !in next.visited {
        next := Walk(next.visited + {e.target}, next.found + [Found(e.target, d + 1, e.etype, e.weight)],
                     next.queue + [(e.target, d + 1)]);
      }
    }
    assert rows[..|rows|] == rows;
  }

  /** Pages through one node's edges. `total - scanned` edges were examined, each once and in index order;
      all of them, unless the walk is full or the budget is spent. */
  method ExpandNode(store: Store, req: Request, w: Walk, u: Node, d: nat, scanned: nat, budget: nat)
    returns (next: Walk, total: nat)
    requires ValidStore(store) && !Full(req, w) && scanned < budget
    ensures scanned <= total <= budget && total - scanned <= |Matching(store, req, u)|
    ensures next == Absorb(store, req, w, d, Matching(store, req, u)[..total - scanned])
    ensures Full(req, next) || total == budget || total - scanned == |Matching(store, req, u)|
  {
    ghost var m := Matching(store, req, u);
    hide Matching, Absorb, ValidStore, Take;
    var lastType, lastRow := 0, 0;
    next, total := w, scanned;
    assert m[..0] == [];
    AbsorbNone(store, req, w, d);
    var more := true;
    while more
      invariant scanned <= total <= budget && total - scanned <= |m| && next == Absorb(store, req, w, d, m[..total - scanned])
      invariant if total == scanned then lastType == 0
                else lastType == m[total - scanned - 1].etype && lastRow == m[total - scanned - 1].rowid
      invariant if more then !Full(req, next) && total < budget else Full(req, next) || total == budget || total - scanned == |m|
      decreases more, budget - total
    {
      var left := budget - total;
      var pageLimit := if req.namespace.Some? || req.maxNodes.None? then left else Min(req.maxNodes.value - |next.found|, left);
      ghost var read := total - scanned;
      var rows := ReadPage(store, req, u, lastType, lastRow, pageLimit, read);
      total := total + |rows|;
      AbsorbAppend(store, req, w, d, m[..read], rows);
      assert m[..read] + rows == m[..read + |rows|];
      next := TakePage(store, req, next, d, rows);
      if rows != [] { lastType, lastRow := rows[|rows| - 1].etype, rows[|rows| - 1].rowid; }
      more := !(Full(req, next) || |rows| < pageLimit || total >= budget);
    }
  }

  /** The walk. Results are distinct non-roots, nearest first, each at its true shortest distance in the
      filtered graph and after every node that is nearer, even when the walk was cut. They are what was
      to be discovered in the edges examined, in that order, each with the edge that discovered it; and
      the walk stopped only at the node cap, at the edge budget, which it never exceeds, or at the end.
      If the nodes to find and the edges to examine stay below both, it returns every node within the
      depth limit. */
  method GraphQuery(store: Store, req: Request) returns (out: Outcome)
    requires ValidStore(store)
    ensures req.roots == [] ==> out == Nodes([])
    ensures req.roots != [] ==> (out.BadMaxNodes? <==> req.maxNodes.Some? && req.maxNodes.value < 1)
    ensures out.Nodes? ==> Ranked(store, req, out.found)
    ensures out.Nodes? ==> forall i :: 0 <= i < |out.found| ==> Asked(store, req, out.found[i])
    ensures out.Nodes? && req.roots != [] ==> exists n: nat, k: nat :: WalkOf(store, req, out.found, n, k)
    ensures out.Nodes? && req.roots != [] && Fits(store, req) ==>
              forall v, l: nat :: l <= Depth(req) && Within(store, req, l, v) ==> Known(store, req, out.found, |out.found|, v)
  {
    if req.roots == [] { return Nodes([]); }
    if req.maxNodes.Some? && req.maxNodes.value < 1 { return BadMaxNodes; }
    hide Ranked, WalkOf, Fits, Within, Asked, ValidStore;
    var found, n, k := WalkFromRoots(store, req);
    CutIff(store, req, found, n, k);
    forall i | 0 <= i < |found| ensures Asked(store, req, found[i]) { RankedIsAsked(store, req, found, i); }
    out := Nodes(found);
  }

  /** What reading `k` edges of the head of the queue leaves. */
  lemma NodeRead(store: Store, req: Request, w: Walk, next: Walk, n: nat, k: nat, total: nat)
    requires Walking(store, req, w) && AtNode(store, req, w, n, total) && !Full(req, w)
    requires w.queue != [] && w.queue[0].1 < Depth(req) && k <= |Matching(store, req, w.queue[0].0)|
    requires next == Absorb(store, req, w.(queue := w.queue[1..]), w.queue[0].1, Matching(store, req, w.queue[0].0)[..k])
    ensures Expanding(store, req, next, w.queue[0].0, w.queue[0].1, k) && Ranked(store, req, next.found)
    ensures Reading(store, req, next, n, k, w.queue[0]) && total == Cost(store, req, Order(store, req, next.found)[..n])
    ensures Rows(store, req, w.queue[0]) == Matching(store, req, w.queue[0].0)
    ensures |next.queue| <= |w.queue| - 1 + k && (req.maxNodes.Some? ==> |next.found| <= req.maxNodes.value)
  {
    hide Matching, Absorb, Expanding, Walking, Reading, AtNode, Ranked, Cost, Order;
    var at, popped := w.queue[0], w.(queue := w.queue[1..]);
    Popped(store, req, w);
    HeadIsNext(store, req, w, n, total);
    AbsorbKeeps(store, req, popped, at.0, at.1, k);
    AbsorbTraces(store, req, popped, n, k, at);
    AbsorbSizes(store, req, popped, at.1, Matching(store, req, at.0)[..k]);
    NodeInOrder(store, req, w, n, total);
    CostStays(store, req, w.found, next.found, n);
    ExpandingIsRanked(store, req, next, at.0, at.1, k);
  }

  lemma NodeInOrder(store: Store, req: Request, w: Walk, n: nat, total: nat)
    requires AtNode(store, req, w, n, total)
    ensures n <= |Order(store, req, w.found)|
  {
  }

  lemma ExpandingIsRanked(store: Store, req: Request, w: Walk, u: Node, d: nat, k: nat)
    requires Expanding(store, req, w, u, d, k)
    ensures Ranked(store, req, w.found)
  {
  }

  lemma WalkingIsRanked(store: Store, req: Request, w: Walk)
    requires Walking(store, req, w)
    ensures Ranked(store, req, w.found)
  {
  }

  /** The loop over the queue, for a node cap that is none or positive. It stops after `n` whole nodes
      and `k` edges of the next. */
  method WalkFromRoots(store: Store, req: Request) returns (found: seq<Found>, ghost n: nat, ghost k: nat)
    requires ValidStore(store) && (req.maxNodes.Some? ==> req.maxNodes.value >= 1)
    ensures Ranked(store, req, found) && WalkOf(store, req, found, n, k)
  {
    hide Matching, Start, Absorb, ValidStore, Expanding, Walking, Reading, AtNode, Ranked, WalkOf, Cost, Order, Rows;
    var roots := Start(store, req);
    var w := Walk(set v | v in roots, [], seq(|roots|, i requires 0 <= i < |roots| => (roots[i], 0)));
    Starting(store, req, w);
    StartsAtNode(store, req, w);
    var budget: nat, total: nat := Budget(req), 0;
    n, k := 0, 0;
    while w.queue != [] && total < budget
      invariant Walking(store, req, w) && !Full(req, w) && total <= budget && AtNode(store, req, w, n, total)
      decreases budget - total + |w.queue|
    {
      var at := w.queue[0];
      var popped := w.(queue := w.queue[1..]);
      if at.1 >= Depth(req) {
        Skipped(store, req, w);
        SkipAtNode(store, req, w, n, total);
        w := popped;
      } else {
        var next, after := ExpandNode(store, req, popped, at.0, at.1, total, budget);
        k := after - total;
        NodeRead(store, req, w, next, n, k, total);
        w, total := next, after;
        if Full(req, w) || total >= budget {
          StopsInNode(store, req, w, n, k, at, total);
          return w.found, n, k;
        }
        NodeDone(store, req, w, at.0, at.1);
        EndsNode(store, req, w, n, at, total - k);
      }
      n, k := n + 1, 0;
    }
    StopsAtNode(store, req, w, n, total);
    WalkingIsRanked(store, req, w);
    found := w.found;
  }
}

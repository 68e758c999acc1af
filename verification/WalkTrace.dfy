/**
 What a bounded walk read and what it made of it: the nodes in the order they were queued, the edges
 examined of each, and the result that leaves. Fixes the result completely, and says exactly when a
 walk is cut short.
 */
module WalkTrace {
  import opened Prelude
  import opened Traversal

  // ------------------------------------------------------------------ the order of reading

  /** The queue as it was filled: the roots, then every node found, each with its depth. */
  function Order(store: Store, req: Request, found: seq<Found>): (order: seq<(Node, nat)>)
    ensures |order| == |Start(store, req)| + |found|
    ensures forall p :: 0 <= p < |Start(store, req)| ==> order[p] == (Start(store, req)[p], 0)
    ensures forall i :: 0 <= i < |found| ==> order[|Start(store, req)| + i] == (found[i].id, found[i].depth)
  {
    var roots := Start(store, req);
    seq(|roots|, p requires 0 <= p < |roots| => (roots[p], 0)) + seq(|found|, i requires 0 <= i < |found| => (found[i].id, found[i].depth))
  }

  /** The edges a queued node is read for: none at the depth limit. */
  function Rows(store: Store, req: Request, at: (Node, nat)): seq<Edge> {
    if at.1 < Depth(req) then Matching(store, req, at.0) else []
  }

  /** How many edges are examined if these nodes are read to their ends. */
  function Cost(store: Store, req: Request, order: seq<(Node, nat)>): nat {
    if order == [] then 0 else Cost(store, req, order[..|order| - 1]) + |Rows(store, req, order[|order| - 1])|
  }

  /** Edge `y` of the `q`-th node is read before edge `x` of the `p`-th. */
  predicate Before(q: nat, y: nat, p: nat, x: nat) {
    q < p || (q == p && y < x)
  }

  /** Every admitted edge read before edge `x` of the `p`-th node leads to a root or to one of the first `i` found. */
  ghost predicate AllKnown(store: Store, req: Request, found: seq<Found>, i: nat, p: nat, x: nat)
    requires i <= |found|
  {
    var order := Order(store, req, found);
    forall q: nat, y: nat :: q < |order| && y < |Rows(store, req, order[q])| && Before(q, y, p, x) ==>
      Leads(store, req, found, i, Rows(store, req, order[q])[y])
  }

  ghost predicate Leads(store: Store, req: Request, found: seq<Found>, i: nat, e: Edge)
    requires i <= |found|
  {
    Admits(store, req, e.target) ==> Known(store, req, found, i, e.target)
  }

  /** Result `i` is edge `x` of the `p`-th node, the first edge read that leads to anything new after the
      first `i` results. */
  ghost predicate Discovers(store: Store, req: Request, found: seq<Found>, i: nat, p: nat, x: nat)
    requires i < |found|
  {
    var order := Order(store, req, found);
    p < |Start(store, req)| + i && x < |Rows(store, req, order[p])|
    && var e := Rows(store, req, order[p])[x];
       Admits(store, req, e.target) && found[i] == Found(e.target, order[p].1 + 1, e.etype, e.weight)
       && AllKnown(store, req, found, i, p, x)
  }

  ghost predicate Discovered(store: Store, req: Request, found: seq<Found>, i: nat, n: nat, k: nat)
    requires i < |found|
  {
    exists p: nat, x: nat :: Before(p, x, n, k) && Discovers(store, req, found, i, p, x)
  }

  /** The first `n` nodes read to their ends and `k` edges of the next: every result was discovered there,
      and, unless the walk is full, nothing else was there to discover. */
  ghost predicate Traced(store: Store, req: Request, found: seq<Found>, n: nat, k: nat, full: bool) {
    (forall i :: 0 <= i < |found| ==> Discovered(store, req, found, i, n, k))
    && (full || AllKnown(store, req, found, |found|, n, k))
  }

  predicate AtCap(req: Request, found: seq<Found>) {
    req.maxNodes.Some? && |found| >= req.maxNodes.value
  }

  /** Reading stopped inside the order, after `n` whole nodes and `k` edges of the next. */
  predicate Stops(store: Store, req: Request, found: seq<Found>, n: nat, k: nat) {
    var order := Order(store, req, found);
    n <= |order| && (k > 0 ==> n < |order| && k <= |Rows(store, req, order[n])|)
  }

  /** The edges examined. */
  function Examined(store: Store, req: Request, found: seq<Found>, n: nat, k: nat): nat
    requires Stops(store, req, found, n, k)
  {
    Cost(store, req, Order(store, req, found)[..n]) + k
  }

  /** A walk that stopped after `n` nodes and `k` edges: what it found there, within the cap and the
      budget, and that it stopped for no other reason than one of them or because all was read. */
  ghost predicate WalkOf(store: Store, req: Request, found: seq<Found>, n: nat, k: nat) {
    && Stops(store, req, found, n, k) && Traced(store, req, found, n, k, AtCap(req, found))
    && (req.maxNodes.Some? ==> |found| <= req.maxNodes.value)
    && Examined(store, req, found, n, k) <= Budget(req)
    && (AtCap(req, found) || Examined(store, req, found, n, k) == Budget(req) || n == |Order(store, req, found)|)
  }

  // ------------------------------------------------------------------ the trace grows with the walk

  lemma OrderGrows(store: Store, req: Request, found: seq<Found>, more: seq<Found>)
    requires found <= more
    ensures Order(store, req, found) <= Order(store, req, more)
  {
    var a, b := Order(store, req, found), Order(store, req, more);
    forall p | 0 <= p < |a| ensures a[p] == b[p] {
      if p >= |Start(store, req)| { assert found[p - |Start(store, req)|] == more[p - |Start(store, req)|]; }
    }
  }

  lemma AllKnownGrows(store: Store, req: Request, found: seq<Found>, more: seq<Found>, i: nat, j: nat, p: nat, x: nat)
    requires found <= more && i <= j && i <= |found| && j <= |more|
    requires p < |Order(store, req, found)| || (p == |Order(store, req, found)| && x == 0)
    requires AllKnown(store, req, found, i, p, x)
    ensures AllKnown(store, req, more, j, p, x)
  {
    hide Start, Admits, Rows, Order;
    OrderGrows(store, req, found, more);
    var a, b := Order(store, req, found), Order(store, req, more);
    forall q: nat, y: nat | q < |b| && y < |Rows(store, req, b[q])| && Before(q, y, p, x)
      ensures Leads(store, req, more, j, Rows(store, req, b[q])[y])
    {
      assert a[q] == b[q] && Leads(store, req, found, i, Rows(store, req, a[q])[y]);
      var v := Rows(store, req, a[q])[y].target;
      if Admits(store, req, v) { KnownGrows(store, req, found, more, i, j, v); }
    }
  }

  lemma KnownGrows(store: Store, req: Request, found: seq<Found>, more: seq<Found>, i: nat, j: nat, v: Node)
    requires found <= more && i <= j && i <= |found| && j <= |more| && Known(store, req, found, i, v)
    ensures Known(store, req, more, j, v)
  {
    hide Start;
    if k :| 0 <= k < i && found[k].id == v { assert more[k].id == v; }
  }

  lemma DiscoversGrows(store: Store, req: Request, found: seq<Found>, more: seq<Found>, i: nat, p: nat, x: nat)
    requires found <= more && i < |found| && Discovers(store, req, found, i, p, x)
    ensures Discovers(store, req, more, i, p, x)
  {
    hide Rows, AllKnown, Admits;
    OrderGrows(store, req, found, more);
    AllKnownGrows(store, req, found, more, i, i, p, x);
    assert Order(store, req, found)[p] == Order(store, req, more)[p];
  }

  /** One more edge examined, which adds a node. */
  lemma AddTraces(store: Store, req: Request, found: seq<Found>, n: nat, k: nat, full: bool)
    requires n < |Order(store, req, found)| && k < |Rows(store, req, Order(store, req, found)[n])|
    requires Traced(store, req, found, n, k, false)
    requires Admits(store, req, Rows(store, req, Order(store, req, found)[n])[k].target)
    ensures var at := Order(store, req, found)[n];
            var e := Rows(store, req, at)[k];
            Traced(store, req, found + [Found(e.target, at.1 + 1, e.etype, e.weight)], n, k + 1, full)
  {
    hide Rows, Admits, Start, Discovers, Order;
    var at := Order(store, req, found)[n];
    var e := Rows(store, req, at)[k];
    var more := found + [Found(e.target, at.1 + 1, e.etype, e.weight)];
    var l := k + 1;
    forall i | 0 <= i < |found| ensures Discovered(store, req, more, i, n, l) {
      assert Discovered(store, req, found, i, n, k);
      var p: nat, x: nat :| Before(p, x, n, k) && Discovers(store, req, found, i, p, x);
      DiscoversGrows(store, req, found, more, i, p, x);
    }
    NewlyDiscovers(store, req, found, more, n, k);
    OneMoreKnown(store, req, found, more, n, k);
  }

  lemma NewlyDiscovers(store: Store, req: Request, found: seq<Found>, more: seq<Found>, n: nat, k: nat)
    requires n < |Order(store, req, found)| && k < |Rows(store, req, Order(store, req, found)[n])|
    requires AllKnown(store, req, found, |found|, n, k) && found <= more && |more| == |found| + 1
    requires var at := Order(store, req, found)[n];
             var e := Rows(store, req, at)[k];
             Admits(store, req, e.target) && more[|found|] == Found(e.target, at.1 + 1, e.etype, e.weight)
    ensures Discovered(store, req, more, |found|, n, k + 1)
  {
    hide Rows, Admits, AllKnown;
    OrderGrows(store, req, found, more);
    AllKnownGrows(store, req, found, more, |found|, |found|, n, k);
    assert Order(store, req, more)[n] == Order(store, req, found)[n];
    assert Discovers(store, req, more, |found|, n, k) && Before(n, k, n, k + 1);
  }

  lemma OneMoreKnown(store: Store, req: Request, found: seq<Found>, more: seq<Found>, n: nat, k: nat)
    requires n < |Order(store, req, found)| && k < |Rows(store, req, Order(store, req, found)[n])|
    requires AllKnown(store, req, found, |found|, n, k) && found <= more
    requires Leads(store, req, more, |more|, Rows(store, req, Order(store, req, found)[n])[k])
    ensures AllKnown(store, req, more, |more|, n, k + 1)
  {
    hide Rows, Leads, Order;
    OrderGrows(store, req, found, more);
    AllKnownGrows(store, req, found, more, |found|, |more|, n, k);
    var b := Order(store, req, more);
    forall q: nat, y: nat | q < |b| && y < |Rows(store, req, b[q])| && Before(q, y, n, k + 1)
      ensures Leads(store, req, more, |more|, Rows(store, req, b[q])[y])
    {
      if q == n && y == k { assert b[n] == Order(store, req, found)[n]; } else { assert Before(q, y, n, k); }
    }
  }

  /** One more edge examined, which adds nothing. */
  lemma PassTraces(store: Store, req: Request, found: seq<Found>, n: nat, k: nat, full: bool)
    requires n < |Order(store, req, found)| && k < |Rows(store, req, Order(store, req, found)[n])|
    requires Traced(store, req, found, n, k, full)
    requires full || Leads(store, req, found, |found|, Rows(store, req, Order(store, req, found)[n])[k])
    ensures Traced(store, req, found, n, k + 1, full)
  {
    hide Rows, Leads, Discovers, Order, AllKnown;
    if !full { OneMoreKnown(store, req, found, found, n, k); }
    var l := k + 1;
    forall i | 0 <= i < |found| ensures Discovered(store, req, found, i, n, l) {
      assert Discovered(store, req, found, i, n, k);
      var p: nat, x: nat :| Before(p, x, n, k) && Discovers(store, req, found, i, p, x);
      assert Before(p, x, n, l);
    }
  }

  /** A node read to its end: the next one's turn. */
  lemma NextTraces(store: Store, req: Request, found: seq<Found>, n: nat, full: bool)
    requires n < |Order(store, req, found)|
    requires Traced(store, req, found, n, |Rows(store, req, Order(store, req, found)[n])|, full)
    ensures Traced(store, req, found, n + 1, 0, full)
  {
    hide Rows, Leads, Discovers, Order;
    var k := |Rows(store, req, Order(store, req, found)[n])|;
    var m := n + 1;
    forall i | 0 <= i < |found| ensures Discovered(store, req, found, i, m, 0) {
      assert Discovered(store, req, found, i, n, k);
      var p: nat, x: nat :| Before(p, x, n, k) && Discovers(store, req, found, i, p, x);
      assert Before(p, x, m, 0);
    }
  }

  lemma NothingTraced(store: Store, req: Request, full: bool)
    ensures Traced(store, req, [], 0, 0, full)
  {
  }

  /** The walk's queue is what is left of the order. */
  ghost predicate Pending(store: Store, req: Request, w: Walk, m: nat) {
    var order := Order(store, req, w.found);
    m <= |order| && w.queue == order[m..]
  }

  /** The node being read is the `n`-th, and what was read of it so far is traced. */
  ghost predicate Reading(store: Store, req: Request, w: Walk, n: nat, k: nat, at: (Node, nat)) {
    && Pending(store, req, w, n + 1) && Order(store, req, w.found)[n] == at
    && Traced(store, req, w.found, n, k, Full(req, w))
  }

  /** One row of the walk is one edge of the trace. */
  lemma TakeTraces(store: Store, req: Request, w: Walk, n: nat, k: nat, at: (Node, nat))
    requires Reading(store, req, w, n, k, at) && k < |Rows(store, req, at)|
    requires forall v :: v in w.visited <==> Known(store, req, w.found, |w.found|, v)
    ensures Reading(store, req, Take(store, req, w, at.1, Rows(store, req, at)[k]), n, k + 1, at)
    ensures w.found <= Take(store, req, w, at.1, Rows(store, req, at)[k]).found
  {
    hide Rows, Admits, Start, Traced, Known;
    var e := Rows(store, req, at)[k];
    var next := Take(store, req, w, at.1, e);
    if Full(req, w) || !Admits(store, req, e.target) || e.target in w.visited {
      PassTraces(store, req, w.found, n, k, Full(req, w));
    } else {
      var order, longer := Order(store, req, w.found), Order(store, req, next.found);
      OrderGrows(store, req, w.found, next.found);
      assert longer == order + [(e.target, at.1 + 1)];
      AddTraces(store, req, w.found, n, k, Full(req, next));
    }
  }

  lemma {:induction false} AbsorbTraces(store: Store, req: Request, w: Walk, n: nat, k: nat, at: (Node, nat))
    requires Reading(store, req, w, n, 0, at) && at.1 < Depth(req) && k <= |Matching(store, req, at.0)|
    requires Expanding(store, req, w, at.0, at.1, 0)
    ensures var next := Absorb(store, req, w, at.1, Matching(store, req, at.0)[..k]);
            Reading(store, req, next, n, k, at) && w.found <= next.found
  {
    hide Expanding, Reading, Matching, Take, Known;
    var m := Matching(store, req, at.0);
    if k > 0 {
      AbsorbTraces(store, req, w, n, k - 1, at);
      assert m[..k][..k - 1] == m[..k - 1];
      AbsorbKeeps(store, req, w, at.0, at.1, k - 1);
      ExpandingKnows(store, req, Absorb(store, req, w, at.1, m[..k - 1]), at.0, at.1, k - 1);
      TakeTraces(store, req, Absorb(store, req, w, at.1, m[..k - 1]), n, k - 1, at);
    }
  }

  lemma ExpandingKnows(store: Store, req: Request, w: Walk, u: Node, d: nat, k: nat)
    requires Expanding(store, req, w, u, d, k)
    ensures forall v :: v in w.visited <==> Known(store, req, w.found, |w.found|, v)
  {
  }

  // ------------------------------------------------------------------ costs

  lemma {:induction false} CostAppend(store: Store, req: Request, a: seq<(Node, nat)>, b: seq<(Node, nat)>)
    ensures Cost(store, req, a + b) == Cost(store, req, a) + Cost(store, req, b)
  {
    hide Rows;
    if b == [] {
      assert a + b == a;
    } else {
      CostAppend(store, req, a, b[..|b| - 1]);
      assert (a + b)[..|a + b| - 1] == a + b[..|b| - 1];
    }
  }

  /** One node more. */
  lemma CostNext(store: Store, req: Request, order: seq<(Node, nat)>, n: nat)
    requires n < |order|
    ensures Cost(store, req, order[..n + 1]) == Cost(store, req, order[..n]) + |Rows(store, req, order[n])|
  {
    assert order[..n + 1][..n] == order[..n];
  }

  lemma CostOfPart(store: Store, req: Request, order: seq<(Node, nat)>, m: nat, n: nat)
    requires m <= n <= |order|
    ensures Cost(store, req, order[..m]) <= Cost(store, req, order[..n])
  {
    hide Cost;
    CostAppend(store, req, order[..m], order[m..n]);
    assert order[..n] == order[..m] + order[m..n];
  }

  lemma ExaminedAtMostAll(store: Store, req: Request, found: seq<Found>, n: nat, k: nat)
    requires Stops(store, req, found, n, k)
    ensures Examined(store, req, found, n, k) <= Cost(store, req, Order(store, req, found))
  {
    hide Rows;
    var order := Order(store, req, found);
    assert order[..|order|] == order;
    if k > 0 {
      CostNext(store, req, order, n);
      CostOfPart(store, req, order, n + 1, |order|);
    } else {
      CostOfPart(store, req, order, n, |order|);
    }
  }

  /** A later place in the order is reached after no fewer edges. */
  lemma LaterCostsMore(store: Store, req: Request, order: seq<(Node, nat)>, n: nat, k: nat, p: nat, x: nat)
    requires n <= p <= |order| && (n == p ==> k <= x) && (k > 0 && n < p ==> k <= |Rows(store, req, order[n])|)
    ensures Cost(store, req, order[..n]) + k <= Cost(store, req, order[..p]) + x
  {
    hide Rows, Cost;
    if n < p {
      CostNext(store, req, order, n);
      CostOfPart(store, req, order, n + 1, p);
    }
  }

  // ------------------------------------------------------------------ from node to node

  /** Between nodes: `n` nodes are read to their ends, `total` edges in all. */
  ghost predicate AtNode(store: Store, req: Request, w: Walk, n: nat, total: nat) {
    Pending(store, req, w, n) && Traced(store, req, w.found, n, 0, false)
    && total == Cost(store, req, Order(store, req, w.found)[..n])
  }

  lemma StartsAtNode(store: Store, req: Request, w: Walk)
    requires w.found == []
    requires w.queue == seq(|Start(store, req)|, i requires 0 <= i < |Start(store, req)| => (Start(store, req)[i], 0))
    ensures AtNode(store, req, w, 0, 0)
  {
    hide Start;
    NothingTraced(store, req, false);
    assert w.queue == Order(store, req, []);
  }

  /** The head of the queue is the next node of the order. */
  lemma HeadIsNext(store: Store, req: Request, w: Walk, n: nat, total: nat)
    requires AtNode(store, req, w, n, total) && w.queue != []
    ensures Reading(store, req, w.(queue := w.queue[1..]), n, 0, w.queue[0])
    ensures total == Cost(store, req, Order(store, req, w.found)[..n])
  {
    hide Order, Cost, Discovered, AllKnown;
  }

  /** A node at the depth limit is not read. */
  lemma SkipAtNode(store: Store, req: Request, w: Walk, n: nat, total: nat)
    requires AtNode(store, req, w, n, total) && w.queue != [] && w.queue[0].1 >= Depth(req)
    ensures AtNode(store, req, w.(queue := w.queue[1..]), n + 1, total)
  {
    hide Order, Cost, Traced, Matching;
    var order := Order(store, req, w.found);
    assert order[n] == w.queue[0];
    NextTraces(store, req, w.found, n, false);
    CostNext(store, req, order, n);
  }

  lemma CostStays(store: Store, req: Request, found: seq<Found>, more: seq<Found>, n: nat)
    requires found <= more && n <= |Order(store, req, found)|
    ensures n <= |Order(store, req, more)| && Order(store, req, more)[..n] == Order(store, req, found)[..n]
  {
    hide Order;
    OrderGrows(store, req, found, more);
  }

  /** A node read to its end. */
  lemma EndsNode(store: Store, req: Request, w: Walk, n: nat, at: (Node, nat), before: nat)
    requires Reading(store, req, w, n, |Rows(store, req, at)|, at) && !Full(req, w)
    requires before == Cost(store, req, Order(store, req, w.found)[..n])
    ensures AtNode(store, req, w, n + 1, before + |Rows(store, req, at)|)
  {
    hide Order, Cost, Traced, Rows;
    NextTraces(store, req, w.found, n, false);
    CostNext(store, req, Order(store, req, w.found), n);
  }

  /** The walk ends inside a node, full or with its budget spent. */
  lemma StopsInNode(store: Store, req: Request, w: Walk, n: nat, k: nat, at: (Node, nat), total: nat)
    requires Reading(store, req, w, n, k, at) && k <= |Rows(store, req, at)|
    requires total == Cost(store, req, Order(store, req, w.found)[..n]) + k && total <= Budget(req)
    requires Full(req, w) || total == Budget(req)
    requires req.maxNodes.Some? ==> |w.found| <= req.maxNodes.value
    ensures WalkOf(store, req, w.found, n, k)
  {
    hide Order, Cost, Traced, Rows;
  }

  /** The walk ends between nodes, with its budget spent or nothing left. */
  lemma StopsAtNode(store: Store, req: Request, w: Walk, n: nat, total: nat)
    requires AtNode(store, req, w, n, total) && !Full(req, w) && total <= Budget(req) && (w.queue == [] || total == Budget(req))
    ensures WalkOf(store, req, w.found, n, 0)
  {
    hide Order, Cost, Discovered, AllKnown, Rows;
  }

  // ------------------------------------------------------------------ the trace leaves one result

  /** No two different results have a trace: which nodes are returned, in which order, with which edge,
      and where a walk that is cut stops, are all determined. */
  lemma OneResult(store: Store, req: Request, a: seq<Found>, n: nat, k: nat, b: seq<Found>, m: nat, l: nat)
    requires WalkOf(store, req, a, n, k) && Ranked(store, req, a) && WalkOf(store, req, b, m, l) && Ranked(store, req, b)
    ensures a == b
  {
    hide WalkOf, Ranked;
    if |a| <= |b| {
      SameSoFar(store, req, a, n, k, b, m, l, |a|);
      if |a| < |b| { NoLonger(store, req, a, n, k, b, m, l); }
    } else {
      SameSoFar(store, req, b, m, l, a, n, k, |b|);
      NoLonger(store, req, b, m, l, a, n, k);
    }
  }

  lemma {:induction false} SameSoFar(store: Store, req: Request, a: seq<Found>, n: nat, k: nat, b: seq<Found>, m: nat, l: nat, i: nat)
    requires WalkOf(store, req, a, n, k) && Ranked(store, req, a) && WalkOf(store, req, b, m, l) && Ranked(store, req, b)
    requires i <= |a| && i <= |b|
    ensures a[..i] == b[..i]
  {
    hide WalkOf, Ranked, Discovers;
    if i > 0 {
      SameSoFar(store, req, a, n, k, b, m, l, i - 1);
      var p, x := PlaceOf(store, req, a, n, k, i - 1);
      var q, y := PlaceOf(store, req, b, m, l, i - 1);
      SameNext(store, req, a, b, i - 1, p, x, q, y);
      OneMoreSame(a, b, i - 1);
    }
  }

  lemma OneMoreSame(a: seq<Found>, b: seq<Found>, i: nat)
    requires i < |a| && i < |b| && a[..i] == b[..i] && a[i] == b[i]
    ensures a[..i + 1] == b[..i + 1]
  {
    assert a[..i + 1] == a[..i] + [a[i]];
  }

  lemma PlaceOf(store: Store, req: Request, found: seq<Found>, n: nat, k: nat, i: nat) returns (p: nat, x: nat)
    requires WalkOf(store, req, found, n, k) && i < |found|
    ensures Before(p, x, n, k) && Discovers(store, req, found, i, p, x)
  {
    hide Stops, Examined, Discovers, AllKnown;
    assert Discovered(store, req, found, i, n, k);
    p, x :| Before(p, x, n, k) && Discovers(store, req, found, i, p, x);
  }

  lemma SameNext(store: Store, req: Request, a: seq<Found>, b: seq<Found>, i: nat, p: nat, x: nat, q: nat, y: nat)
    requires i < |a| && i < |b| && a[..i] == b[..i] && Ranked(store, req, a) && Ranked(store, req, b)
    requires Discovers(store, req, a, i, p, x) && Discovers(store, req, b, i, q, y)
    ensures a[i] == b[i]
  {
    hide Rows, Admits, AllKnown, Ranked, Order;
    SameOrder(store, req, a, b, i);
    NotBefore(store, req, a, b, i, p, x, q, y);
    NotBefore(store, req, b, a, i, q, y, p, x);
  }

  lemma SameOrder(store: Store, req: Request, a: seq<Found>, b: seq<Found>, i: nat)
    requires i <= |a| && i <= |b| && a[..i] == b[..i]
    ensures |Order(store, req, a[..i])| == |Start(store, req)| + i
    ensures Order(store, req, a)[..|Start(store, req)| + i] == Order(store, req, b)[..|Start(store, req)| + i]
    ensures forall p :: 0 <= p < |Start(store, req)| + i ==> Order(store, req, a)[p] == Order(store, req, b)[p]
  {
    OrderGrows(store, req, a[..i], a);
    OrderGrows(store, req, b[..i], b);
  }

  /** What one walk discovers cannot lie before what the other does: it would not be new there. */
  lemma NotBefore(store: Store, req: Request, a: seq<Found>, b: seq<Found>, i: nat, p: nat, x: nat, q: nat, y: nat)
    requires i < |a| && i <= |b| && a[..i] == b[..i] && Ranked(store, req, a)
    requires Discovers(store, req, a, i, p, x) && AllKnown(store, req, b, i, q, y)
    ensures !Before(p, x, q, y)
  {
    hide Rows, Admits, Order, Start, Ranked;
    SameOrder(store, req, a, b, i);
    NewIsUnknown(store, req, a, i);
    if Before(p, x, q, y) {
      var order := Order(store, req, b);
      assert order[p] == Order(store, req, a)[p];
      assert Leads(store, req, b, i, Rows(store, req, order[p])[x]);
      KnownInBoth(store, req, a, b, i, a[i].id);
    }
  }

  lemma KnownInBoth(store: Store, req: Request, a: seq<Found>, b: seq<Found>, i: nat, v: Node)
    requires i <= |a| && i <= |b| && a[..i] == b[..i] && Known(store, req, b, i, v)
    ensures Known(store, req, a, i, v)
  {
    hide Start;
    if j :| 0 <= j < i && b[j].id == v { assert a[..i][j] == b[..i][j]; }
  }

  lemma NewIsUnknown(store: Store, req: Request, a: seq<Found>, i: nat)
    requires i < |a| && Ranked(store, req, a)
    ensures !Known(store, req, a, i, a[i].id)
  {
    hide Start, Within, Distance, Witnessed;
  }

  /** A walk does not stop at a proper prefix of another's result: it would have stopped for no reason. */
  lemma NoLonger(store: Store, req: Request, a: seq<Found>, n: nat, k: nat, b: seq<Found>, m: nat, l: nat)
    requires WalkOf(store, req, a, n, k) && WalkOf(store, req, b, m, l) && Ranked(store, req, b)
    requires |a| <= |b| && b[..|a|] == a
    ensures |a| == |b|
  {
    hide Rows, Admits, Order, Start, AllKnown, Discovers, Ranked, Cost;
    var i := |a|;
    if i < |b| {
      var p, x := PlaceOf(store, req, b, m, l, i);
      DiscoveredIn(store, req, b, i, p, x);
      assert a[..i] == b[..i];
      SameOrder(store, req, a, b, i);
      NotBefore(store, req, b, a, i, p, x, n, k);
      var short, order := Order(store, req, a), Order(store, req, b);
      assert short[..p] == order[..p] && short[p] == order[p];
      LaterCostsMore(store, req, short, n, k, p, x);
      LaterCostsMore(store, req, order, p, x + 1, m, l);
    }
  }

  lemma DiscoveredIn(store: Store, req: Request, b: seq<Found>, i: nat, p: nat, x: nat)
    requires i < |b| && Discovers(store, req, b, i, p, x)
    ensures p < |Start(store, req)| + i && x < |Rows(store, req, Order(store, req, b)[p])|
  {
  }

  // ------------------------------------------------------------------ when a walk is cut

  /** The nodes one link from some node of a set. */
  function Linked(store: Store, req: Request, nodes: set<Node>): set<Node> {
    set u, x | u in nodes && 0 <= x < |Matching(store, req, u)| && Admits(store, req, Matching(store, req, u)[x].target)
      :: Matching(store, req, u)[x].target
  }

  /** The nodes at most `k` links from a root. */
  function Ball(store: Store, req: Request, k: nat): set<Node> {
    if k == 0 then set v | v in Start(store, req)
    else Ball(store, req, k - 1) + Linked(store, req, Ball(store, req, k - 1))
  }

  lemma {:induction false} BallIsWithin(store: Store, req: Request, k: nat)
    ensures forall v :: v in Ball(store, req, k) <==> Within(store, req, k, v)
  {
    hide Matching, Admits, Start, Link, Linked;
    if k > 0 {
      BallIsWithin(store, req, k - 1);
      var inner := Ball(store, req, k - 1);
      forall v ensures v in Linked(store, req, inner) <==> exists u :: u in inner && Link(store, req, u, v) {
        LinkedAre(store, req, inner, v);
      }
    }
  }

  lemma LinkedAre(store: Store, req: Request, nodes: set<Node>, v: Node)
    ensures v in Linked(store, req, nodes) <==> exists u :: u in nodes && Link(store, req, u, v)
  {
    hide Matching, Admits;
    if u :| u in nodes && Link(store, req, u, v) {
      var x :| 0 <= x < |Matching(store, req, u)| && Matching(store, req, u)[x].target == v;
      assert v in Linked(store, req, nodes);
    }
    if v in Linked(store, req, nodes) {
      var u, x :| u in nodes && 0 <= x < |Matching(store, req, u)| && Admits(store, req, Matching(store, req, u)[x].target)
                  && Matching(store, req, u)[x].target == v;
      assert Link(store, req, u, v);
    }
  }

  /** The nodes there are to find, and those of them above the depth limit. */
  function Reachable(store: Store, req: Request, depth: int): set<Node> {
    if depth < 0 then {} else Ball(store, req, depth) - set v | v in Start(store, req)
  }

  /** All edges of a set of nodes. */
  ghost function RowsOver(store: Store, req: Request, nodes: set<Node>): nat {
    if nodes == {} then 0 else
    var u :| u in nodes;
    |Matching(store, req, u)| + RowsOver(store, req, nodes - {u})
  }

  lemma {:induction false} RowsOverOne(store: Store, req: Request, nodes: set<Node>, v: Node)
    requires v in nodes
    ensures RowsOver(store, req, nodes) == |Matching(store, req, v)| + RowsOver(store, req, nodes - {v})
  {
    hide Matching;
    var u :| u in nodes && RowsOver(store, req, nodes) == |Matching(store, req, u)| + RowsOver(store, req, nodes - {u});
    if u != v {
      RowsOverOne(store, req, nodes - {u}, v);
      RowsOverOne(store, req, nodes - {v}, u);
      assert nodes - {u} - {v} == nodes - {v} - {u};
    }
  }

  lemma {:induction false} RowsOverPart(store: Store, req: Request, part: set<Node>, nodes: set<Node>)
    requires part <= nodes
    ensures RowsOver(store, req, part) <= RowsOver(store, req, nodes)
  {
    hide Matching;
    if v :| v in part {
      RowsOverOne(store, req, part, v);
      RowsOverOne(store, req, nodes, v);
      RowsOverPart(store, req, part - {v}, nodes - {v});
    }
  }

  /** The edges to be examined if nothing cuts the walk: every root is read as often as it is asked for,
      every other node above the depth limit once. */
  ghost function Needed(store: Store, req: Request): nat {
    Cost(store, req, Order(store, req, [])) + RowsOver(store, req, Reachable(store, req, Depth(req) - 1))
  }

  /** Neither the node cap nor the edge budget can cut the walk. */
  ghost predicate Fits(store: Store, req: Request) {
    Needed(store, req) < Budget(req) && (req.maxNodes.Some? ==> |Reachable(store, req, Depth(req))| < req.maxNodes.value)
  }

  predicate Uncut(store: Store, req: Request, found: seq<Found>, n: nat, k: nat)
    requires Stops(store, req, found, n, k)
  {
    !AtCap(req, found) && Examined(store, req, found, n, k) < Budget(req)
  }

  /** With everything read that was queued, everything within the depth limit is known. */
  lemma {:induction false} AllReadAllKnown(store: Store, req: Request, found: seq<Found>, l: nat, v: Node)
    requires Ranked(store, req, found) && AllKnown(store, req, found, |found|, |Order(store, req, found)|, 0)
    requires Within(store, req, l, v) && (l == 0 || l <= Depth(req))
    ensures Known(store, req, found, |found|, v)
  {
    hide Matching, Admits, Start, Ranked, AllKnown, Link;
    if l > 0 {
      if Within(store, req, l - 1, v) {
        AllReadAllKnown(store, req, found, l - 1, v);
      } else {
        var t :| Within(store, req, l - 1, t) && Link(store, req, t, v);
        AllReadAllKnown(store, req, found, l - 1, t);
        LinkKnown(store, req, found, l - 1, t, v);
      }
    }
  }

  lemma LinkKnown(store: Store, req: Request, found: seq<Found>, l: nat, t: Node, v: Node)
    requires Ranked(store, req, found) && AllKnown(store, req, found, |found|, |Order(store, req, found)|, 0)
    requires Known(store, req, found, |found|, t) && Within(store, req, l, t) && l < Depth(req) && Link(store, req, t, v)
    ensures Known(store, req, found, |found|, v)
  {
    hide Matching, Admits, Start, Within, Order;
    var q := PlaceInOrder(store, req, found, l, t);
    var order := Order(store, req, found);
    assert Rows(store, req, order[q]) == Matching(store, req, t);
    var y :| 0 <= y < |Matching(store, req, t)| && Matching(store, req, t)[y].target == v;
    assert Leads(store, req, found, |found|, Rows(store, req, order[q])[y]);
  }

  lemma PlaceInOrder(store: Store, req: Request, found: seq<Found>, l: nat, t: Node) returns (q: nat)
    requires Ranked(store, req, found) && Known(store, req, found, |found|, t) && Within(store, req, l, t)
    ensures q < |Order(store, req, found)| && Order(store, req, found)[q].0 == t && Order(store, req, found)[q].1 <= l
  {
    hide Within, Witnessed, Distance, Order;
    var roots := Start(store, req);
    if t in roots {
      q :| 0 <= q < |roots| && roots[q] == t;
    } else {
      var j :| 0 <= j < |found| && found[j].id == t;
      q := |roots| + j;
      DistanceIsOne(store, req, found[j].depth, l, t);
    }
  }

  /** The nodes found that are no deeper than `depth`. */
  function FoundWithin(found: seq<Found>, depth: int): set<Node> {
    set i | 0 <= i < |found| && found[i].depth <= depth :: found[i].id
  }

  lemma {:induction false} FoundOnce(found: seq<Found>, depth: int)
    requires forall i, j :: 0 <= i < j < |found| ==> found[i].id != found[j].id
    requires forall i :: 0 <= i < |found| ==> found[i].depth <= depth
    ensures |FoundWithin(found, depth)| == |found|
  {
    if found != [] {
      var n := |found| - 1;
      FoundOnce(found[..n], depth);
      FoundLast(found, depth);
    }
  }

  lemma FoundLast(found: seq<Found>, depth: int)
    requires found != [] && forall i, j :: 0 <= i < j < |found| ==> found[i].id != found[j].id
    ensures var n := |found| - 1;
            && found[n].id !in FoundWithin(found[..n], depth)
            && FoundWithin(found, depth) == FoundWithin(found[..n], depth) + if found[n].depth <= depth then {found[n].id} else {}
  {
    var n := |found| - 1;
    forall v | v in FoundWithin(found[..n], depth) ensures v in FoundWithin(found, depth) && v != found[n].id {
      var i :| 0 <= i < n && found[..n][i].depth <= depth && found[..n][i].id == v;
      assert found[i].id == v;
    }
    forall v | v in FoundWithin(found, depth) && v != found[n].id ensures v in FoundWithin(found[..n], depth) {
      var i :| 0 <= i < |found| && found[i].depth <= depth && found[i].id == v;
      assert found[..n][i] == found[i];
    }
  }

  /** Reading all that was queued costs the roots' edges and those of the nodes found above the limit. */
  lemma {:induction false} CostOfFound(store: Store, req: Request, found: seq<Found>)
    requires forall i, j :: 0 <= i < j < |found| ==> found[i].id != found[j].id
    ensures Cost(store, req, Order(store, req, found))
            == Cost(store, req, Order(store, req, [])) + RowsOver(store, req, FoundWithin(found, Depth(req) - 1))
  {
    hide Matching, Start, RowsOver, Order, FoundWithin;
    if found != [] {
      var n := |found| - 1;
      CostOfFound(store, req, found[..n]);
      FoundLast(found, Depth(req) - 1);
      var order, shorter := Order(store, req, found), Order(store, req, found[..n]);
      OrderGrows(store, req, found[..n], found);
      assert order == shorter + [(found[n].id, found[n].depth)];
      assert order[..|order| - 1] == shorter;
      var nodes := FoundWithin(found, Depth(req) - 1);
      if found[n].depth < Depth(req) {
        RowsOverOne(store, req, nodes, found[n].id);
        assert nodes - {found[n].id} == FoundWithin(found[..n], Depth(req) - 1);
      } else {
        assert nodes == FoundWithin(found[..n], Depth(req) - 1);
      }
    } else {
      NoRowsOver(store, req, found, Depth(req) - 1);
    }
  }

  lemma NoRowsOver(store: Store, req: Request, found: seq<Found>, depth: int)
    requires found == []
    ensures RowsOver(store, req, FoundWithin(found, depth)) == 0
  {
    assert FoundWithin(found, depth) == {};
  }

  /** What is found is reachable, and all that is reachable if everything is known. */
  lemma FoundIsReachable(store: Store, req: Request, found: seq<Found>, depth: int)
    requires Ranked(store, req, found) && depth <= Depth(req)
    ensures FoundWithin(found, depth) <= Reachable(store, req, depth)
    ensures depth >= 0 && (forall v :: Within(store, req, depth, v) ==> Known(store, req, found, |found|, v)) ==>
              FoundWithin(found, depth) == Reachable(store, req, depth)
  {
    hide Matching, Start, Witnessed, Within, Ball;
    if depth >= 0 { BallIsWithin(store, req, depth); }
    forall i | 0 <= i < |found| && found[i].depth <= depth ensures found[i].id in Reachable(store, req, depth) {
      assert Distance(store, req, found[i].depth, found[i].id);
      WithinGrows(store, req, found[i].depth, depth, found[i].id);
    }
    if depth >= 0 && forall v :: Within(store, req, depth, v) ==> Known(store, req, found, |found|, v) {
      forall v | v in Reachable(store, req, depth) ensures v in FoundWithin(found, depth) {
        var j :| 0 <= j < |found| && found[j].id == v;
        DistanceIsOne(store, req, found[j].depth, depth, v);
      }
    }
  }

  /** A walk is cut if and only if the nodes to find or the edges to examine reach the cap or the budget;
      if it is not, it examined exactly the edges of the nodes above the depth limit, and returned every
      node within it. */
  lemma CutIff(store: Store, req: Request, found: seq<Found>, n: nat, k: nat)
    requires WalkOf(store, req, found, n, k) && Ranked(store, req, found) && Budget(req) > 0
    requires req.maxNodes.Some? ==> req.maxNodes.value >= 1
    ensures Uncut(store, req, found, n, k) <==> Fits(store, req)
    ensures Fits(store, req) ==> Examined(store, req, found, n, k) == Needed(store, req)
    ensures Fits(store, req) ==> forall v, l: nat :: l <= Depth(req) && Within(store, req, l, v) ==> Known(store, req, found, |found|, v)
  {
    hide Ranked, Traced, Cost, Order, Reachable, FoundWithin, RowsOver, Within;
    RankedFacts(store, req, found);
    CostOfFound(store, req, found);
    FoundOnce(found, Depth(req));
    FoundIsReachable(store, req, found, Depth(req));
    FoundIsReachable(store, req, found, Depth(req) - 1);
    Subset(FoundWithin(found, Depth(req)), Reachable(store, req, Depth(req)));
    RowsOverPart(store, req, FoundWithin(found, Depth(req) - 1), Reachable(store, req, Depth(req) - 1));
    ExaminedAtMostAll(store, req, found, n, k);
    if Uncut(store, req, found, n, k) {
      ReadToTheEnd(store, req, found, n, k);
      UncutFindsAll(store, req, found, n);
    }
  }

  lemma RankedFacts(store: Store, req: Request, found: seq<Found>)
    requires Ranked(store, req, found)
    ensures forall i, j :: 0 <= i < j < |found| ==> found[i].id != found[j].id
    ensures forall i :: 0 <= i < |found| ==> found[i].depth <= Depth(req)
  {
  }

  lemma {:induction false} Subset(a: set<Node>, b: set<Node>)
    requires a <= b
    ensures |a| <= |b|
  {
    if x :| x in a { Subset(a - {x}, b - {x}); }
  }

  lemma ReadToTheEnd(store: Store, req: Request, found: seq<Found>, n: nat, k: nat)
    requires WalkOf(store, req, found, n, k) && Uncut(store, req, found, n, k)
    ensures n == |Order(store, req, found)| && k == 0 && AllKnown(store, req, found, |found|, n, 0)
    ensures Examined(store, req, found, n, k) == Cost(store, req, Order(store, req, found))
  {
    hide AllKnown, Discovered, Cost;
    assert Order(store, req, found)[..|Order(store, req, found)|] == Order(store, req, found);
  }

  lemma UncutFindsAll(store: Store, req: Request, found: seq<Found>, n: nat)
    requires Ranked(store, req, found) && n == |Order(store, req, found)| && AllKnown(store, req, found, |found|, n, 0)
    ensures forall v, l: nat :: l <= Depth(req) && Within(store, req, l, v) ==> Known(store, req, found, |found|, v)
    ensures FoundWithin(found, Depth(req)) == Reachable(store, req, Depth(req))
    ensures FoundWithin(found, Depth(req) - 1) == Reachable(store, req, Depth(req) - 1)
  {
    hide Ranked, AllKnown, Order, Within, Known, Ball;
    forall v, l: nat | l <= Depth(req) && Within(store, req, l, v) ensures Known(store, req, found, |found|, v) {
      AllReadAllKnown(store, req, found, l, v);
    }
    FoundIsReachable(store, req, found, Depth(req));
    FoundIsReachable(store, req, found, Depth(req) - 1);
  }

  // ------------------------------------------------------------------ which edge is reported

  /** Edge `y` has the smallest rowid of all that lead to `v`. */
  ghost predicate FirstWritten(rows: seq<Edge>, y: nat, v: Node)
    requires y < |rows|
  {
    rows[y].target == v && forall z :: 0 <= z < |rows| && z != y && rows[z].target == v ==> rows[y].rowid < rows[z].rowid
  }

  /** Of several edges from the discovering node to one target, the first-written is the one reported if
      and only if no edge to that target has a smaller type. */
  lemma FirstWrittenIff(store: Store, req: Request, found: seq<Found>, i: nat, p: nat, x: nat, y: nat)
    requires ValidStore(store) && Ranked(store, req, found) && i < |found| && Discovers(store, req, found, i, p, x)
    requires y < |Rows(store, req, Order(store, req, found)[p])|
    requires FirstWritten(Rows(store, req, Order(store, req, found)[p]), y, found[i].id)
    ensures var rows := Rows(store, req, Order(store, req, found)[p]);
            x == y <==> forall z :: 0 <= z < |rows| && rows[z].target == found[i].id ==> rows[y].etype <= rows[z].etype
  {
    hide Ranked, Order, Start, Rows, Admits, AllKnown, ValidStore;
    var at := Order(store, req, found)[p];
    RowsIndexed(store, req, at);
    NewIsUnknown(store, req, found, i);
    forall z | 0 <= z < x ensures Rows(store, req, at)[z].target != found[i].id {
      NotKnownBefore(store, req, found, i, p, x, z);
    }
    FirstOfIndexed(Rows(store, req, at), x, y, found[i].id);
  }

  lemma RowsIndexed(store: Store, req: Request, at: (Node, nat))
    requires ValidStore(store)
    ensures Indexed(Rows(store, req, at))
  {
    assert Indexed(store.adjacency(at.0));
    SelectKeepsOrder(store, req, Whole, store.adjacency(at.0));
  }

  /** No edge that the discovering node has before the reported one leads to the same target. */
  lemma NotKnownBefore(store: Store, req: Request, found: seq<Found>, i: nat, p: nat, x: nat, z: nat)
    requires i < |found| && Discovers(store, req, found, i, p, x) && z < x && !Known(store, req, found, i, found[i].id)
    ensures Rows(store, req, Order(store, req, found)[p])[z].target != found[i].id
  {
    hide Order, Start, Rows, Admits, Known;
    assert Before(p, z, p, x);
    assert Leads(store, req, found, i, Rows(store, req, Order(store, req, found)[p])[z]);
  }

  lemma FirstOfIndexed(rows: seq<Edge>, x: nat, y: nat, v: Node)
    requires Indexed(rows) && x < |rows| && y < |rows| && rows[x].target == v && FirstWritten(rows, y, v)
    requires forall z :: 0 <= z < x ==> rows[z].target != v
    ensures x == y <==> forall z :: 0 <= z < |rows| && rows[z].target == v ==> rows[y].etype <= rows[z].etype
  {
    if x < y { assert EdgeOrder(rows[x], rows[y]); }
    forall z | x < z < |rows| ensures rows[x].etype <= rows[z].etype { assert EdgeOrder(rows[x], rows[z]); }
  }

  // One source with two edges to one target: the later-written has the smaller type.

  const EARLY := Edge(1, 2, 1.0, 1, None)
  const LATE := Edge(1, 1, 1.0, 2, None)
  const TWO_EDGES := Store(u => if u == 0 then [LATE, EARLY] else [], false, map[])
  const ASK := Request([0], 1, {}, None, None, false)

  lemma TwoEdgesMatch()
    ensures ValidStore(TWO_EDGES) && Matching(TWO_EDGES, ASK, 0) == [LATE, EARLY] && Start(TWO_EDGES, ASK) == [0]
  {
    SelectHead(TWO_EDGES, ASK, Whole, [LATE, EARLY]);
    SelectHead(TWO_EDGES, ASK, Whole, [EARLY]);
    assert [LATE, EARLY][1..] == [EARLY] && [EARLY][1..] == [];
  }

  const ONE := [Found(1, 1, LATE.etype, LATE.weight)]

  lemma TwoEdgesOrder()
    ensures Order(TWO_EDGES, ASK, ONE) == [(0, 0), (1, 1)] && Depth(ASK) == 1
    ensures Rows(TWO_EDGES, ASK, (0, 0)) == [LATE, EARLY] && Rows(TWO_EDGES, ASK, (1, 1)) == []
    ensures Cost(TWO_EDGES, ASK, [(0, 0), (1, 1)]) == 2
  {
    TwoEdgesMatch();
    hide Matching, Start;
    var order: seq<(Node, nat)> := [(0, 0), (1, 1)];
    assert order[..1] == [(0, 0)] && [(0, 0)][..0] == [];
    assert Cost(TWO_EDGES, ASK, [(0, 0)]) == 2;
    assert Order(TWO_EDGES, ASK, ONE) == order;
  }

  lemma OneIsTraced()
    ensures WalkOf(TWO_EDGES, ASK, ONE, 2, 0)
  {
    TwoEdgesMatch();
    TwoEdgesOrder();
    hide Matching, Start, Rows, Order, Cost;
    assert AllKnown(TWO_EDGES, ASK, ONE, 0, 0, 0);
    assert Discovers(TWO_EDGES, ASK, ONE, 0, 0, 0) && Before(0, 0, 2, 0);
    assert Known(TWO_EDGES, ASK, ONE, 1, 1);
    assert AllKnown(TWO_EDGES, ASK, ONE, 1, 2, 0);
    assert Order(TWO_EDGES, ASK, ONE)[..2] == [(0, 0), (1, 1)];
  }

  lemma OneIsRanked()
    ensures Ranked(TWO_EDGES, ASK, ONE)
  {
    TwoEdgesMatch();
    hide Matching, Start;
    assert Within(TWO_EDGES, ASK, 0, 0) && Distance(TWO_EDGES, ASK, 0, 0);
    assert Matching(TWO_EDGES, ASK, 0)[0].target == 1;
    assert Link(TWO_EDGES, ASK, 0, 1);
    assert Distance(TWO_EDGES, ASK, 1, 1);
    assert FirstEdge(Matching(TWO_EDGES, ASK, 0), 0, ONE[0]);
  }

  /** The edge of rowid 1 is the first written, and the one of rowid 2 is reported. */
  lemma FirstWrittenIsNotReported(found: seq<Found>, n: nat, k: nat)
    requires WalkOf(TWO_EDGES, ASK, found, n, k) && Ranked(TWO_EDGES, ASK, found)
    ensures Matching(TWO_EDGES, ASK, 0) == [LATE, EARLY] && FirstWritten([LATE, EARLY], 1, 1)
    ensures found == [Found(1, 1, LATE.etype, LATE.weight)] && LATE.etype != EARLY.etype
    ensures WalkOf(TWO_EDGES, ASK, found, 2, 0)
  {
    TwoEdgesMatch();
    OneIsTraced();
    OneIsRanked();
    hide WalkOf, Ranked, Matching;
    OneResult(TWO_EDGES, ASK, found, n, k, ONE, 2, 0);
  }
}

/**
 Python's `sorted`, as the order of indices it produces. A stable sort by a key is the sort by the
 strict total order "smaller key first, equal keys by position".
 */
module Sorting {
  import opened Prelude

  type Before = (nat, nat) -> bool

  ghost predicate StrictTotal(n: nat, before: Before) {
    && (forall i, j :: 0 <= i < n && 0 <= j < n && i != j ==> before(i, j) != before(j, i))
    && (forall i, j, k :: 0 <= i < n && 0 <= j < n && 0 <= k < n && before(i, j) && before(j, k) ==> before(i, k))
    && (forall i :: 0 <= i < n ==> !before(i, i))
  }

  /** `order` lists distinct indices below `n`, each before the later ones. */
  ghost predicate Ordered(order: seq<nat>, n: nat, before: Before) {
    && (forall x :: 0 <= x < |order| ==> order[x] < n)
    && (forall x, y :: 0 <= x < y < |order| ==> before(order[x], order[y]))
  }

  function Insert(order: seq<nat>, i: nat, before: Before): seq<nat> {
    if order == [] then [i]
    else if before(i, order[0]) then [i] + order
    else [order[0]] + Insert(order[1..], i, before)
  }

  /** The indices below `n` in order. */
  function Sort(n: nat, before: Before): seq<nat> {
    if n == 0 then [] else Insert(Sort(n - 1, before), n - 1, before)
  }

  lemma {:induction false} InsertElements(order: seq<nat>, i: nat, before: Before)
    ensures |Insert(order, i, before)| == |order| + 1
    ensures forall k :: k in Insert(order, i, before) <==> k == i || k in order
  {
    if order != [] {
      InsertElements(order[1..], i, before);
      assert order == [order[0]] + order[1..];
    }
  }

  lemma {:induction false} InsertOrdered(order: seq<nat>, i: nat, n: nat, before: Before)
    requires StrictTotal(n, before) && Ordered(order, n, before) && i < n && i !in order
    ensures Ordered(Insert(order, i, before), n, before)
  {
    if order != [] && !before(i, order[0]) {
      var first, rest := order[0], order[1..];
      InsertOrdered(rest, i, n, before);
      InsertElements(rest, i, before);
      var tail := Insert(rest, i, before);
      forall y | 0 <= y < |tail| ensures before(first, tail[y]) {
        assert tail[y] in tail;
      }
    } else if order != [] {
      forall y | 0 <= y < |order| ensures before(i, order[y]) {
        assert y == 0 || before(order[0], order[y]);
      }
    }
  }

  lemma {:induction false} SortOrdersFrom(n: nat, m: nat, before: Before)
    requires StrictTotal(n, before) && m <= n
    ensures Ordered(Sort(m, before), n, before) && |Sort(m, before)| == m
    ensures forall k: nat :: k in Sort(m, before) <==> k < m
  {
    if m > 0 {
      SortOrdersFrom(n, m - 1, before);
      var rest := Sort(m - 1, before);
      InsertOrdered(rest, m - 1, n, before);
      InsertElements(rest, m - 1, before);
    }
  }

  /** The sort lists every index below `n` once, in order. */
  lemma SortOrders(n: nat, before: Before)
    requires StrictTotal(n, before)
    ensures var order := Sort(n, before); |order| == n && Ordered(order, n, before) && NoDup(order)
                                          && forall k: nat :: k in order <==> k < n
  {
    SortOrdersFrom(n, n, before);
    var order := Sort(n, before);
    forall x, y | 0 <= x < y < |order| ensures order[x] != order[y] {
      assert before(order[x], order[y]) && !before(order[x], order[x]);
    }
  }

  function Elements(order: seq<nat>): (s: set<nat>) { set k | k in order }

  lemma {:induction false} DistinctCount(order: seq<nat>)
    requires NoDup(order)
    ensures |Elements(order)| == |order|
  {
    if order != [] {
      var init, last := order[..|order| - 1], order[|order| - 1];
      DistinctCount(init);
      assert Elements(order) == Elements(init) + {last};
      assert last !in Elements(init);
    }
  }

  /** An index stands at the place that counts the indices before it. */
  lemma PlaceCounts(n: nat, before: Before, p: nat)
    requires StrictTotal(n, before) && p < |Sort(n, before)|
    ensures |Sort(n, before)| == n && Sort(n, before)[p] < n
    ensures |set j: nat | j < n && before(j, Sort(n, before)[p])| == p
  {
    hide Sort;
    SortOrders(n, before);
    var order := Sort(n, before);
    DistinctCount(order[..p]);
    forall j: nat ensures j in Elements(order[..p]) <==> j < n && before(j, order[p]) {
      if j < n && before(j, order[p]) {
        assert j in order;
        var q :| 0 <= q < |order| && order[q] == j;
        if q > p { assert false; }
        assert order[..p][q] == j;
      }
    }
    assert (set j: nat | j < n && before(j, order[p])) == Elements(order[..p]);
  }

  /** Stable ascending order by an integer key. */
  function ByKey(keys: seq<int>): Before {
    (i: nat, j: nat) => i < |keys| && j < |keys| && (keys[i] < keys[j] || (keys[i] == keys[j] && i < j))
  }

  /** Stable ascending order by a real key. */
  function ByReal(keys: seq<real>): Before {
    (i: nat, j: nat) => i < |keys| && j < |keys| && (keys[i] < keys[j] || (keys[i] == keys[j] && i < j))
  }
}

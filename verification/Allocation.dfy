/**
 The stratified sample's allocation: proportional shares, largest remainder, at least one question
 per type when the limit allows. Types are numbered in dictionary order; shares are exact.
 */
module Allocation {
  import opened Prelude
  import opened Sorting

  function Sum(s: seq<nat>): nat {
    if s == [] then 0 else Sum(s[..|s| - 1]) + s[|s| - 1]
  }

  /** int(share) of a type with `size` of the `pool` questions. */
  function Floor(size: nat, pool: nat, limit: nat): nat
    requires pool > 0
  {
    (limit * size) / pool
  }

  /** The share's fractional part, times `pool`. */
  function Remainder(size: nat, pool: nat, limit: nat): nat
    requires pool > 0
  {
    (limit * size) % pool
  }

  /** What a type is given before the remainders are handed out. */
  function Base(sizes: seq<nat>, limit: nat): (base: seq<nat>)
    requires Sum(sizes) > 0
    ensures |base| == |sizes|
  {
    seq(|sizes|, t requires 0 <= t < |sizes| =>
      var f := Floor(sizes[t], Sum(sizes), limit);
      if limit >= |sizes| then Max(1, f) else f)
  }

  /** A key that sorts larger values first. */
  function Descending(value: int): int { -value }

  function Keys(sizes: seq<nat>, limit: nat): (keys: seq<int>)
    requires Sum(sizes) > 0
    ensures |keys| == |sizes|
  {
    seq(|sizes|, t requires 0 <= t < |sizes| => Descending(Remainder(sizes[t], Sum(sizes), limit)))
  }

  /** Types by descending remainder, ties in dictionary order. */
  function ByRemainder(sizes: seq<nat>, limit: nat): seq<nat>
    requires Sum(sizes) > 0
  {
    Sort(|sizes|, ByKey(Keys(sizes, limit)))
  }

  /** `base` with one more for each of the first `k` types of `order`. */
  function Topped(base: seq<nat>, order: seq<nat>, k: nat): (alloc: seq<nat>)
    requires k <= |order| && forall x :: 0 <= x < |order| ==> order[x] < |base|
    ensures |alloc| == |base|
  {
    if k == 0 then base else
    var rest := Topped(base, order, k - 1);
    rest[order[k - 1] := rest[order[k - 1]] + 1]
  }

  // ------------------------------------------------------------------ sums

  lemma {:induction false} SumUpdate(s: seq<nat>, i: nat, v: nat)
    requires i < |s|
    ensures Sum(s[i := v]) == Sum(s) - s[i] + v
  {
    var n := |s| - 1;
    if i < n {
      SumUpdate(s[..n], i, v);
      assert s[i := v][..n] == s[..n][i := v];
    } else {
      assert s[i := v][..n] == s[..n];
    }
  }

  lemma {:induction false} SumAtLeast(s: seq<nat>, least: nat)
    requires forall i :: 0 <= i < |s| ==> s[i] >= least
    ensures Sum(s) >= least * |s|
  {
    if s != [] {
      SumAtLeast(s[..|s| - 1], least);
      assert least * |s| == least * (|s| - 1) + least;
    }
  }

  lemma {:induction false} SumLeq(a: seq<nat>, b: seq<nat>)
    requires |a| == |b| && forall i :: 0 <= i < |a| ==> a[i] <= b[i]
    ensures Sum(a) <= Sum(b) && (Sum(a) == Sum(b) <==> a == b)
  {
    if a != [] {
      var n := |a| - 1;
      SumLeq(a[..n], b[..n]);
      assert a == a[..n] + [a[n]] && b == b[..n] + [b[n]];
    }
  }

  /** Over the first n types: pool * (floors) + remainders == limit * sizes. */
  lemma {:induction false} SharesAdd(sizes: seq<nat>, pool: nat, limit: nat, floors: seq<nat>, rems: seq<nat>)
    requires pool > 0 && |floors| == |rems| == |sizes|
    requires forall t :: 0 <= t < |sizes| ==> floors[t] == Floor(sizes[t], pool, limit) && rems[t] == Remainder(sizes[t], pool, limit)
    ensures pool * Sum(floors) + Sum(rems) == limit * Sum(sizes)
    ensures |sizes| > 0 ==> Sum(rems) < pool * |sizes|
  {
    if sizes != [] {
      var n := |sizes| - 1;
      SharesAdd(sizes[..n], pool, limit, floors[..n], rems[..n]);
      DivMod(limit * sizes[n], pool);
      Distribute(pool, Sum(floors[..n]), floors[n]);
      Distribute(limit, Sum(sizes[..n]), sizes[n]);
      Distribute(pool, n, 1);
    }
  }

  lemma DivMod(x: nat, d: nat)
    requires d > 0
    ensures x == d * (x / d) + x % d && x % d < d
  {
  }

  lemma Distribute(a: int, b: int, c: int)
    ensures a * (b + c) == a * b + a * c
  {
  }

  lemma CancelPool(pool: nat, floors: nat, rems: nat, limit: nat, types: nat)
    requires pool > 0 && pool * floors + rems == limit * pool && rems < pool * types
    ensures floors <= limit < floors + types
  {
    Distribute(pool, floors, types);
    Cancel(pool, floors, limit);
    Cancel(pool, limit + 1, floors + types);
    Distribute(pool, limit, 1);
    if limit >= floors + types { Cancel(pool, floors + types, limit); }
  }

  lemma Cancel(pool: nat, a: nat, b: nat)
    requires pool > 0
    ensures pool * a <= pool * b <==> a <= b
  {
  }

  /** The whole shares fall short of the limit by less than one question per type. */
  lemma FloorsFallShort(sizes: seq<nat>, limit: nat)
    requires Sum(sizes) > 0
    ensures limit < Sum(Base(sizes, limit)) + |sizes|
    ensures limit < |sizes| ==> Sum(Base(sizes, limit)) <= limit
  {
    assert |sizes| > 0;
    hide Floor, Remainder, Sum;
    var pool := Sum(sizes);
    var floors: seq<nat> := seq(|sizes|, t requires 0 <= t < |sizes| => Floor(sizes[t], pool, limit));
    var rems: seq<nat> := seq(|sizes|, t requires 0 <= t < |sizes| => Remainder(sizes[t], pool, limit));
    SharesAdd(sizes, pool, limit, floors, rems);
    CancelPool(pool, Sum(floors), Sum(rems), limit, |sizes|);
    SumLeq(floors, Base(sizes, limit));
    if limit < |sizes| { assert Base(sizes, limit) == floors; }
  }

  // ------------------------------------------------------------------ the order

  lemma OrderFacts(sizes: seq<nat>, limit: nat)
    requires Sum(sizes) > 0
    ensures var order := ByRemainder(sizes, limit);
            && |order| == |sizes| && NoDup(order) && (forall x :: 0 <= x < |order| ==> order[x] < |sizes|)
            && (forall t: nat :: t in order <==> t < |sizes|)
            && (forall x, y :: 0 <= x < y < |order| ==>
                  Remainder(sizes[order[x]], Sum(sizes), limit) >= Remainder(sizes[order[y]], Sum(sizes), limit))
  {
    var keys := Keys(sizes, limit);
    assert StrictTotal(|keys|, ByKey(keys));
    SortOrders(|keys|, ByKey(keys));
    var order := ByRemainder(sizes, limit);
    forall x, y | 0 <= x < y < |order|
      ensures Remainder(sizes[order[x]], Sum(sizes), limit) >= Remainder(sizes[order[y]], Sum(sizes), limit)
    {
      assert ByKey(keys)(order[x], order[y]);
      assert keys[order[x]] <= keys[order[y]];
    }
  }

  lemma {:induction false} ToppedFacts(base: seq<nat>, order: seq<nat>, k: nat)
    requires k <= |order| && NoDup(order) && forall x :: 0 <= x < |order| ==> order[x] < |base|
    ensures Sum(Topped(base, order, k)) == Sum(base) + k
    ensures forall x :: 0 <= x < |order| ==> Topped(base, order, k)[order[x]] == base[order[x]] + (if x < k then 1 else 0)
  {
    if k > 0 {
      ToppedFacts(base, order, k - 1);
      var rest := Topped(base, order, k - 1);
      SumUpdate(rest, order[k - 1], rest[order[k - 1]] + 1);
    }
  }

  /** The types whose remainder is larger, or as large and who come earlier. */
  function Before(sizes: seq<nat>, limit: nat, t: nat): set<nat>
    requires Sum(sizes) > 0 && t < |sizes|
  {
    set u: nat | u < |sizes|
                 && ((limit * sizes[u]) % Sum(sizes) > (limit * sizes[t]) % Sum(sizes)
                     || ((limit * sizes[u]) % Sum(sizes) == (limit * sizes[t]) % Sum(sizes) && u < t))
  }

  /** Handing out `k` questions by remainder gives one each to the `k` types that fewer than `k` come before. */
  lemma ToppedIs(sizes: seq<nat>, limit: nat, k: nat, t: nat)
    requires Sum(sizes) > 0 && t < |sizes| && k <= |sizes|
    ensures var order := ByRemainder(sizes, limit);
            && |order| == |sizes| && (forall x :: 0 <= x < |order| ==> order[x] < |sizes|)
            && Topped(Base(sizes, limit), order, k)[t] == Base(sizes, limit)[t] + (if |Before(sizes, limit, t)| < k then 1 else 0)
  {
    hide Base, Topped, Sum, Sort;
    OrderFacts(sizes, limit);
    var keys, order := Keys(sizes, limit), ByRemainder(sizes, limit);
    assert t in order;
    var x :| 0 <= x < |order| && order[x] == t;
    assert StrictTotal(|keys|, ByKey(keys));
    PlaceCounts(|keys|, ByKey(keys), x);
    assert Before(sizes, limit, t) == set u: nat | u < |keys| && ByKey(keys)(u, order[x]);
    ToppedFacts(Base(sizes, limit), order, k);
  }

  // ------------------------------------------------------------------ the allocation

  /** What cutting the largest, the first of equals each time, leaves of `given`: everything above a level
      comes down to it, and the first of those, before `k`, to one below it. */
  predicate Levelled(given: seq<nat>, alloc: seq<nat>, level: nat, k: nat) {
    |alloc| == |given|
    && forall t :: 0 <= t < |given| ==>
         alloc[t] == if given[t] < level then given[t] else if t < k then level - 1 else level
  }

  /** There is one such result of a given size. */
  lemma LevelledIsOne(given: seq<nat>, a: seq<nat>, l: nat, k: nat, b: seq<nat>, m: nat, n: nat)
    requires Levelled(given, a, l, k) && Levelled(given, b, m, n) && Sum(a) == Sum(b)
    ensures a == b
  {
    hide Sum;
    if l < m || (l == m && k >= n) { SumLeq(a, b); } else { SumLeq(b, a); }
  }

  lemma CutsFirstLargest(given: seq<nat>, alloc: seq<nat>, level: nat, k: nat, t: nat)
    requires Levelled(given, alloc, level, k) && t < |alloc| && alloc[t] >= 1
    requires alloc == given || exists u :: 0 <= u < |given| && given[u] >= level
    requires (forall u :: 0 <= u < |alloc| ==> alloc[u] <= alloc[t]) && forall u :: 0 <= u < t ==> alloc[u] < alloc[t]
    ensures Levelled(given, alloc[t := alloc[t] - 1], alloc[t], t + 1) && given[t] >= alloc[t]
  {
    if alloc != given {
      var u :| 0 <= u < |given| && given[u] >= level;
      assert alloc[u] >= level - 1;
    }
  }

  /** max(alloc, key=alloc.get): the first type with the most. */
  method Largest(alloc: seq<nat>) returns (t: nat)
    requires alloc != []
    ensures t < |alloc| && (forall u :: 0 <= u < |alloc| ==> alloc[u] <= alloc[t]) && forall u :: 0 <= u < t ==> alloc[u] < alloc[t]
  {
    t := 0;
    for u := 1 to |alloc|
      invariant t < |alloc| && (forall v :: 0 <= v < u ==> alloc[v] <= alloc[t]) && forall v :: 0 <= v < t ==> alloc[v] < alloc[t]
      invariant t < u
    {
      if alloc[u] > alloc[t] { t := u; }
    }
  }

  /** The allocation sums to exactly the limit; the cut loop ends; every type keeps at least one when
      the limit allows it; and unless the guaranteed ones already fill the limit, it is the largest
      remainder rule: the whole shares, plus one for the types with the largest remainders. */
  method Allocate(sizes: seq<nat>, limit: nat) returns (alloc: seq<nat>)
    requires (forall t :: 0 <= t < |sizes| ==> sizes[t] >= 1) && 1 <= limit < Sum(sizes)
    ensures |alloc| == |sizes| && Sum(alloc) == limit
    ensures limit >= |sizes| ==> forall t :: 0 <= t < |sizes| ==> alloc[t] >= 1
    ensures Sum(Base(sizes, limit)) > limit ==> forall t :: 0 <= t < |sizes| ==> alloc[t] <= Base(sizes, limit)[t]
    ensures Sum(Base(sizes, limit)) > limit ==> exists level: nat, k: nat :: Levelled(Base(sizes, limit), alloc, level, k)
    ensures Sum(Base(sizes, limit)) <= limit ==>
              && limit - Sum(Base(sizes, limit)) < |sizes|
              && |ByRemainder(sizes, limit)| == |sizes| && (forall x :: 0 <= x < |sizes| ==> ByRemainder(sizes, limit)[x] < |sizes|)
              && alloc == Topped(Base(sizes, limit), ByRemainder(sizes, limit), limit - Sum(Base(sizes, limit)))
  {
    hide Base, ByRemainder, Remainder, Topped, Sum;
    var base := Base(sizes, limit);
    var order := ByRemainder(sizes, limit);
    FloorsFallShort(sizes, limit);
    OrderFacts(sizes, limit);
    BaseAtLeastOne(sizes, limit);
    alloc := TopUp(base, order, limit);
    alloc := Cut(alloc, limit);
  }

  /** The for loop over the remainders: one more each until the limit is met. */
  method TopUp(base: seq<nat>, order: seq<nat>, limit: nat) returns (alloc: seq<nat>)
    requires NoDup(order) && forall x :: 0 <= x < |order| ==> order[x] < |base|
    ensures |alloc| == |base| && forall t :: 0 <= t < |base| ==> alloc[t] >= base[t]
    ensures Sum(base) >= limit ==> alloc == base
    ensures Sum(base) <= limit <= Sum(base) + |order| ==>
              Sum(alloc) == limit && alloc == Topped(base, order, limit - Sum(base))
  {
    hide Sum;
    alloc := base;
    var k := 0;
    while k < |order| && Sum(alloc) < limit
      invariant 0 <= k <= |order| && alloc == Topped(base, order, k)
      invariant Sum(alloc) == Sum(base) + k && (k > 0 ==> Sum(alloc) <= limit)
      invariant forall t :: 0 <= t < |base| ==> alloc[t] >= base[t]
    {
      SumUpdate(alloc, order[k], alloc[order[k]] + 1);
      alloc := alloc[order[k] := alloc[order[k]] + 1];
      k := k + 1;
    }
  }

  /** The while loop that cuts the guaranteed ones back to the limit, one question of the largest type at a time. */
  method Cut(given: seq<nat>, limit: nat) returns (alloc: seq<nat>)
    requires Sum(given) >= limit
    ensures |alloc| == |given| && Sum(alloc) == limit && forall t :: 0 <= t < |given| ==> alloc[t] <= given[t]
    ensures limit >= |given| && (forall t :: 0 <= t < |given| ==> given[t] >= 1) ==> forall t :: 0 <= t < |given| ==> alloc[t] >= 1
    ensures Sum(given) == limit ==> alloc == given
    ensures exists level: nat, k: nat :: Levelled(given, alloc, level, k)
  {
    hide Sum, Levelled;
    alloc := given;
    ghost var level: nat, k: nat := Above(given);
    while Sum(alloc) > limit
      invariant |alloc| == |given| && Sum(given) >= Sum(alloc) >= limit && forall t :: 0 <= t < |given| ==> alloc[t] <= given[t]
      invariant limit >= |given| && (forall t :: 0 <= t < |given| ==> given[t] >= 1) ==> forall t :: 0 <= t < |given| ==> alloc[t] >= 1
      invariant Sum(given) == limit ==> alloc == given
      invariant Levelled(given, alloc, level, k) && (alloc == given || exists u :: 0 <= u < |given| && given[u] >= level)
      decreases Sum(alloc)
    {
      SumOfNone(alloc);
      var t := Largest(alloc);
      LargestIsMany(alloc, t, limit);
      SumUpdate(alloc, t, alloc[t] - 1);
      CutsFirstLargest(given, alloc, level, k, t);
      level, k := alloc[t], t + 1;
      alloc := alloc[t := alloc[t] - 1];
    }
  }

  /** A level above everything given. */
  lemma {:induction false} Above(given: seq<nat>) returns (level: nat, k: nat)
    ensures Levelled(given, given, level, k)
  {
    level, k := AboveAll(given), 0;
  }

  function AboveAll(given: seq<nat>): (level: nat)
    ensures forall t :: 0 <= t < |given| ==> given[t] < level
  {
    if given == [] then 0
    else
      var rest := AboveAll(given[..|given| - 1]);
      Max(rest, given[|given| - 1] + 1)
  }

  lemma SumOfNone(alloc: seq<nat>)
    ensures Sum(alloc) > 0 ==> alloc != []
  {
  }

  lemma BaseAtLeastOne(sizes: seq<nat>, limit: nat)
    requires Sum(sizes) > 0
    ensures limit >= |sizes| ==> forall t :: 0 <= t < |sizes| ==> Base(sizes, limit)[t] >= 1
  {
  }

  /** While more than `limit` are allotted, the largest allotment can be cut and stays positive if need be. */
  lemma LargestIsMany(alloc: seq<nat>, t: nat, limit: nat)
    requires t < |alloc| && Sum(alloc) > limit && forall u :: 0 <= u < |alloc| ==> alloc[u] <= alloc[t]
    ensures alloc[t] >= 1 && (limit >= |alloc| ==> alloc[t] >= 2)
  {
    var most := if alloc[t] == 0 then 0 else 1;
    if alloc[t] <= 1 {
      SumConstant(|alloc|, most);
      SumLeq(alloc, seq(|alloc|, _ => most));
    }
  }

  lemma {:induction false} SumConstant(n: nat, v: nat)
    requires v <= 1
    ensures Sum(seq(n, _ => v)) == if v == 0 then 0 else n
  {
    if n > 0 {
      SumConstant(n - 1, v);
      assert seq(n, _ => v)[..n - 1] == seq(n - 1, _ => v);
    }
  }

  // ------------------------------------------------------------------ the sample

  /** How many questions rows[: alloc[t]] picks over all types. */
  function Picked(alloc: seq<nat>, sizes: seq<nat>): nat
    requires |alloc| == |sizes|
  {
    Sum(Capped(alloc, sizes))
  }

  function Capped(alloc: seq<nat>, sizes: seq<nat>): (capped: seq<nat>)
    requires |alloc| == |sizes|
    ensures |capped| == |alloc|
  {
    seq(|alloc|, t requires 0 <= t < |alloc| => if alloc[t] <= sizes[t] then alloc[t] else sizes[t])
  }

  /** A type of one question that is guaranteed one and also wins one of the remainder questions. */
  ghost predicate LoneTypeTopped(sizes: seq<nat>, limit: nat)
    requires Sum(sizes) > 0
  {
    limit >= |sizes|
    && exists x :: 0 <= x < |ByRemainder(sizes, limit)| && x < limit - Sum(Base(sizes, limit))
                   && ByRemainder(sizes, limit)[x] < |sizes| && sizes[ByRemainder(sizes, limit)[x]] == 1
  }

  /** A type's whole share leaves room for one more question, unless it has only one. */
  lemma BaseFits(sizes: seq<nat>, limit: nat, t: nat)
    requires (forall u :: 0 <= u < |sizes| ==> sizes[u] >= 1) && 1 <= limit < Sum(sizes) && t < |sizes|
    ensures Base(sizes, limit)[t] <= sizes[t]
    ensures Base(sizes, limit)[t] + 1 > sizes[t] <==> sizes[t] == 1 && limit >= |sizes|
  {
    FloorBelow(sizes[t], Sum(sizes), limit);
  }

  lemma FloorBelow(size: nat, pool: nat, limit: nat)
    requires size >= 1 && limit < pool
    ensures Floor(size, pool, limit) < size
  {
    var f := Floor(size, pool, limit);
    DivMod(limit * size, pool);
    if f >= size {
      Times(pool, size, f);
      Strict(limit, pool, size);
    }
  }

  lemma Times(pool: nat, a: nat, b: nat)
    requires a <= b
    ensures pool * a <= pool * b
  {
  }

  lemma Strict(a: nat, b: nat, s: nat)
    requires a < b && s >= 1
    ensures a * s < b * s
  {
  }

  /** In the largest-remainder case, a type is allotted more than it has exactly when it is a lone type topped up. */
  lemma OverAllotted(sizes: seq<nat>, limit: nat, k: nat, x: nat)
    requires (forall t :: 0 <= t < |sizes| ==> sizes[t] >= 1) && 1 <= limit < Sum(sizes)
    requires k <= |ByRemainder(sizes, limit)| && x < |ByRemainder(sizes, limit)|
    requires forall y :: 0 <= y < |ByRemainder(sizes, limit)| ==> ByRemainder(sizes, limit)[y] < |sizes|
    ensures var order := ByRemainder(sizes, limit);
            Topped(Base(sizes, limit), order, k)[order[x]] > sizes[order[x]] <==> x < k && sizes[order[x]] == 1 && limit >= |sizes|
  {
    OrderFacts(sizes, limit);
    hide Base, ByRemainder, Remainder, Topped, Sum;
    ToppedFacts(Base(sizes, limit), ByRemainder(sizes, limit), k);
    BaseFits(sizes, limit, ByRemainder(sizes, limit)[x]);
  }

  lemma CappedSize(alloc: seq<nat>, sizes: seq<nat>)
    requires |alloc| == |sizes|
    ensures Picked(alloc, sizes) <= Sum(alloc)
    ensures Picked(alloc, sizes) == Sum(alloc) <==> forall t :: 0 <= t < |sizes| ==> alloc[t] <= sizes[t]
  {
    hide Sum;
    SumLeq(Capped(alloc, sizes), alloc);
    if forall t :: 0 <= t < |sizes| ==> alloc[t] <= sizes[t] {
      assert Capped(alloc, sizes) == alloc;
    } else {
      var t :| 0 <= t < |sizes| && alloc[t] > sizes[t];
      assert Capped(alloc, sizes)[t] != alloc[t];
    }
  }

  lemma SomeOverAllotted(sizes: seq<nat>, limit: nat, alloc: seq<nat>)
    requires Sum(sizes) > 0 && |alloc| == |sizes|
    requires var order, given := ByRemainder(sizes, limit), Sum(Base(sizes, limit));
             && |order| == |sizes| && (forall x :: 0 <= x < |order| ==> order[x] < |sizes|)
             && forall x :: 0 <= x < |order| ==>
                  (alloc[order[x]] > sizes[order[x]] <==> x < limit - given && sizes[order[x]] == 1 && limit >= |sizes|)
    ensures (exists t :: 0 <= t < |sizes| && alloc[t] > sizes[t]) <==> LoneTypeTopped(sizes, limit)
  {
    hide Base, ByRemainder, Remainder, Sum;
    var order := ByRemainder(sizes, limit);
    OrderFacts(sizes, limit);
    if t: nat :| t < |sizes| && alloc[t] > sizes[t] {
      assert t in order;
      var x :| 0 <= x < |order| && order[x] == t;
    }
  }

  /** The sample has exactly `limit` questions if and only if no one-question type is topped up. */
  lemma SampleSize(sizes: seq<nat>, limit: nat, alloc: seq<nat>)
    requires (forall t :: 0 <= t < |sizes| ==> sizes[t] >= 1) && 1 <= limit < Sum(sizes)
    requires |alloc| == |sizes| && Sum(alloc) == limit
    requires var base, order := Base(sizes, limit), ByRemainder(sizes, limit);
             if Sum(base) > limit then forall t :: 0 <= t < |sizes| ==> alloc[t] <= base[t]
             else && |order| == |sizes| && (forall x :: 0 <= x < |sizes| ==> order[x] < |sizes|)
                  && limit - Sum(base) < |sizes| && alloc == Topped(base, order, limit - Sum(base))
    ensures Picked(alloc, sizes) <= limit
    ensures Picked(alloc, sizes) == limit <==> !LoneTypeTopped(sizes, limit)
  {
    hide Base, ByRemainder, Remainder, Topped, Sum, Picked;
    var base, order := Base(sizes, limit), ByRemainder(sizes, limit);
    CappedSize(alloc, sizes);
    OrderFacts(sizes, limit);
    if Sum(base) > limit {
      forall t | 0 <= t < |sizes| ensures base[t] <= sizes[t] { BaseFits(sizes, limit, t); }
    } else {
      forall x | 0 <= x < |order|
        ensures alloc[order[x]] > sizes[order[x]] <==> x < limit - Sum(base) && sizes[order[x]] == 1 && limit >= |sizes|
      {
        OverAllotted(sizes, limit, limit - Sum(base), x);
      }
      SomeOverAllotted(sizes, limit, alloc);
    }
  }

  lemma LargestFirst(sizes: seq<nat>, limit: nat, t: nat)
    requires Sum(sizes) > 0 && t < |sizes|
    requires forall u :: 0 <= u < |sizes| && u != t ==> Remainder(sizes[u], Sum(sizes), limit) < Remainder(sizes[t], Sum(sizes), limit)
    ensures ByRemainder(sizes, limit) != [] && ByRemainder(sizes, limit)[0] == t
  {
    hide ByRemainder, Remainder, Sum;
    OrderFacts(sizes, limit);
    var order := ByRemainder(sizes, limit);
    assert t in order;
    var x :| 0 <= x < |order| && order[x] == t;
    assert Remainder(sizes[order[0]], Sum(sizes), limit) >= Remainder(sizes[order[x]], Sum(sizes), limit);
  }

  lemma SumOfThree(a: nat, b: nat, c: nat)
    ensures Sum([a, b, c]) == a + b + c
  {
    assert [a, b, c][..2] == [a, b] && [a, b][..1] == [a] && [a][..0] == [];
    assert Sum([a]) == a;
    assert Sum([a, b]) == a + b;
  }

  /** Three types of 1, 3 and 3 questions and a limit of 6: each is allotted two, so only five are picked. */
  lemma ShortSample()
    ensures var sizes := [1, 3, 3];
            && Sum(sizes) == 7 && Base(sizes, 6) == [1, 2, 2] && Sum(Base(sizes, 6)) == 5 && LoneTypeTopped(sizes, 6)
            && |ByRemainder(sizes, 6)| == 3 && ByRemainder(sizes, 6)[0] == 0
            && Topped([1, 2, 2], ByRemainder(sizes, 6), 1) == [2, 2, 2] && Picked([2, 2, 2], sizes) == 5
  {
    hide ByRemainder;
    var sizes := [1, 3, 3];
    SumOfThree(1, 3, 3);
    SumOfThree(1, 2, 2);
    assert Floor(1, 7, 6) == 0 && Floor(3, 7, 6) == 2;
    assert Base(sizes, 6) == [1, 2, 2];
    LargestFirst(sizes, 6, 0);
    OrderFacts(sizes, 6);
    assert Topped([1, 2, 2], ByRemainder(sizes, 6), 0) == [1, 2, 2];
    assert Capped([2, 2, 2], sizes) == [1, 2, 2];
  }
}

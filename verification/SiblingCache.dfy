/**
 The cache of sibling stores' candidates: least recently used stores go first, and the byte counter
 is exact although callers keep and extend states that were evicted or replaced meanwhile.
 */
module SiblingCache {
  import opened Prelude

  type Key = nat
  type Name = nat
  type Token = nat

  /** The bytes of one namespace's candidates, by space. */
  type Candidates = seq<nat>

  function Bytes(candidates: Candidates): nat {
    if candidates == [] then 0 else candidates[0] + Bytes(candidates[1..])
  }

  // ------------------------------------------------------------------ sums over an ordered dictionary

  function Total(keys: seq<nat>, size: map<nat, nat>): nat
    requires forall k :: k in keys ==> k in size
  {
    if keys == [] then 0 else size[keys[0]] + Total(keys[1..], size)
  }

  lemma {:induction false} TotalAppend(a: seq<nat>, b: seq<nat>, size: map<nat, nat>)
    requires (forall k :: k in a ==> k in size) && (forall k :: k in b ==> k in size)
    ensures Total(a + b, size) == Total(a, size) + Total(b, size)
  {
    if a == [] {
      assert a + b == b;
    } else {
      TotalAppend(a[1..], b, size);
      assert (a + b)[1..] == a[1..] + b;
    }
  }

  /** Two tables that agree on the keys but one. */
  lemma {:induction false} TotalChange(keys: seq<nat>, size: map<nat, nat>, other: map<nat, nat>, k: nat)
    requires NoDup(keys) && (forall x :: x in keys ==> x in size && x in other && (x != k ==> size[x] == other[x]))
    ensures k in keys ==> Total(keys, other) == Total(keys, size) - size[k] + other[k]
    ensures k !in keys ==> Total(keys, other) == Total(keys, size)
  {
    if keys != [] {
      assert forall x :: x in keys[1..] ==> x in keys;
      TotalChange(keys[1..], size, other, k);
      assert k in keys <==> k == keys[0] || k in keys[1..];
    }
  }

  function Without(keys: seq<nat>, k: nat): seq<nat> {
    if keys == [] then []
    else if keys[0] == k then Without(keys[1..], k)
    else [keys[0]] + Without(keys[1..], k)
  }

  lemma {:induction false} WithoutFacts(keys: seq<nat>, k: nat)
    requires NoDup(keys)
    ensures NoDup(Without(keys, k)) && forall x :: x in Without(keys, k) <==> x in keys && x != k
  {
    if keys != [] {
      var rest := Without(keys[1..], k);
      WithoutFacts(keys[1..], k);
      assert keys == [keys[0]] + keys[1..];
      assert keys[0] !in rest;
    }
  }

  lemma {:induction false} WithoutTotal(keys: seq<nat>, k: nat, size: map<nat, nat>)
    requires NoDup(keys) && (forall x :: x in keys ==> x in size) && forall x :: x in Without(keys, k) ==> x in size
    ensures Total(Without(keys, k), size) == Total(keys, size) - (if k in keys then size[k] else 0)
  {
    if keys != [] {
      var rest := keys[1..];
      assert keys == [keys[0]] + rest;
      assert forall x :: x in Without(rest, k) ==> x in Without(keys, k);
      if keys[0] == k { assert k !in rest; }
      WithoutTotal(rest, k, size);
      if keys[0] != k { assert Without(keys, k)[1..] == Without(rest, k); }
    }
  }

  lemma {:induction false} WithoutNone(keys: seq<nat>, k: nat)
    requires k !in keys
    ensures Without(keys, k) == keys
  {
    if keys != [] { WithoutNone(keys[1..], k); }
  }

  /** The counter `n` is the sum over an ordered dictionary's sizes. */
  ghost predicate Counted(order: seq<nat>, size: map<nat, nat>, n: int) {
    NoDup(order) && (forall k :: k in order <==> k in size) && n == Total(order, size)
  }

  lemma DropCounted(order: seq<nat>, size: map<nat, nat>, n: int, k: nat)
    requires Counted(order, size, n) && k in size
    ensures Counted(Without(order, k), size - {k}, n - size[k]) && n >= size[k]
  {
    WithoutFacts(order, k);
    WithoutTotal(order, k, size);
    SameTotal(Without(order, k), size, size - {k});
  }

  lemma AppendCounted(order: seq<nat>, size: map<nat, nat>, n: int, k: nat, v: nat)
    requires Counted(order, size, n) && k !in size
    ensures Counted(order + [k], size[k := v], n + v)
  {
    var after := size[k := v];
    SameTotal(order, size, after);
    TotalAppend(order, [k], after);
    assert [k][1..] == [];
  }

  lemma ResizeCounted(order: seq<nat>, size: map<nat, nat>, n: int, k: nat, v: nat)
    requires Counted(order, size, n) && k in size
    ensures Counted(order, size[k := v], n - size[k] + v) && n - size[k] + v >= 0
  {
    TotalChange(order, size, size[k := v], k);
  }

  /** One state cached under two keys: its size changes under both, the counter once, so the counter
      stays exact if and only if the size stays the same. */
  lemma SharedMiscounts(order: seq<nat>, size: map<nat, nat>, n: int, k: nat, l: nat, v: nat)
    requires Counted(order, size, n) && k in size && l in size && k != l && size[k] == size[l]
    ensures Counted(order, size[k := v][l := v], n - size[k] + v) <==> v == size[k]
  {
    TotalChange(order, size, size[k := v], k);
    TotalChange(order, size[k := v], size[k := v][l := v], l);
  }

  lemma MoveCounted(order: seq<nat>, size: map<nat, nat>, n: int, k: nat)
    requires Counted(order, size, n) && k in size
    ensures Counted(Without(order, k) + [k], size, n)
  {
    DropCounted(order, size, n, k);
    AppendCounted(Without(order, k), size - {k}, n - size[k], k, size[k]);
    assert (size - {k})[k := size[k]] == size;
  }

  lemma SameTotal(keys: seq<nat>, size: map<nat, nat>, other: map<nat, nat>)
    requires forall k :: k in keys ==> k in size && k in other && size[k] == other[k]
    ensures Total(keys, size) == Total(keys, other)
  {
  }

  /** What the eviction loop leaves: oldest keys go until the rest fits. */
  function Kept(order: seq<nat>, size: map<nat, nat>, limit: int): seq<nat>
    requires forall k :: k in order ==> k in size
  {
    if order == [] || Total(order, size) <= limit then order else Kept(order[1..], size, limit)
  }

  /** The longest run of most recently used stores that fits the budget. */
  lemma {:induction false} KeptIsLongest(order: seq<nat>, size: map<nat, nat>, limit: nat)
    requires forall k :: k in order ==> k in size
    ensures var kept := Kept(order, size, limit);
            && |kept| <= |order| && kept == order[|order| - |kept|..] && Total(kept, size) <= limit
            && forall d :: 0 <= d < |order| - |kept| ==> Total(order[d..], size) > limit
  {
    if order != [] && Total(order, size) > limit {
      KeptIsLongest(order[1..], size, limit);
      var kept := Kept(order, size, limit);
      forall d | 0 <= d < |order| - |kept| ensures Total(order[d..], size) > limit {
        if d == 0 { assert order[0..] == order; } else { assert order[d..] == order[1..][d - 1..]; }
      }
      assert order[1..][|order| - 1 - |kept|..] == order[|order| - |kept|..];
    }
  }

  lemma {:induction false} KeptOfLess(order: seq<nat>, size: map<nat, nat>, other: map<nat, nat>, limit: int)
    requires forall k :: k in order ==> k in size && k in other && size[k] == other[k]
    ensures Kept(order, size, limit) == Kept(order, other, limit)
  {
    SameTotal(order, size, other);
    if order != [] { KeptOfLess(order[1..], size, other, limit); }
  }

  lemma FirstOut(order: seq<nat>, size: map<nat, nat>, n: int, limit: int)
    requires Counted(order, size, n) && order != [] && n > limit
    ensures Without(order, order[0]) == order[1..]
    ensures Kept(order, size, limit) == Kept(order[1..], size - {order[0]}, limit)
  {
    assert order[0] !in order[1..];
    WithoutNone(order[1..], order[0]);
    KeptOfLess(order[1..], size, size - {order[0]}, limit);
  }

  // ------------------------------------------------------------------ the objects

  class StoreState {
    const token: Token
    const loadedAt: int
    var names: seq<Name>
    var byNamespace: map<Name, Candidates>
    var nbytes: nat

    /** The state's byte count is the sum over its namespaces. */
    ghost predicate Exact()
      reads this`names, this`byNamespace, this`nbytes
    {
      Counted(names, Sizes(), nbytes)
    }

    function Sizes(): (sizes: map<Name, nat>)
      reads this`byNamespace
      ensures sizes.Keys == byNamespace.Keys
    {
      map n | n in byNamespace :: Bytes(byNamespace[n])
    }

    constructor (token: Token, loadedAt: int)
      ensures Exact() && this.token == token && this.loadedAt == loadedAt && byNamespace == map[]
    {
      this.token, this.loadedAt, names, byNamespace, nbytes := token, loadedAt, [], map[], 0;
    }

    /** Puts a namespace's candidates in place of what was there. */
    method Store(namespace: Name, candidates: Candidates) returns (delta: int)
      requires Exact()
      modifies this`names, this`byNamespace, this`nbytes
      ensures Exact() && byNamespace == old(byNamespace)[namespace := candidates]
      ensures nbytes == old(nbytes) + delta
      ensures delta == Bytes(candidates) - (if namespace in old(byNamespace) then Bytes(old(byNamespace)[namespace]) else 0)
    {
      hide Counted, Total, Bytes;
      var previous := if namespace in byNamespace then byNamespace[namespace] else [];
      NoBytes();
      delta := Bytes(candidates) - Bytes(previous);
      ghost var before := Sizes();
      if namespace in byNamespace {
        ResizeCounted(names, before, nbytes, namespace, Bytes(candidates));
      } else {
        AppendCounted(names, before, nbytes, namespace, Bytes(candidates));
        names := names + [namespace];
      }
      byNamespace := byNamespace[namespace := candidates];
      nbytes := nbytes + delta;
      assert Sizes() == before[namespace := Bytes(candidates)];
    }
  }

  lemma NoBytes()
    ensures Bytes([]) == 0
  {
  }

  class SiblingCandidateCache {
    const maxBytes: nat
    const maxAge: int
    var order: seq<Key>
    var stores: map<Key, StoreState>
    var nbytes: nat

    constructor (maxBytes: nat, maxAge: int)
      ensures Valid() && stores == map[] && this.maxBytes == maxBytes && this.maxAge == maxAge
    {
      this.maxBytes, this.maxAge, order, stores, nbytes := maxBytes, maxAge, [], map[], 0;
    }

    function Sizes(): (sizes: map<Key, nat>)
      reads this`stores, stores.Values`nbytes
      ensures sizes.Keys == stores.Keys
    {
      map k | k in stores :: stores[k].nbytes
    }

    /** The counter is the sum over the cached stores, each of which is exact. */
    ghost predicate Valid()
      reads this`order, this`stores, this`nbytes, stores.Values
    {
      && Counted(order, Sizes(), nbytes)
      && (forall k :: k in stores ==> stores[k].Exact())
    }

    method Clear()
      modifies this`order, this`stores, this`nbytes
      ensures Valid() && stores == map[] && nbytes == 0
    {
      order, stores, nbytes := [], map[], 0;
    }

    method Drop(key: Key)
      requires Valid() && key in stores
      modifies this`order, this`stores, this`nbytes
      ensures Valid() && stores == old(stores) - {key} && order == Without(old(order), key)
      ensures nbytes == old(nbytes) - old(stores[key].nbytes) && Sizes() == old(Sizes()) - {key}
    {
      hide Counted, Total;
      DropCounted(order, Sizes(), nbytes, key);
      ghost var before := Sizes();
      nbytes := nbytes - stores[key].nbytes;
      order, stores := Without(order, key), stores - {key};
      assert Sizes() == before - {key};
    }

    /** Drops the least recently used stores until the total fits. */
    method Evict()
      requires Valid()
      modifies this`order, this`stores, this`nbytes
      ensures Valid() && nbytes <= maxBytes && order == Kept(old(order), old(Sizes()), maxBytes)
      ensures forall k :: k in stores ==> k in old(stores) && stores[k] == old(stores)[k]
    {
      hide Total, Without;
      CountedFacts(order, Sizes(), nbytes, maxBytes);
      while nbytes > maxBytes && order != []
        invariant Valid() && (forall k :: k in stores ==> k in old(stores) && stores[k] == old(stores)[k])
        invariant (forall k :: k in order ==> k in Sizes()) && Kept(order, Sizes(), maxBytes) == Kept(old(order), old(Sizes()), maxBytes)
        decreases |order|
      {
        FirstOut(order, Sizes(), nbytes, maxBytes);
        Drop(order[0]);
        CountedFacts(order, Sizes(), nbytes, maxBytes);
      }
      CountedFacts(order, Sizes(), nbytes, maxBytes);
    }

    /** A cached state that is still current, now most recently used; a stale one is dropped. */
    method Lookup(key: Key, token: Token, now: int) returns (found: Option<StoreState>)
      requires Valid()
      modifies this`order, this`stores, this`nbytes
      ensures Valid() && nbytes <= old(nbytes)
      ensures found.Some? <==> key in old(stores) && old(stores)[key].token == token && now - old(stores)[key].loadedAt <= maxAge
      ensures found.Some? ==> found.value == old(stores)[key] && stores == old(stores) && order == Without(old(order), key) + [key]
      ensures found.None? ==> stores == old(stores) - {key} && order == Without(old(order), key)
    {
      hide Total, Without;
      if key !in stores {
        WithoutNone(order, key);
        assert stores - {key} == stores;
        return None;
      }
      hide Counted;
      var state := stores[key];
      if state.token != token || now - state.loadedAt > maxAge {
        Drop(key);
        return None;
      }
      MoveCounted(order, Sizes(), nbytes, key);
      order := Without(order, key) + [key];
      found := Some(state);
    }

    /** Caches a new key's state as the most recently used. */
    method Append(key: Key, state: StoreState)
      requires Valid() && state.Exact() && key !in stores
      modifies this`order, this`stores, this`nbytes
      ensures Valid() && order == old(order) + [key] && stores == old(stores)[key := state]
      ensures Sizes() == old(Sizes())[key := state.nbytes]
    {
      hide Total, Counted;
      ghost var before := Sizes();
      AppendCounted(order, before, nbytes, key, state.nbytes);
      order, stores := order + [key], stores[key := state];
      nbytes := nbytes + state.nbytes;
      assert Sizes() == before[key := state.nbytes];
    }

    /** Caches a state under a key, most recently used, in place of what was there. */
    method Install(key: Key, state: StoreState)
      requires Valid() && state.Exact()
      modifies this`order, this`stores, this`nbytes
      ensures Valid() && nbytes <= maxBytes
      ensures forall k :: k in stores ==> k in old(stores)[key := state] && stores[k] == old(stores)[key := state][k]
      ensures Installed(old(order), old(Sizes()), key, state.nbytes, maxBytes, order)
    {
      hide Total, Without, Kept, Counted, Valid;
      ghost var before := Sizes();
      Remove(key);
      Append(key, state);
      assert Sizes() == before[key := state.nbytes];
      CountedNow();
      Evict();
    }

    lemma CountedNow()
      requires Valid()
      ensures (forall k :: k in order <==> k in stores) && Counted(order, Sizes(), nbytes)
    {
    }

    /** Takes a key out if it is there. */
    method Remove(key: Key)
      requires Valid()
      modifies this`order, this`stores, this`nbytes
      ensures Valid() && stores == old(stores) - {key} && order == Without(old(order), key) && Sizes() == old(Sizes()) - {key}
    {
      hide Total, Without, Kept, Counted, Valid;
      if key in stores {
        Drop(key);
      } else {
        CountedNow();
        WithoutNone(order, key);
        assert Sizes() - {key} == Sizes() && stores - {key} == stores;
      }
    }

    /** Adds a namespace's candidates to a state the caller holds, whether it is still cached, was
        evicted, or was replaced under its key; only a state that is still cached counts. */
    method AddNamespace(key: Key, state: StoreState, namespace: Name, candidates: Candidates)
      requires Valid() && state.Exact() && forall k :: k in stores && stores[k] == state ==> k == key
      modifies this`order, this`stores, this`nbytes, state`names, state`byNamespace, state`nbytes
      ensures Valid() && state.Exact() && state.byNamespace == old(state.byNamespace)[namespace := candidates]
      ensures key in old(stores) && old(stores)[key] == state ==>
                nbytes <= maxBytes && Evicted(old(order), old(Sizes())[key := state.nbytes], maxBytes, order)
                && forall k :: k in stores ==> k in old(stores) && stores[k] == old(stores)[k]
      ensures !(key in old(stores) && old(stores)[key] == state) ==>
                nbytes == old(nbytes) && order == old(order) && stores == old(stores)
    {
      hide Total, Kept, Counted;
      var cached := key in stores && stores[key] == state;
      Extend(key, state, namespace, candidates);
      if cached {
        CountedNow();
        Evict();
      }
    }

    /** The state's and, if it is cached, the cache's counters after the candidates are added. */
    method Extend(key: Key, state: StoreState, namespace: Name, candidates: Candidates)
      requires Valid() && state.Exact() && forall k :: k in stores && stores[k] == state ==> k == key
      modifies this`nbytes, state`names, state`byNamespace, state`nbytes
      ensures Valid() && state.Exact() && state.byNamespace == old(state.byNamespace)[namespace := candidates]
      ensures Sizes() == if key in stores && stores[key] == state then old(Sizes())[key := state.nbytes] else old(Sizes())
      ensures !(key in stores && stores[key] == state) ==> nbytes == old(nbytes)
    {
      hide Total, Kept, Counted, StoreState.Exact;
      ghost var before := Sizes();
      var delta := state.Store(namespace, candidates);
      if key in stores && stores[key] == state {
        assert Sizes() == before[key := state.nbytes];
        ResizeCounted(order, before, nbytes, key, state.nbytes);
        nbytes := nbytes + delta;
      } else {
        assert Sizes() == before;
      }
    }
  }

  lemma CountedFacts(order: seq<nat>, size: map<nat, nat>, n: int, limit: int)
    requires Counted(order, size, n)
    ensures (forall k :: k in order <==> k in size) && (order == [] ==> n == 0)
    ensures order == [] || n <= limit ==> Kept(order, size, limit) == order
  {
  }

  /** The order after an eviction: the most recently used stores that fit. */
  ghost predicate Evicted(order: seq<nat>, size: map<nat, nat>, limit: int, after: seq<nat>) {
    (forall k :: k in order ==> k in size) && after == Kept(order, size, limit)
  }

  /** The order after an install: the new store last, then the eviction. */
  ghost predicate Installed(order: seq<nat>, size: map<nat, nat>, key: nat, bytes: nat, limit: int, after: seq<nat>) {
    Evicted(Without(order, key) + [key], size[key := bytes], limit, after)
  }
}

/** Small shared vocabulary. */
module Prelude {
  datatype Option<+T> = None | Some(value: T)

  /** No value occurs twice in `s`. */
  ghost predicate NoDup<T(!new)>(s: seq<T>) {
    forall i, j :: 0 <= i < j < |s| ==> s[i] != s[j]
  }

  function Max(a: int, b: int): int { if a < b then b else a }

  function Min(a: int, b: int): int { if a < b then a else b }

  /** The largest element, 0 if there is none. */
  function Greatest(s: set<nat>): (k: nat)
    ensures s == {} ==> k == 0
    ensures s != {} ==> k in s
    ensures forall x :: x in s ==> x <= k
  {
    if s == {} then 0 else
    assert exists k :: k in s && forall x :: x in s ==> x <= k by { var k := GreatestExists(s); }
    var k :| k in s && forall x :: x in s ==> x <= k;
    k
  }

  lemma {:induction false} GreatestExists(s: set<nat>) returns (k: nat)
    requires s != {}
    ensures k in s && forall x :: x in s ==> x <= k
  {
    var any :| any in s;
    var rest := s - {any};
    assert s == rest + {any};
    if rest == {} {
      k := any;
    } else {
      var most := GreatestExists(rest);
      k := if most > any then most else any;
    }
  }
}

/**
 The positional scores of a recall: each row of the pipeline's final order is scored by its place
 before the distilled rows were demoted, and a demoted row is clamped between the rows behind it and
 the rows ahead of it, so that the stable sort by weighted score does not undo the demotion.
 Scores are exact and in units of 1/10000.
 */
module PositionalScores {
  import opened Prelude
  import opened Sorting

  /** A ranked row: its sort bucket, its source family's weight, whether the pipeline demoted it, and
      its place before the demotion. `ineligible` and `fallback` are the sort key's other parts. */
  datatype Row = Row(bucket: int, weight: real, weighted: bool, preweight: Option<int>, ineligible: bool, fallback: bool)

  /** Family weights are not negative, and a row the pipeline weighted is not weighted twice. */
  predicate Fair(row: Row) {
    row.weight >= 0.0 && (row.weighted ==> row.weight == 1.0)
  }

  function Effective(row: Row, score: real): real { score * row.weight }

  /** round(10000 / (1 + p)), ties to even. */
  function PositionScore(p: nat): nat {
    var down, rest := 10000 / (1 + p), 10000 % (1 + p);
    if 2 * rest > 1 + p || (2 * rest == 1 + p && down % 2 == 1) then down + 1 else down
  }

  function PlaceKeys(ranked: seq<Option<Row>>): (keys: seq<int>)
    ensures |keys| == |ranked|
  {
    seq(|ranked|, i requires 0 <= i < |ranked| =>
      if ranked[i].Some? && ranked[i].value.preweight.Some? then ranked[i].value.preweight.value else i)
  }

  /** The rows in their order before the demotion. */
  function PlaceOrder(ranked: seq<Option<Row>>): seq<nat> {
    Sort(|ranked|, ByKey(PlaceKeys(ranked)))
  }

  /** Every row has the score of its place. */
  ghost predicate OwnScores(ranked: seq<Option<Row>>, own: seq<real>) {
    var order := PlaceOrder(ranked);
    |own| == |ranked| == |order|
    && forall p :: 0 <= p < |order| ==> order[p] < |own| && own[order[p]] == PositionScore(p) as real
  }

  /** The best weighted score of the rows from `i` on that are in bucket `b` and were not demoted. */
  function BestFrom(rows: seq<Row>, own: seq<real>, b: int, i: nat): real
    requires |own| == |rows| && i <= |rows|
    decreases |rows| - i
  {
    if i == |rows| then 0.0 else
    var rest := BestFrom(rows, own, b, i + 1);
    if rows[i].weighted || rows[i].bucket != b then rest
    else Higher(Effective(rows[i], own[i]), rest)
  }

  /** The worst weighted score of the first `i` rows in bucket `b`. */
  function WorstOf(rows: seq<Row>, scores: seq<real>, b: int, i: nat): Option<real>
    requires i <= |rows| && i <= |scores|
  {
    if i == 0 then None else
    var rest := WorstOf(rows, scores, b, i - 1);
    if rows[i - 1].bucket != b then rest
    else Some(Capped(Effective(rows[i - 1], scores[i - 1]), rest))
  }

  function Higher(x: real, y: real): real { if x >= y then x else y }

  function Capped(x: real, cap: Option<real>): real {
    if cap.Some? && cap.value < x then cap.value else x
  }

  /** A demoted row's score: its own, raised to the best behind it, then capped at the worst ahead. */
  ghost predicate Clamped(rows: seq<Row>, own: seq<real>, scores: seq<real>, n: nat)
    requires n <= |rows| == |own| && n <= |scores|
  {
    forall i :: 0 <= i < n ==>
      scores[i] == if !rows[i].weighted then own[i]
                   else Capped(Higher(BestFrom(rows, own, rows[i].bucket, i + 1), own[i]),
                               WorstOf(rows, scores, rows[i].bucket, i))
  }

  /** What the scoring returns. */
  ghost predicate Scored(ranked: seq<Option<Row>>, own: seq<real>, scores: seq<real>) {
    && OwnScores(ranked, own)
    && if Plain(ranked) then scores == own
       else |scores| == |ranked| && Clamped(Rows(ranked), own, scores, |ranked|)
  }

  /** A row without observed scores, or no demoted row at all: nothing to clamp. */
  ghost predicate Plain(ranked: seq<Option<Row>>) {
    (exists i :: 0 <= i < |ranked| && ranked[i].None?)
    || (forall i :: 0 <= i < |ranked| && ranked[i].Some? ==> !ranked[i].value.weighted)
  }

  function Rows(ranked: seq<Option<Row>>): (rows: seq<Row>)
    requires forall i :: 0 <= i < |ranked| ==> ranked[i].Some?
    ensures |rows| == |ranked|
  {
    seq(|ranked|, i requires 0 <= i < |ranked| => ranked[i].value)
  }

  // ------------------------------------------------------------------ places and scores, told directly

  /** The place a row had before the demotion, as far as the pipeline recorded one. */
  function Rank(ranked: seq<Option<Row>>, i: nat): int
    requires i < |ranked|
  {
    if ranked[i].Some? && ranked[i].value.preweight.Some? then ranked[i].value.preweight.value else i
  }

  /** The rows that were ahead of row `i` then: of smaller rank, or of equal rank and earlier. */
  function Ahead(ranked: seq<Option<Row>>, i: nat): set<nat>
    requires i < |ranked|
  {
    set j: nat | j < |ranked| && (Rank(ranked, j) < Rank(ranked, i) || (Rank(ranked, j) == Rank(ranked, i) && j < i))
  }

  /** `score` is 10000 / (1 + n) rounded to the nearest whole number, to the even one of two. */
  predicate Nearest(score: int, n: nat) {
    var off := score * (1 + n) - 10000;
    -(1 + n) <= 2 * off <= 1 + n && (2 * off == 1 + n || 2 * off == -(1 + n) ==> score % 2 == 0)
  }

  /** `score` is the score of the place before the demotion. */
  ghost predicate PlaceScore(ranked: seq<Option<Row>>, i: nat, score: real)
    requires i < |ranked|
  {
    exists whole: nat :: score == whole as real && Nearest(whole, |Ahead(ranked, i)|)
  }

  lemma PositionScoreIsNearest(p: nat)
    ensures Nearest(PositionScore(p), p)
  {
    var a := 1 + p;
    var x, r := 10000 / a, 10000 % a;
    Divided(10000, a, x, r);
    assert (x + 1) * a == x * a + a;
  }

  /** Only one whole number is nearest. */
  lemma NearestIsOne(x: int, y: int, n: nat)
    requires Nearest(x, n) && Nearest(y, n)
    ensures x == y
  {
    var a := 1 + n;
    if x > y { Apart(x, y, a); }
    if y > x { Apart(y, x, a); }
  }

  lemma Apart(x: int, y: int, a: nat)
    requires x > y
    ensures x * a - y * a >= a && (x > y + 1 ==> x * a - y * a >= 2 * a)
  {
    Difference(a, x - y, 1);
    if x > y + 1 { Difference(a, x - y, 2); }
    assert x * a - y * a == (x - y) * a;
  }

  /** A row's own score is that of the place that counts the rows ahead of it before the demotion. */
  lemma OwnIsPlaceScore(ranked: seq<Option<Row>>, own: seq<real>, i: nat)
    requires OwnScores(ranked, own) && i < |ranked|
    ensures PlaceScore(ranked, i, own[i])
  {
    hide PositionScore, Sort;
    var keys, order := PlaceKeys(ranked), PlaceOrder(ranked);
    PlaceOrderFacts(ranked);
    assert i in order;
    var p :| 0 <= p < |order| && order[p] == i;
    assert StrictTotal(|keys|, ByKey(keys));
    PlaceCounts(|keys|, ByKey(keys), p);
    assert Ahead(ranked, i) == set j: nat | j < |keys| && ByKey(keys)(j, order[p]);
    PositionScoreIsNearest(p);
  }

  /** The weighted score of row `k`. */
  function Weighed(rows: seq<Row>, scores: seq<real>, k: nat): real
    requires k < |rows| && k < |scores|
  {
    scores[k] * rows[k].weight
  }

  /** Where a demoted row ends up, told by the rows around it in its bucket: never above a row ahead of
      it; and, unless it meets one of those, never below its own score or an undemoted row behind it,
      and no higher than it has to be. */
  ghost predicate Placed(rows: seq<Row>, own: seq<real>, scores: seq<real>, i: nat)
    requires i < |rows| == |own| == |scores|
  {
    var b := rows[i].bucket;
    var capped := exists k :: 0 <= k < i && rows[k].bucket == b && scores[i] == Weighed(rows, scores, k);
    && (forall k :: 0 <= k < i && rows[k].bucket == b ==> scores[i] <= Weighed(rows, scores, k))
    && (!capped ==> scores[i] >= own[i]
                    && forall k :: i < k < |rows| && rows[k].bucket == b && !rows[k].weighted ==> scores[i] >= Weighed(rows, own, k))
    && (scores[i] <= own[i] || exists k :: i < k < |rows| && rows[k].bucket == b && !rows[k].weighted && scores[i] <= Weighed(rows, own, k))
  }

  lemma ClampedIsPlaced(rows: seq<Row>, own: seq<real>, scores: seq<real>, i: nat)
    requires |own| == |rows| == |scores| && Clamped(rows, own, scores, |rows|) && i < |rows| && rows[i].weighted
    requires forall k :: 0 <= k < |own| ==> own[k] >= 0.0
    ensures Placed(rows, own, scores, i)
  {
    hide BestFrom, WorstOf;
    var b := rows[i].bucket;
    forall k | 0 <= k < i && rows[k].bucket == b ensures scores[i] <= Weighed(rows, scores, k) { WorstBelow(rows, scores, b, i, k); }
    forall k | i < k < |rows| && rows[k].bucket == b && !rows[k].weighted
      ensures BestFrom(rows, own, b, i + 1) >= Weighed(rows, own, k)
    {
      BestAbove(rows, own, b, i + 1, k);
    }
    var high := Higher(BestFrom(rows, own, b, i + 1), own[i]);
    if WorstOf(rows, scores, b, i).Some? {
      var k := WorstIsSomeones(rows, scores, b, i);
      if WorstOf(rows, scores, b, i).value < high { assert scores[i] == Weighed(rows, scores, k); }
    }
    if high > own[i] { var k := BestIsSomeones(rows, own, b, i + 1); }
  }

  lemma {:induction false} BestIsSomeones(rows: seq<Row>, own: seq<real>, b: int, i: nat) returns (k: nat)
    requires |own| == |rows| && i <= |rows| && BestFrom(rows, own, b, i) > 0.0
    ensures i <= k < |rows| && rows[k].bucket == b && !rows[k].weighted && BestFrom(rows, own, b, i) == Weighed(rows, own, k)
    decreases |rows| - i
  {
    hide Effective;
    var rest := BestFrom(rows, own, b, i + 1);
    if rows[i].weighted || rows[i].bucket != b || BestFrom(rows, own, b, i) == rest {
      k := BestIsSomeones(rows, own, b, i + 1);
    } else {
      k := i;
      EffectiveIsWeighed(rows, own, i);
    }
  }

  lemma EffectiveIsWeighed(rows: seq<Row>, scores: seq<real>, k: nat)
    requires k < |rows| && k < |scores|
    ensures Effective(rows[k], scores[k]) == Weighed(rows, scores, k)
  {
  }

  // ------------------------------------------------------------------ the three loops

  method OwnPlaces(ranked: seq<Option<Row>>) returns (own: array<real>)
    ensures fresh(own) && OwnScores(ranked, own[..])
  {
    var order := PlaceOrder(ranked);
    PlaceOrderFacts(ranked);
    own := new real[|ranked|](_ => 0.0);
    for p := 0 to |order|
      invariant forall q :: 0 <= q < p ==> own[order[q]] == PositionScore(q) as real
    {
      own[order[p]] := PositionScore(p) as real;
    }
  }

  method Floors(rows: seq<Row>, own: seq<real>) returns (floor: seq<real>)
    requires |own| == |rows|
    ensures |floor| == |rows| && forall i :: 0 <= i < |rows| ==> floor[i] == BestFrom(rows, own, rows[i].bucket, i + 1)
  {
    var floors := new real[|rows|](_ => 0.0);
    var bestBelow: map<int, real> := map[];
    for index := |rows| downto 0
      invariant forall b :: BestFrom(rows, own, b, index) == if b in bestBelow then bestBelow[b] else 0.0
      invariant forall i :: index <= i < |rows| ==> floors[i] == BestFrom(rows, own, rows[i].bucket, i + 1)
    {
      var b := rows[index].bucket;
      var best := if b in bestBelow then bestBelow[b] else 0.0;
      floors[index] := best;
      if !rows[index].weighted {
        bestBelow := bestBelow[b := Higher(Effective(rows[index], own[index]), best)];
      }
    }
    floor := floors[..];
  }

  method Clamp(rows: seq<Row>, own: seq<real>, floor: seq<real>) returns (scores: seq<real>)
    requires |own| == |rows| == |floor|
    requires forall i :: 0 <= i < |rows| ==> floor[i] == BestFrom(rows, own, rows[i].bucket, i + 1)
    ensures |scores| == |rows| && Clamped(rows, own, scores, |rows|)
  {
    hide BestFrom;
    var ceiling: map<int, real> := map[];
    scores := [];
    for index := 0 to |rows|
      invariant |scores| == index && Clamped(rows, own, scores, index)
      invariant forall b :: WorstOf(rows, scores, b, index) == if b in ceiling then Some(ceiling[b]) else None
    {
      var b, score := rows[index].bucket, own[index];
      var cap := if b in ceiling then Some(ceiling[b]) else None;
      if rows[index].weighted {
        score := Capped(Higher(floor[index], score), cap);
      }
      ceiling := ceiling[b := Capped(Effective(rows[index], score), cap)];
      ghost var before := scores;
      scores := scores + [score];
      forall b, i | 0 <= i <= index ensures WorstOf(rows, scores, b, i) == WorstOf(rows, before, b, i) {
        WorstOfPrefix(rows, before, scores, b, i);
      }
    }
  }

  ghost predicate Observed(ranked: seq<Option<Row>>) {
    forall i :: 0 <= i < |ranked| ==> ranked[i].Some?
  }

  /** Undemoted rows keep the score of their place before the demotion, and so do all if some row was not
      observed; otherwise a demoted row is placed between the rows around it. */
  ghost predicate Scores(ranked: seq<Option<Row>>, own: seq<real>, scores: seq<real>) {
    && |own| == |scores| == |ranked| && (forall i :: 0 <= i < |ranked| ==> PlaceScore(ranked, i, own[i]))
    && (forall i :: 0 <= i < |ranked| && (!Observed(ranked) || !ranked[i].value.weighted) ==> scores[i] == own[i])
    && (Observed(ranked) ==> forall i :: 0 <= i < |ranked| && ranked[i].value.weighted ==> Placed(Rows(ranked), own, scores, i))
  }

  lemma ScoredScores(ranked: seq<Option<Row>>, own: seq<real>, scores: seq<real>)
    requires Scored(ranked, own, scores)
    ensures Scores(ranked, own, scores)
  {
    hide BestFrom, WorstOf, PositionScore, Placed, PlaceScore;
    forall i | 0 <= i < |ranked| ensures PlaceScore(ranked, i, own[i]) && own[i] >= 0.0 {
      OwnIsPlaceScore(ranked, own, i);
      PlaceScoreIsNatural(ranked, i, own[i]);
    }
    if !Plain(ranked) {
      forall i | 0 <= i < |ranked| && ranked[i].value.weighted ensures Placed(Rows(ranked), own, scores, i) {
        ClampedIsPlaced(Rows(ranked), own, scores, i);
      }
    }
  }

  lemma PlaceScoreIsNatural(ranked: seq<Option<Row>>, i: nat, score: real)
    requires i < |ranked| && PlaceScore(ranked, i, score)
    ensures score >= 0.0
  {
  }

  method ScorePositions(ranked: seq<Option<Row>>) returns (scores: seq<real>)
    ensures exists own: seq<real> :: Scored(ranked, own, scores) && Scores(ranked, own, scores)
  {
    hide Scores;
    var places := OwnPlaces(ranked);
    ghost var own := places[..];
    var plain, i := true, 0;
    while i < |ranked|
      invariant 0 <= i <= |ranked| && forall k :: 0 <= k < i ==> ranked[k].Some?
      invariant plain <==> forall k :: 0 <= k < i ==> !ranked[k].value.weighted
    {
      if ranked[i].None? {
        assert Scored(ranked, own, own);
        ScoredScores(ranked, own, own);
        return places[..];
      }
      plain := plain && !ranked[i].value.weighted;
      i := i + 1;
    }
    if plain {
      assert Scored(ranked, own, own);
      ScoredScores(ranked, own, own);
      return places[..];
    }
    var rows := Rows(ranked);
    var floor := Floors(rows, places[..]);
    scores := Clamp(rows, places[..], floor);
    assert Scored(ranked, own, scores);
    ScoredScores(ranked, own, scores);
  }

  // ------------------------------------------------------------------ lemmas

  lemma PlaceOrderFacts(ranked: seq<Option<Row>>)
    ensures var order := PlaceOrder(ranked);
            && |order| == |ranked| && NoDup(order)
            && (forall p :: 0 <= p < |order| ==> order[p] < |ranked|) && (forall i: nat :: i in order <==> i < |ranked|)
            && (forall p, q :: 0 <= p < q < |order| ==> PlaceKeys(ranked)[order[p]] <= PlaceKeys(ranked)[order[q]])
  {
    var keys := PlaceKeys(ranked);
    assert StrictTotal(|keys|, ByKey(keys));
    SortOrders(|keys|, ByKey(keys));
    var order := PlaceOrder(ranked);
    forall p, q | 0 <= p < q < |order| ensures keys[order[p]] <= keys[order[q]] {
      assert ByKey(keys)(order[p], order[q]);
    }
  }

  lemma {:induction false} WorstOfPrefix(rows: seq<Row>, s: seq<real>, t: seq<real>, b: int, i: nat)
    requires i <= |rows| && i <= |s| <= |t| && t[..|s|] == s
    ensures WorstOf(rows, s, b, i) == WorstOf(rows, t, b, i)
  {
    if i > 0 {
      WorstOfPrefix(rows, s, t, b, i - 1);
      assert t[i - 1] == t[..|s|][i - 1];
    }
  }

  lemma {:induction false} BestAbove(rows: seq<Row>, own: seq<real>, b: int, i: nat, j: nat)
    requires |own| == |rows| && i <= j < |rows| && rows[j].bucket == b && !rows[j].weighted
    ensures Effective(rows[j], own[j]) <= BestFrom(rows, own, b, i)
    decreases j - i
  {
    hide Effective;
    if i < j { BestAbove(rows, own, b, i + 1, j); }
  }

  lemma {:induction false} WorstBelow(rows: seq<Row>, scores: seq<real>, b: int, i: nat, k: nat)
    requires k < i <= |rows| && i <= |scores| && rows[k].bucket == b
    ensures WorstOf(rows, scores, b, i).Some? && WorstOf(rows, scores, b, i).value <= Effective(rows[k], scores[k])
  {
    hide Effective;
    if k < i - 1 { WorstBelow(rows, scores, b, i - 1, k); }
  }

  lemma {:induction false} WorstIsSomeones(rows: seq<Row>, scores: seq<real>, b: int, i: nat) returns (k: nat)
    requires i <= |rows| && i <= |scores| && WorstOf(rows, scores, b, i).Some?
    ensures k < i && rows[k].bucket == b && WorstOf(rows, scores, b, i).value == Effective(rows[k], scores[k])
  {
    hide Effective;
    var rest := WorstOf(rows, scores, b, i - 1);
    if rows[i - 1].bucket == b && WorstOf(rows, scores, b, i).value == Effective(rows[i - 1], scores[i - 1]) {
      k := i - 1;
    } else {
      k := WorstIsSomeones(rows, scores, b, i - 1);
    }
  }

  lemma OwnWeight(row: Row, score: real)
    requires Fair(row) && row.weighted
    ensures Effective(row, score) == score
  {
  }

  /** The whole order inside a bucket, pair by pair. A demoted row is never weighed above a row ranked
      ahead of it; and a row behind overtakes row `i` exactly when it was not demoted and its weight
      already lifts it above an undemoted row ranked no later than `i` (row `i` itself, if undemoted). */
  lemma {:induction false} OvertakenIff(rows: seq<Row>, own: seq<real>, scores: seq<real>, i: nat, j: nat)
    requires |own| == |rows| == |scores| && Clamped(rows, own, scores, |rows|)
    requires (forall k :: 0 <= k < |rows| ==> Fair(rows[k])) && i < j < |rows| && rows[i].bucket == rows[j].bucket
    ensures rows[j].weighted ==> Effective(rows[j], scores[j]) <= Effective(rows[i], scores[i])
    ensures Effective(rows[i], scores[i]) < Effective(rows[j], scores[j]) <==>
              !rows[j].weighted
              && exists k :: 0 <= k <= i && rows[k].bucket == rows[j].bucket && !rows[k].weighted
                             && (rows[i].weighted || k == i)
                             && Effective(rows[k], own[k]) < Effective(rows[j], own[j])
    decreases i
  {
    hide Effective, BestFrom, WorstOf;
    if rows[j].weighted {
      OwnWeight(rows[j], scores[j]);
      WorstBelow(rows, scores, rows[j].bucket, j, i);
    } else if rows[i].weighted {
      var b := rows[i].bucket;
      OwnWeight(rows[i], scores[i]);
      BestAbove(rows, own, b, i + 1, j);
      var high := Higher(BestFrom(rows, own, b, i + 1), own[i]);
      assert high >= Effective(rows[j], own[j]);
      if scores[i] < Effective(rows[j], own[j]) {
        var k := WorstIsSomeones(rows, scores, b, i);
        OvertakenIff(rows, own, scores, k, j);
      }
      forall k | 0 <= k <= i && rows[k].bucket == b && !rows[k].weighted ensures scores[i] <= Effective(rows[k], own[k]) {
        WorstBelow(rows, scores, b, i, k);
      }
    }
  }

  // ------------------------------------------------------------------ the stable sort

  /** With every row observed, what the scoring returns is clamped. */
  lemma ObservedIsClamped(ranked: seq<Option<Row>>, own: seq<real>, scores: seq<real>)
    requires Scored(ranked, own, scores) && Observed(ranked)
    ensures |own| == |scores| == |ranked| && Clamped(Rows(ranked), own, scores, |ranked|)
  {
  }

  /** The key finish_candidates sorts by, ties in input order. */
  function SortsAhead(rows: seq<Row>, scores: seq<real>): Before
    requires |rows| == |scores|
  {
    (i: nat, j: nat) => i < |rows| && j < |rows| && KeyOrder(rows[i], scores[i], i, rows[j], scores[j], j)
  }

  predicate KeyOrder(a: Row, x: real, i: nat, b: Row, y: real, j: nat) {
    if a.ineligible != b.ineligible then b.ineligible
    else if a.bucket != b.bucket then a.bucket < b.bucket
    else if a.fallback != b.fallback then b.fallback
    else if Effective(a, x) != Effective(b, y) then Effective(a, x) > Effective(b, y)
    else i < j
  }

  lemma SortsAheadTotal(rows: seq<Row>, scores: seq<real>)
    requires |rows| == |scores|
    ensures StrictTotal(|rows|, SortsAhead(rows, scores))
  {
    hide Effective;
  }

  /** Whatever the weights and whatever the order of the other rows, the stable sort never puts a
      demoted row ahead of a row the pipeline ranked before it under the same leading key. */
  lemma DemotionHolds(rows: seq<Row>, own: seq<real>, scores: seq<real>, x: nat, y: nat)
    requires |own| == |rows| == |scores| && Clamped(rows, own, scores, |rows|)
    requires forall k :: 0 <= k < |rows| ==> Fair(rows[k])
    requires var order := Sort(|rows|, SortsAhead(rows, scores));
             x < y < |order| && order[x] < |rows| && order[y] < |rows|
             && rows[order[x]].weighted && SameLead(rows[order[x]], rows[order[y]])
    ensures var order := Sort(|rows|, SortsAhead(rows, scores)); order[x] < order[y]
  {
    hide Clamped, Effective;
    var before := SortsAhead(rows, scores);
    var order := Sort(|rows|, before);
    SortsAheadTotal(rows, scores);
    SortOrders(|rows|, before);
    assert before(order[x], order[y]) && order[x] != order[y];
    if order[y] < order[x] { OvertakenIff(rows, own, scores, order[y], order[x]); }
  }

  /** The same of what the scoring returns. */
  lemma ScoringKeepsDemotion(ranked: seq<Option<Row>>, own: seq<real>, scores: seq<real>, x: nat, y: nat)
    requires Scored(ranked, own, scores) && Observed(ranked) && |scores| == |ranked|
    requires forall k :: 0 <= k < |ranked| ==> Fair(ranked[k].value)
    requires var order := Sort(|ranked|, SortsAhead(Rows(ranked), scores));
             x < y < |order| && order[x] < |ranked| && order[y] < |ranked|
             && ranked[order[x]].value.weighted && SameLead(ranked[order[x]].value, ranked[order[y]].value)
    ensures var order := Sort(|ranked|, SortsAhead(Rows(ranked), scores)); order[x] < order[y]
  {
    ObservedIsClamped(ranked, own, scores);
    hide Scored, Clamped, Sort;
    DemotionHolds(Rows(ranked), own, scores, x, y);
  }

  /** The final order: what is eligible first, then by bucket, then without fallback, then by weighted
      score from the highest, and ties in input order. */
  lemma FinalOrder(rows: seq<Row>, scores: seq<real>, x: nat, y: nat)
    requires |rows| == |scores| && x < y < |rows|
    ensures var order := Sort(|rows|, SortsAhead(rows, scores));
            && |order| == |rows| && NoDup(order) && (forall i: nat :: i in order <==> i < |rows|) && order[x] < |rows| && order[y] < |rows|
            && var a, b := rows[order[x]], rows[order[y]];
               && (a.ineligible ==> b.ineligible)
               && (a.ineligible == b.ineligible ==> a.bucket <= b.bucket)
               && (a.ineligible == b.ineligible && a.bucket == b.bucket && a.fallback ==> b.fallback)
               && (SameLead(a, b) ==> Weighed(rows, scores, order[x]) >= Weighed(rows, scores, order[y]))
               && (SameLead(a, b) && Weighed(rows, scores, order[x]) == Weighed(rows, scores, order[y]) ==> order[x] < order[y])
  {
    hide Sort;
    SortsAheadTotal(rows, scores);
    SortOrders(|rows|, SortsAhead(rows, scores));
    var order := Sort(|rows|, SortsAhead(rows, scores));
    assert SortsAhead(rows, scores)(order[x], order[y]);
    EffectiveIsWeighed(rows, scores, order[x]);
    EffectiveIsWeighed(rows, scores, order[y]);
  }

  predicate SameLead(a: Row, b: Row) {
    a.ineligible == b.ineligible && a.bucket == b.bucket && a.fallback == b.fallback
  }

  /** Undemoted rows of one bucket already in order of weighted score. */
  ghost predicate UndemotedInOrder(rows: seq<Row>, own: seq<real>)
    requires |own| == |rows|
  {
    forall i, j :: 0 <= i < j < |rows| && rows[i].bucket == rows[j].bucket && !rows[i].weighted && !rows[j].weighted ==>
      Effective(rows[i], own[i]) >= Effective(rows[j], own[j])
  }

  /** Within every bucket the clamped scores keep the pipeline's order if and only if the undemoted
      rows' own scores do. */
  lemma OrderKeptIff(rows: seq<Row>, own: seq<real>, scores: seq<real>)
    requires |own| == |rows| == |scores| && Clamped(rows, own, scores, |rows|)
    requires forall k :: 0 <= k < |rows| ==> Fair(rows[k])
    ensures (forall i, j :: 0 <= i < j < |rows| && rows[i].bucket == rows[j].bucket ==>
               Effective(rows[i], scores[i]) >= Effective(rows[j], scores[j]))
            <==> UndemotedInOrder(rows, own)
  {
    hide Effective, BestFrom, WorstOf;
    if UndemotedInOrder(rows, own) {
      forall i, j | 0 <= i < j < |rows| && rows[i].bucket == rows[j].bucket
        ensures Effective(rows[i], scores[i]) >= Effective(rows[j], scores[j])
      {
        OvertakenIff(rows, own, scores, i, j);
      }
    }
  }

  /** The rows that `finish_candidates` sorts: those observed, and some undemoted row for each one not. */
  ghost predicate Sorts(rows: seq<Row>, ranked: seq<Option<Row>>) {
    |rows| == |ranked|
    && forall i :: 0 <= i < |rows| ==> if ranked[i].Some? then rows[i] == ranked[i].value else !rows[i].weighted
  }

  /** The rows whose own scores stand are in their order before the demotion: the undemoted ones, or all
      if nothing is clamped. */
  ghost predicate InPlaces(rows: seq<Row>, ranked: seq<Option<Row>>)
    requires |rows| == |ranked|
  {
    forall i, j :: 0 <= i < j < |rows| && (Plain(ranked) || (!rows[i].weighted && !rows[j].weighted)) ==>
      PlaceKeys(ranked)[i] <= PlaceKeys(ranked)[j]
  }

  /** One leading key, every weight 1, the rows that are not clamped in their order before the demotion:
      the scores never rise along the pipeline's order, and the stable sort returns exactly that order. */
  lemma {:induction false} PipelineOrderReproduced(rows: seq<Row>, ranked: seq<Option<Row>>, own: seq<real>, scores: seq<real>)
    requires Scored(ranked, own, scores) && Sorts(rows, ranked) && InPlaces(rows, ranked)
    requires forall i :: 0 <= i < |rows| ==> rows[i].weight == 1.0
    requires forall i, j :: 0 <= i < j < |rows| ==> SameLead(rows[i], rows[j])
    ensures |scores| == |rows| && forall i, j :: 0 <= i < j < |scores| ==> scores[i] >= scores[j]
    ensures Sort(|rows|, SortsAhead(rows, scores)) == seq(|rows|, i => i)
  {
    hide Sort, Scored, Sorts, InPlaces;
    ScoresFall(rows, ranked, own, scores);
    SortOfSorted(|rows|, SortsAhead(rows, scores));
  }

  lemma {:induction false} ScoresFall(rows: seq<Row>, ranked: seq<Option<Row>>, own: seq<real>, scores: seq<real>)
    requires Scored(ranked, own, scores) && Sorts(rows, ranked) && InPlaces(rows, ranked)
    requires forall i :: 0 <= i < |rows| ==> rows[i].weight == 1.0
    requires forall i, j :: 0 <= i < j < |rows| ==> SameLead(rows[i], rows[j])
    ensures |scores| == |rows| && forall i, j :: 0 <= i < j < |scores| ==> scores[i] >= scores[j]
  {
    assert OwnScores(ranked, own);
    OwnLength(ranked, own);
    hide BestFrom, WorstOf, PositionScore, Clamped, Effective, OwnScores, PlaceKeys;
    forall i, j | 0 <= i < j < |rows| && (Plain(ranked) || (!rows[i].weighted && !rows[j].weighted)) ensures own[i] >= own[j] {
      OwnFollowsPlaces(ranked, own, i, j);
    }
    forall i, x: real | 0 <= i < |rows| ensures Effective(rows[i], x) == x { WeightOne(rows[i], x); }
    if !Plain(ranked) {
      assert rows == Rows(ranked);
      OrderKeptIff(rows, own, scores);
      forall i, j | 0 <= i < j < |scores| ensures scores[i] >= scores[j] {
        assert Effective(rows[i], scores[i]) >= Effective(rows[j], scores[j]);
      }
    }
  }

  lemma OwnLength(ranked: seq<Option<Row>>, own: seq<real>)
    requires OwnScores(ranked, own)
    ensures |own| == |ranked|
  {
  }

  lemma WeightOne(row: Row, x: real)
    requires row.weight == 1.0
    ensures Effective(row, x) == x
  {
  }

  /** A row whose place key is no larger scores no less, ties in input order. */
  lemma OwnFollowsPlaces(ranked: seq<Option<Row>>, own: seq<real>, i: nat, j: nat)
    requires OwnScores(ranked, own) && i < j < |ranked| && PlaceKeys(ranked)[i] <= PlaceKeys(ranked)[j]
    ensures own[i] >= own[j]
  {
    hide PositionScore;
    var keys, order := PlaceKeys(ranked), PlaceOrder(ranked);
    assert StrictTotal(|keys|, ByKey(keys));
    SortOrders(|keys|, ByKey(keys));
    assert i in order && j in order;
    var p :| 0 <= p < |order| && order[p] == i;
    var q :| 0 <= q < |order| && order[q] == j;
    assert !ByKey(keys)(order[q], order[p]) || i == j;
    PositionScoreFalls(p, q);
  }

  lemma PositionScoreFalls(p: nat, q: nat)
    ensures p <= q ==> PositionScore(q) <= PositionScore(p)
  {
    if p < q { RoundingFalls(1 + p, 1 + q); }
  }

  /** Rounding half to even is monotone: the nearest whole numbers to n/a and n/b keep their order. */
  lemma RoundingFalls(a: nat, b: nat)
    requires 0 < a < b
    ensures PositionScore(b - 1) <= PositionScore(a - 1)
  {
    var n := 10000;
    var x, r, y, s := n / a, n % a, n / b, n % b;
    Divided(n, a, x, r);
    Divided(n, b, y, s);
    QuotientFalls(n, a, b, x, y, r, s);
  }

  lemma Divided(n: nat, a: nat, x: nat, r: nat)
    requires a > 0 && x == n / a && r == n % a
    ensures n == a * x + r && r < a
  {
  }

  lemma QuotientFalls(n: nat, a: nat, b: nat, x: nat, y: nat, r: nat, s: nat)
    requires 0 < a < b && n == a * x + r && n == b * y + s && r < a && s < b
    ensures y <= x
    ensures x == y ==> r >= s
  {
    TimesUp(a, b, x, y);
  }

  lemma TimesUp(a: nat, b: nat, x: nat, y: nat)
    requires a < b
    ensures y > x ==> b * y >= a * x + a
    ensures y == x ==> b * y >= a * x
  {
    Difference(y, b, a);
    if y > x { Difference(a, y, x + 1); Difference(a, x, x); }
  }

  lemma Difference(k: nat, hi: nat, lo: nat)
    requires lo <= hi
    ensures hi * k >= lo * k && k * hi >= k * lo && k * (lo + 1) == k * lo + k
  {
    MultiplyNats(hi - lo, k);
  }

  lemma MultiplyNats(a: nat, b: nat)
    ensures a * b >= 0
  {
  }

  lemma {:induction false} SortOfSorted(n: nat, before: Before)
    requires forall i, j :: 0 <= i < j < n ==> before(i, j) && !before(j, i)
    ensures Sort(n, before) == seq(n, i => i)
  {
    if n > 0 {
      SortOfSorted(n - 1, before);
      InsertLast(seq(n - 1, i => i), n - 1, before);
    }
  }

  lemma {:induction false} InsertLast(order: seq<nat>, i: nat, before: Before)
    requires forall x :: 0 <= x < |order| ==> !before(i, order[x])
    ensures Insert(order, i, before) == order + [i]
  {
    if order != [] { InsertLast(order[1..], i, before); }
  }

  // ------------------------------------------------------------------ the demotion itself

  /** One candidate of the fused list: its score, and whether it comes from distilled history. */
  datatype Fused = Fused(score: real, distilled: bool)

  function Demoted(rows: seq<Fused>, weight: real): (keys: seq<real>)
    ensures |keys| == |rows|
  {
    seq(|rows|, i requires 0 <= i < |rows| => -(if rows[i].distilled then rows[i].score * weight else rows[i].score))
  }

  /** Only distilled rows are multiplied, then one stable descending sort. Of a fused list in
      descending order, the only pairs that change places are a distilled row and an undistilled row
      that stood behind it. */
  lemma DemotionOnlyLowers(rows: seq<Fused>, weight: real, x: nat, y: nat)
    requires 0.0 <= weight <= 1.0 && forall i :: 0 <= i < |rows| ==> rows[i].score >= 0.0
    requires forall i, j :: 0 <= i < j < |rows| ==> rows[i].score >= rows[j].score
    requires var order := Sort(|rows|, ByReal(Demoted(rows, weight)));
             x < y < |order| && order[x] < |rows| && order[y] < |rows|
    ensures var order := Sort(|rows|, ByReal(Demoted(rows, weight)));
            order[y] < order[x] ==> rows[order[y]].distilled && !rows[order[x]].distilled
  {
    hide Sort;
    var keys := Demoted(rows, weight);
    assert StrictTotal(|keys|, ByReal(keys));
    SortOrders(|keys|, ByReal(keys));
    var order := Sort(|rows|, ByReal(keys));
    assert ByReal(keys)(order[x], order[y]);
    if order[y] < order[x] { OvertakesOnlyIfDemoted(rows[order[y]], rows[order[x]], weight); }
  }

  lemma OvertakesOnlyIfDemoted(a: Fused, b: Fused, weight: real)
    requires a.score >= b.score >= 0.0 && 0.0 <= weight <= 1.0
    requires (if a.distilled then a.score * weight else a.score) < (if b.distilled then b.score * weight else b.score)
    ensures a.distilled && !b.distilled
  {
    NonNegative(a.score - b.score, weight);
    NonNegative(b.score, 1.0 - weight);
  }

  lemma NonNegative(a: real, b: real)
    requires a >= 0.0 && b >= 0.0
    ensures a * b >= 0.0
  {
  }
}

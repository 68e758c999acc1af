/**
 The area under the ROC curve, two ways: the rank-sum loop with averaged ties, and the pairwise
 count. Ranks and pair counts are doubled, so a tie's half is a whole number.
 */
module RankAuc {
  import opened Prelude
  import opened Sorting

  datatype Verdict = Correct | Wrong

  datatype Item = Item(score: real, verdict: Verdict)

  function Scores(items: seq<Item>): seq<real> {
    seq(|items|, i requires 0 <= i < |items| => items[i].score)
  }

  /** The scores with the given verdict, in order. */
  function Having(items: seq<Item>, v: Verdict): (s: seq<real>) {
    if items == [] then [] else
    var n := |items| - 1;
    if items[n].verdict == v then Having(items[..n], v) + [items[n].score] else Having(items[..n], v)
  }

  /** 2 * [a > b] + [a == b]. */
  function Win(a: real, b: real): nat { if a > b then 2 else if a == b then 1 else 0 }

  /** Sum of Win(a, b) over `others`. */
  function Wins(a: real, others: seq<real>): nat {
    if others == [] then 0 else
    var n := |others| - 1;
    Wins(a, others[..n]) + Win(a, others[n])
  }

  /** Twice the pairwise numerator: the double comprehension over positives and negatives. */
  function PairWins(pos: seq<real>, neg: seq<real>): nat {
    if pos == [] then 0 else
    var n := |pos| - 1;
    PairWins(pos[..n], neg) + Wins(pos[n], neg)
  }

  /** The pairwise AUC; None where the source reports nan. */
  function PairwiseAuc(pos: seq<real>, neg: seq<real>): Option<real> {
    if pos == [] || neg == [] then None
    else Some((PairWins(pos, neg) as real / 2.0) / (|pos| * |neg|) as real)
  }

  // ------------------------------------------------------------------ counting

  function Below(scores: seq<real>, a: real): set<nat> { set k: nat | k < |scores| && scores[k] < a }

  function Equal(scores: seq<real>, a: real): set<nat> { set k: nat | k < |scores| && scores[k] == a }

  lemma {:induction false} WinsCounts(scores: seq<real>, a: real)
    ensures Wins(a, scores) == 2 * |Below(scores, a)| + |Equal(scores, a)|
  {
    if scores != [] {
      var n := |scores| - 1;
      var init := scores[..n];
      WinsCounts(init, a);
      assert Below(scores, a) == if scores[n] < a then Below(init, a) + {n} else Below(init, a);
      assert Equal(scores, a) == if scores[n] == a then Equal(init, a) + {n} else Equal(init, a);
    }
  }

  ghost predicate SortedBy(order: seq<nat>, scores: seq<real>) {
    && |order| == |scores| && NoDup(order)
    && (forall k: nat :: k in order <==> k < |scores|)
    && (forall x :: 0 <= x < |order| ==> order[x] < |scores|)
    && (forall x, y :: 0 <= x < y < |order| ==> scores[order[x]] <= scores[order[y]])
  }

  /** Positions i..j of the sorted order hold exactly the items tied at one score. */
  ghost predicate TieGroup(order: seq<nat>, scores: seq<real>, i: nat, j: nat) {
    && SortedBy(order, scores) && i <= j < |order|
    && (forall k :: i <= k <= j ==> scores[order[k]] == scores[order[i]])
    && (i > 0 ==> scores[order[i - 1]] < scores[order[i]])
    && (j + 1 < |order| ==> scores[order[i]] < scores[order[j + 1]])
  }

  lemma InSlice(order: seq<nat>, x: nat, lo: nat, hi: nat)
    requires NoDup(order) && x < |order| && lo <= hi <= |order|
    ensures order[x] in order[lo..hi] <==> lo <= x < hi
  {
    if lo <= x < hi { assert order[lo..hi][x - lo] == order[x]; }
    if order[x] in order[lo..hi] { var y :| 0 <= y < hi - lo && order[lo..hi][y] == order[x]; assert order[lo + y] == order[x]; }
  }

  /** The averaged rank of a tie group counts the items below it and those tied with it. */
  lemma GroupRank(order: seq<nat>, scores: seq<real>, i: nat, j: nat)
    requires TieGroup(order, scores, i, j)
    ensures i + j + 2 == 1 + Wins(scores[order[i]], scores)
  {
    var a := scores[order[i]];
    forall x | 0 <= x < |order|
      ensures scores[order[x]] < a <==> x < i
      ensures scores[order[x]] == a <==> i <= x <= j
    {
      if x < i { assert scores[order[x]] <= scores[order[i - 1]]; }
      if x > j { assert scores[order[j + 1]] <= scores[order[x]]; }
    }
    forall k: nat
      ensures k in Below(scores, a) <==> k in Elements(order[0..i])
      ensures k in Equal(scores, a) <==> k in Elements(order[i..j + 1])
    {
      if k in order {
        var x :| 0 <= x < |order| && order[x] == k;
        InSlice(order, x, 0, i);
        InSlice(order, x, i, j + 1);
      }
    }
    assert Below(scores, a) == Elements(order[0..i]) && Equal(scores, a) == Elements(order[i..j + 1]);
    DistinctCount(order[0..i]);
    DistinctCount(order[i..j + 1]);
    WinsCounts(scores, a);
  }

  // ------------------------------------------------------------------ the loop

  /** Twice the sum of the ranks of the correct items among the first `n`. */
  function RankSum(items: seq<Item>, ranks: seq<int>): int
    requires |items| == |ranks|
  {
    if items == [] then 0 else
    var n := |items| - 1;
    RankSum(items[..n], ranks[..n]) + if items[n].verdict.Correct? then ranks[n] else 0
  }

  lemma StableByReal(keys: seq<real>)
    ensures StrictTotal(|keys|, ByReal(keys))
  {
  }

  lemma SortedScores(scores: seq<real>)
    ensures var order := Sort(|scores|, ByReal(scores));
            && SortedBy(order, scores) && |order| == |scores| && NoDup(order)
            && (forall k: nat :: k in order <==> k < |scores|)
            && (forall x :: 0 <= x < |order| ==> order[x] < |scores|)
            && (forall x, y :: 0 <= x < y < |order| ==> scores[order[x]] <= scores[order[y]])
  {
    StableByReal(scores);
    SortOrders(|scores|, ByReal(scores));
  }

  /** The innermost loop: positions i..j of the order share one averaged rank. */
  method StoreGroup(ranks: array<int>, order: seq<nat>, i: nat, j: nat)
    requires NoDup(order) && i <= j < |order| && forall x :: 0 <= x < |order| ==> order[x] < ranks.Length
    modifies ranks
    ensures forall m :: i <= m <= j ==> ranks[order[m]] == i + j + 2
    ensures forall m :: 0 <= m < |order| && !(i <= m <= j) ==> ranks[order[m]] == old(ranks[order[m]])
  {
    for k := i to j + 1
      invariant forall m :: i <= m < k ==> ranks[order[m]] == i + j + 2
      invariant forall m :: 0 <= m < |order| && !(i <= m < k) ==> ranks[order[m]] == old(ranks[order[m]])
    {
      ranks[order[k]] := i + j + 2;
    }
  }

  /** The tie-averaging loop: every item's doubled rank is 1 plus its wins over all the items. */
  method AveragedRanks(items: seq<Item>) returns (ranks: array<int>)
    ensures fresh(ranks) && ranks.Length == |items|
    ensures forall x :: 0 <= x < |items| ==> ranks[x] == 1 + Wins(items[x].score, Scores(items))
  {
    hide ByReal, Sort, Wins, SortedBy;
    var n := |items|;
    ghost var scores := Scores(items);
    var order := Sort(n, ByReal(Scores(items)));
    SortedScores(scores);
    ranks := new int[n](_ => 0);
    var i := 0;
    while i < n
      invariant 0 <= i <= n
      invariant 0 < i < n ==> scores[order[i - 1]] < scores[order[i]]
      invariant forall k :: 0 <= k < i ==> ranks[order[k]] == 1 + Wins(scores[order[k]], scores)
    {
      var j := i;
      while j + 1 < n && items[order[j + 1]].score == items[order[i]].score
        invariant i <= j < n
        invariant forall k :: i <= k <= j ==> scores[order[k]] == scores[order[i]]
      {
        j := j + 1;
      }
      if j + 1 < n { assert scores[order[i]] <= scores[order[j + 1]]; }
      GroupRank(order, scores, i, j);
      StoreGroup(ranks, order, i, j);
      i := j + 1;
    }
    forall x: nat | x < n ensures ranks[x] == 1 + Wins(items[x].score, scores) {
      assert x in order;
    }
  }

  /** The calibration script's AUC; None where it divides by zero. */
  method RankSumAuc(items: seq<Item>) returns (auc: Option<real>)
    ensures auc == PairwiseAuc(Having(items, Correct), Having(items, Wrong))
  {
    var ranks := AveragedRanks(items);
    var pos, neg, rankSum := 0, 0, 0;
    for i := 0 to |items|
      invariant pos == |Having(items[..i], Correct)| && neg == |Having(items[..i], Wrong)|
      invariant rankSum == RankSum(items[..i], ranks[..i])
    {
      assert items[..i + 1][..i] == items[..i] && ranks[..i + 1][..i] == ranks[..i];
      if items[i].verdict.Correct? {
        pos, rankSum := pos + 1, rankSum + ranks[i];
      } else {
        neg := neg + 1;
      }
    }
    assert items[..|items|] == items && ranks[..|items|] == ranks[..];
    RankSumIsPairwise(items, ranks[..]);
    hide RankSum, Having, PairWins, Wins;
    ZeroPairs(pos, neg);
    if pos * neg == 0 {
      return None;
    }
    var twice := rankSum - pos * (pos + 1);
    auc := Some((twice as real / 2.0) / (pos * neg) as real);
  }

  // ------------------------------------------------------------------ rank sum = pairwise

  lemma {:induction false} WinsSplit(a: real, items: seq<Item>)
    ensures Wins(a, Scores(items)) == Wins(a, Having(items, Correct)) + Wins(a, Having(items, Wrong))
  {
    if items == [] { return; }
    hide Wins, Win, Having, Scores;
    var (init, last) := (items[..|items| - 1], items[|items| - 1]);
    WinsSplit(a, init);
    HavingLast(items);
    WinsAppend(a, Scores(init), last.score);
    WinsAppend(a, Having(init, last.verdict), last.score);
  }

  /** The last score comes last, and goes to its own verdict. */
  lemma HavingLast(items: seq<Item>)
    requires items != []
    ensures var (init, last) := (items[..|items| - 1], items[|items| - 1]);
            && Scores(items) == Scores(init) + [last.score]
            && forall v :: Having(items, v) == Having(init, v) + if v == last.verdict then [last.score] else []
  {
  }

  lemma WinsAppend(a: real, others: seq<real>, b: real)
    ensures Wins(a, others + [b]) == Wins(a, others) + Win(a, b)
  {
    assert (others + [b])[..|others|] == others;
  }

  lemma PairAppend(pos: seq<real>, a: real, neg: seq<real>)
    ensures PairWins(pos + [a], neg) == PairWins(pos, neg) + Wins(a, neg)
  {
    assert (pos + [a])[..|pos|] == pos;
  }

  /** Adding one negative adds its losses to every positive. */
  lemma {:induction false} PairAppendRight(pos: seq<real>, neg: seq<real>, b: real)
    ensures PairWins(pos, neg + [b]) + Wins(b, pos) == PairWins(pos, neg) + 2 * |pos|
  {
    if pos != [] {
      PairAppendRight(pos[..|pos| - 1], neg, b);
      WinsAppend(pos[|pos| - 1], neg, b);
    }
  }

  /** Among themselves, P items win P * P half points: every pair shares two, every item ties itself. */
  lemma {:induction false} SelfWins(pos: seq<real>)
    ensures PairWins(pos, pos) == |pos| * |pos|
  {
    if pos != [] {
      var n := |pos| - 1;
      var init, a := pos[..n], pos[n];
      SelfWins(init);
      assert pos == init + [a];
      PairAppendRight(init, init, a);
      PairAppend(init, a, pos);
      WinsAppend(a, init, a);
    }
  }

  lemma {:induction false} RankSumExpands(items: seq<Item>, ranks: seq<int>, all: seq<Item>)
    requires |items| == |ranks|
    requires forall x :: 0 <= x < |items| ==> ranks[x] == 1 + Wins(items[x].score, Scores(all))
    ensures var pos := Having(items, Correct);
            RankSum(items, ranks) == |pos| + PairWins(pos, Having(all, Correct)) + PairWins(pos, Having(all, Wrong))
  {
    if items != [] {
      var n := |items| - 1;
      RankSumExpands(items[..n], ranks[..n], all);
      if items[n].verdict.Correct? {
        WinsSplit(items[n].score, all);
        PairAppend(Having(items[..n], Correct), items[n].score, Having(all, Correct));
        PairAppend(Having(items[..n], Correct), items[n].score, Having(all, Wrong));
      }
    }
  }

  /** For every list of scores and verdicts, the doubled rank sum less P(P + 1) is the doubled pairwise sum. */
  lemma RankSumIsPairwise(items: seq<Item>, ranks: seq<int>)
    requires |items| == |ranks|
    requires forall x :: 0 <= x < |items| ==> ranks[x] == 1 + Wins(items[x].score, Scores(items))
    ensures var pos, neg := Having(items, Correct), Having(items, Wrong);
            RankSum(items, ranks) - |pos| * (|pos| + 1) == PairWins(pos, neg)
  {
    var pos := Having(items, Correct);
    RankSumExpands(items, ranks, items);
    SelfWins(pos);
    Distribute(|pos|);
  }

  lemma ZeroPairs(p: nat, n: nat)
    ensures p * n == 0 <==> p == 0 || n == 0
  {
  }

  lemma Distribute(p: int)
    ensures p * (p + 1) == p * p + p
  {
  }

  /** Swapping positives and negatives turns an AUC of x into 1 - x: the half points are shared out. */
  lemma {:induction false} PairsShared(pos: seq<real>, neg: seq<real>)
    ensures PairWins(pos, neg) + PairWins(neg, pos) == 2 * (|pos| * |neg|)
  {
    if neg == [] {
      NoNegatives(pos);
    } else {
      var n := |neg| - 1;
      PairsShared(pos, neg[..n]);
      PairAppendRight(pos, neg[..n], neg[n]);
      assert neg == neg[..n] + [neg[n]];
    }
  }

  lemma {:induction false} NoNegatives(pos: seq<real>)
    ensures PairWins(pos, []) == 0
  {
    if pos != [] { NoNegatives(pos[..|pos| - 1]); }
  }
}

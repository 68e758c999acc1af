/**
 Exact McNemar tests on discordant pairs. Probabilities are rationals (`real`), tails are exact
 sums of binomial coefficients.
 */
module McNemar {
  import opened Prelude

  /** math.comb by Pascal's rule. */
  function Comb(n: nat, k: nat): (c: nat) {
    if k == 0 then 1 else if n == 0 then 0 else Comb(n - 1, k - 1) + Comb(n - 1, k)
  }

  function Pow2(n: nat): (p: nat)
    ensures p >= 1
  {
    if n == 0 then 1 else 2 * Pow2(n - 1)
  }

  /** sum(comb(n, k) for k in range(lo, hi)). */
  function CombSum(n: nat, lo: nat, hi: nat): (s: nat)
    requires lo <= hi
    decreases hi - lo
  {
    if lo == hi then 0 else Comb(n, lo) + CombSum(n, lo + 1, hi)
  }

  /** mcnemar: the two-sided p-value. */
  function TwoSided(a: nat, b: nat): real {
    var n := a + b;
    if n == 0 then 1.0 else
    var tail := CombSum(n, 0, Min(a, b) + 1) as real / Pow2(n) as real;
    if 2.0 * tail < 1.0 then 2.0 * tail else 1.0
  }

  /** mcnemar_regression: the one-sided p-value that B loses more than it gains. */
  function Regression(a: nat, b: nat): real {
    var n := a + b;
    if n == 0 then 1.0 else CombSum(n, a, n + 1) as real / Pow2(n) as real
  }

  // ------------------------------------------------------------------ binomial facts

  lemma {:induction false} CombAbove(n: nat, k: nat)
    requires k > n
    ensures Comb(n, k) == 0
  {
    if n > 0 { CombAbove(n - 1, k - 1); CombAbove(n - 1, k); }
  }

  lemma {:induction false} CombPositive(n: nat, k: nat)
    requires k <= n
    ensures Comb(n, k) >= 1
  {
    if 0 < k { CombPositive(n - 1, k - 1); }
  }

  lemma {:induction false} CombSymmetric(n: nat, k: nat)
    requires k <= n
    ensures Comb(n, k) == Comb(n, n - k)
  {
    if 0 < k < n {
      CombSymmetric(n - 1, k - 1);
      CombSymmetric(n - 1, k);
    } else if n > 0 {
      CombTop(n);
    }
  }

  lemma {:induction false} CombTop(n: nat)
    ensures Comb(n, n) == 1
  {
    if n > 0 { CombTop(n - 1); CombAbove(n - 1, n); }
  }

  lemma {:induction false} SumSplit(n: nat, lo: nat, mid: nat, hi: nat)
    requires lo <= mid <= hi
    ensures CombSum(n, lo, hi) == CombSum(n, lo, mid) + CombSum(n, mid, hi)
    decreases hi - lo
  {
    if lo < mid { SumSplit(n, lo + 1, mid, hi); }
  }

  lemma {:induction false} SumPascal(n: nat, hi: nat)
    ensures CombSum(n + 1, 0, hi + 1) == CombSum(n, 0, hi) + CombSum(n, 0, hi + 1)
  {
    SumSplit(n + 1, 0, hi, hi + 1);
    SumSplit(n, 0, hi, hi + 1);
    if hi > 0 {
      SumPascal(n, hi - 1);
      SumSplit(n, 0, hi - 1, hi);
    }
  }

  /** A whole row of Pascal's triangle sums to 2^n. */
  lemma {:induction false} RowSum(n: nat)
    ensures CombSum(n, 0, n + 1) == Pow2(n)
  {
    if n > 0 {
      SumPascal(n - 1, n);
      RowSum(n - 1);
      SumSplit(n - 1, 0, n, n + 1);
      CombAbove(n - 1, n);
    }
  }

  /** A row read from the other end. */
  lemma {:induction false} SumMirror(n: nat, lo: nat, hi: nat)
    requires lo <= hi <= n + 1
    ensures CombSum(n, lo, hi) == CombSum(n, n + 1 - hi, n + 1 - lo)
    decreases hi - lo
  {
    if lo < hi {
      SumMirror(n, lo + 1, hi);
      CombSymmetric(n, lo);
      SumSplit(n, n + 1 - hi, n - lo, n + 1 - lo);
    }
  }

  // ------------------------------------------------------------------ the tests

  /** The numerator of the regression tail, over 2^n: at least a losses, that is at most b gains. */
  lemma TailIsLow(a: nat, b: nat)
    ensures CombSum(a + b, a, a + b + 1) == CombSum(a + b, 0, b + 1)
    ensures Regression(a, b) == CombSum(a + b, 0, b + 1) as real / Pow2(a + b) as real
  {
    SumMirror(a + b, a, a + b + 1);
  }

  lemma LowGrows(n: nat, k: nat, m: nat)
    requires k <= m
    ensures CombSum(n, 0, k + 1) <= CombSum(n, 0, m + 1)
  {
    SumSplit(n, 0, k + 1, m + 1);
  }

  lemma DivideMonotone(x: nat, y: nat, d: nat)
    requires d > 0
    ensures x <= y <==> x as real / d as real <= y as real / d as real
  {
    var r := d as real;
    assert (x as real / r) * r == x as real && (y as real / r) * r == y as real;
  }

  lemma RegressionRatio(a: nat, b: nat)
    ensures Regression(a, b) == CombSum(a + b, a, a + b + 1) as real / Pow2(a + b) as real
  {
  }

  lemma RatiosAdd(x: nat, y: nat, c: nat, d: nat)
    requires d > 0 && x + y == d + c
    ensures x as real / d as real + y as real / d as real == 1.0 + c as real / d as real
  {
    var r := d as real;
    RatioTimes(x, d);
    RatioTimes(y, d);
    RatioTimes(c, d);
    ZeroProduct(x as real / r + y as real / r - 1.0 - c as real / r, r);
  }

  lemma RatioTimes(x: nat, d: nat)
    requires d > 0
    ensures (x as real / d as real) * d as real == x as real
  {
  }

  lemma ZeroProduct(e: real, r: real)
    requires r > 0.0 && e * r == 0.0
    ensures e == 0.0
  {
  }

  lemma TwiceRatio(x: nat, d: nat)
    requires d > 0
    ensures 2.0 * (x as real / d as real) < 1.0 <==> 2 * x < d
  {
    RatioTimes(x, d);
    HalfLine(x as real / d as real, d as real, x as real);
  }

  lemma HalfLine(q: real, r: real, x: real)
    requires r > 0.0 && q * r == x
    ensures 2.0 * q < 1.0 <==> 2.0 * x < r
  {
  }

  /** The two-sided value is min(1, twice the smaller of the two one-sided tails). */
  lemma TwoSidedIsTwiceSmallerTail(a: nat, b: nat)
    ensures var smaller := if Regression(a, b) <= Regression(b, a) then Regression(a, b) else Regression(b, a);
            TwoSided(a, b) == if 2.0 * smaller < 1.0 then 2.0 * smaller else 1.0
  {
    TailIsLow(a, b);
    TailIsLow(b, a);
    if a <= b { LowGrows(a + b, a, b); } else { LowGrows(a + b, b, a); }
    DivideMonotone(CombSum(a + b, 0, a + 1), CombSum(a + b, 0, b + 1), Pow2(a + b));
    DivideMonotone(CombSum(a + b, 0, b + 1), CombSum(a + b, 0, a + 1), Pow2(a + b));
  }

  lemma Symmetric(a: nat, b: nat)
    ensures TwoSided(a, b) == TwoSided(b, a)
  {
    assert a + b == b + a && Min(a, b) == Min(b, a);
  }

  /** The two one-sided tails overlap in exactly the observed split. */
  lemma TailsOverlapOnce(a: nat, b: nat)
    ensures Regression(a, b) + Regression(b, a) == 1.0 + Comb(a + b, a) as real / Pow2(a + b) as real
  {
    RegressionRatio(a, b);
    RegressionRatio(b, a);
    TailNumerators(a, b);
    hide Regression, CombSum, Comb, Pow2;
    RatiosAdd(CombSum(a + b, a, a + b + 1), CombSum(a + b, b, a + b + 1), Comb(a + b, a), Pow2(a + b));
  }

  lemma TailNumerators(a: nat, b: nat)
    ensures CombSum(a + b, a, a + b + 1) + CombSum(a + b, b, a + b + 1) == Pow2(a + b) + Comb(a + b, a)
  {
    var n := a + b;
    TailIsLow(b, a);
    RowSum(n);
    SumSplit(n, 0, a, n + 1);
    SumSplit(n, 0, a, a + 1);
  }

  lemma HalfRow(a: nat, b: nat)
    ensures 2 * CombSum(a + b, 0, Min(a, b) + 1) >= Pow2(a + b) <==> -1 <= a - b <= 1
  {
    var n, m := a + b, Min(a, b);
    RowSum(n);
    SumSplit(n, 0, m + 1, n + 1);
    SumMirror(n, m + 1, n + 1);       // what is above m mirrors the first n - m
    if n - m == m {                   // equal counts: the middle term is counted twice
      SumSplit(n, 0, m, m + 1);
    } else {
      SumSplit(n, 0, m + 1, n - m);
      if n - m > m + 1 { CombPositive(n, m + 1); }
    }
  }

  /** The value is exactly 1 when, and only when, the counts differ by at most one. */
  lemma OneIffBalanced(a: nat, b: nat)
    ensures TwoSided(a, b) == 1.0 <==> -1 <= a - b <= 1
  {
    hide CombSum, Comb, Pow2;
    HalfRow(a, b);
    TwiceRatio(CombSum(a + b, 0, Min(a, b) + 1), Pow2(a + b));
  }

  /** At a fixed number of discordant pairs, a more lopsided split never has a larger p-value. */
  lemma MoreLopsidedIsSmaller(a: nat, b: nat, c: nat, d: nat)
    requires a + b == c + d && Min(c, d) <= Min(a, b)
    ensures TwoSided(c, d) <= TwoSided(a, b)
  {
    LowGrows(a + b, Min(c, d), Min(a, b));
    DivideMonotone(CombSum(a + b, 0, Min(c, d) + 1), CombSum(a + b, 0, Min(a, b) + 1), Pow2(a + b));
  }

  /** The other copy's order of operations: twice the sum, then the division. */
  function DoubledFirst(a: nat, b: nat): real {
    var n := a + b;
    if n == 0 then 1.0 else
    var p := (2 * CombSum(n, 0, Min(a, b) + 1)) as real / Pow2(n) as real;
    if p < 1.0 then p else 1.0
  }

  /** All copies of the test compute one value. */
  lemma CopiesAgree(a: nat, b: nat)
    ensures DoubledFirst(a, b) == TwoSided(a, b)
  {
    hide CombSum, Comb, Pow2;
    DoubledRatio(CombSum(a + b, 0, Min(a, b) + 1), Pow2(a + b));
  }

  lemma DoubledRatio(x: nat, d: nat)
    requires d > 0
    ensures (2 * x) as real / d as real == 2.0 * (x as real / d as real)
  {
    RatioTimes(x, d);
    RatioTimes(2 * x, d);
    ZeroProduct((2 * x) as real / d as real - 2.0 * (x as real / d as real), d as real);
  }
}

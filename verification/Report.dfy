/**
  The statistics of benchmark/report.go and benchmark/helpers.go over unbounded integers and reals:
  latencies are whole nanoseconds, and the spread is kept as a variance.
 */
module Report {

  // ----- sums and sorting -----

  function Sum(s: seq<int>): int {
    if s == [] then 0 else Sum(s[..|s| - 1]) + s[|s| - 1]
  }

  predicate IsSorted(s: seq<int>) {
    forall i, j | 0 <= i < j < |s| :: s[i] <= s[j]
  }

  function InsertSorted(s: seq<int>, x: int): (r: seq<int>)
    ensures |r| == |s| + 1
  {
    if s == [] || s[|s| - 1] <= x then s + [x]
    else InsertSorted(s[..|s| - 1], x) + [s[|s| - 1]]
  }

  /** The samples in ascending order. */
  function Sorted(s: seq<int>): (r: seq<int>)
    ensures |r| == |s|
  {
    if s == [] then [] else InsertSorted(Sorted(s[..|s| - 1]), s[|s| - 1])
  }

  lemma {:induction false} InsertSortedContents(s: seq<int>, x: int)
    ensures multiset(InsertSorted(s, x)) == multiset(s) + multiset{x}
  {
    if s != [] && s[|s| - 1] > x {
      var n := |s| - 1;
      InsertSortedContents(s[..n], x);
      assert s == s[..n] + [s[n]];
    }
  }

  lemma {:induction false} InsertSortedOrder(s: seq<int>, x: int, hi: int)
    requires IsSorted(s) && x <= hi && forall i | 0 <= i < |s| :: s[i] <= hi
    ensures IsSorted(InsertSorted(s, x)) && forall i | 0 <= i <= |s| :: InsertSorted(s, x)[i] <= hi
  {
    if s != [] && s[|s| - 1] > x {
      InsertSortedOrder(s[..|s| - 1], x, s[|s| - 1]);
    }
  }

  lemma {:induction false} SortedOrder(s: seq<int>)
    ensures IsSorted(Sorted(s))
  {
    if s != [] {
      var t := Sorted(s[..|s| - 1]);
      var x := s[|s| - 1];
      SortedOrder(s[..|s| - 1]);
      InsertSortedOrder(t, x, if t == [] || t[|t| - 1] <= x then x else t[|t| - 1]);
    }
  }

  lemma SplitLast(s: seq<int>)
    requires s != []
    ensures multiset(s) == multiset(s[..|s| - 1]) + multiset{s[|s| - 1]}
    ensures multiset(s[..|s| - 1]) == multiset(s) - multiset{s[|s| - 1]}
  {
    assert s == s[..|s| - 1] + [s[|s| - 1]];
  }

  lemma {:induction false} SortedContents(s: seq<int>)
    ensures multiset(Sorted(s)) == multiset(s)
  {
    hide InsertSorted;
    if s != [] {
      var n := |s| - 1;
      SortedContents(s[..n]);
      InsertSortedContents(Sorted(s[..n]), s[n]);
      SplitLast(s);
    }
  }

  /** Sorting permutes the samples into ascending order. */
  lemma SortedPermutes(s: seq<int>)
    ensures IsSorted(Sorted(s)) && multiset(Sorted(s)) == multiset(s)
  {
    SortedOrder(s);
    SortedContents(s);
  }

  lemma SameSize(a: seq<int>, b: seq<int>)
    requires multiset(a) == multiset(b)
    ensures |a| == |b|
  {
    assert |multiset(a)| == |a| && |multiset(b)| == |b|;
  }

  lemma LastsAgree(a: seq<int>, b: seq<int>)
    requires IsSorted(a) && IsSorted(b) && multiset(a) == multiset(b) && a != [] && |a| == |b|
    ensures a[|a| - 1] == b[|b| - 1]
  {
    LastIsGreatest(a, b[|b| - 1]);
    LastIsGreatest(b, a[|a| - 1]);
  }

  lemma RestsAgree(a: seq<int>, b: seq<int>)
    requires multiset(a) == multiset(b) && a != [] && |a| == |b| && a[|a| - 1] == b[|b| - 1]
    ensures multiset(a[..|a| - 1]) == multiset(b[..|b| - 1])
  {
    SplitLast(a);
    SplitLast(b);
  }

  /** There is one ascending order, so the result does not depend on the sorting algorithm. */
  lemma {:induction false} SortIsUnique(a: seq<int>, b: seq<int>)
    requires IsSorted(a) && IsSorted(b) && multiset(a) == multiset(b)
    ensures a == b
  {
    SameSize(a, b);
    if a != [] {
      var n := |a| - 1;
      LastsAgree(a, b);
      RestsAgree(a, b);
      SortIsUnique(a[..n], b[..n]);
      assert a == a[..n] + [a[n]] && b == b[..n] + [b[n]];
    }
  }

  lemma LastIsGreatest(a: seq<int>, x: int)
    requires IsSorted(a) && a != [] && (x in multiset(a) || x == a[|a| - 1])
    ensures x <= a[|a| - 1]
  {
    assert x in a;
  }

  function Count(s: seq<int>, p: int -> bool): nat {
    if s == [] then 0 else Count(s[..|s| - 1], p) + if p(s[|s| - 1]) then 1 else 0
  }

  lemma {:induction false} CountInsert(s: seq<int>, x: int, p: int -> bool)
    ensures Count(InsertSorted(s, x), p) == Count(s, p) + if p(x) then 1 else 0
  {
    if s == [] || s[|s| - 1] <= x {
      assert (s + [x])[..|s|] == s;
    } else {
      var n := |s| - 1;
      var r := InsertSorted(s[..n], x);
      CountInsert(s[..n], x, p);
      assert (r + [s[n]])[..|r|] == r;
    }
  }

  lemma {:induction false} CountSorted(s: seq<int>, p: int -> bool)
    ensures Count(Sorted(s), p) == Count(s, p)
  {
    if s != [] {
      CountSorted(s[..|s| - 1], p);
      CountInsert(Sorted(s[..|s| - 1]), s[|s| - 1], p);
    }
  }

  lemma {:induction false} CountAtLeast(s: seq<int>, m: nat, p: int -> bool)
    requires m <= |s| && forall i | 0 <= i < m :: p(s[i])
    ensures Count(s, p) >= m
  {
    if s != [] {
      CountAtLeast(s[..|s| - 1], if m == |s| then m - 1 else m, p);
    }
  }

  lemma {:induction false} CountAtMost(s: seq<int>, m: nat, p: int -> bool)
    requires m <= |s| && forall i | m <= i < |s| :: !p(s[i])
    ensures Count(s, p) <= m
  {
    if s != [] {
      CountAtMost(s[..|s| - 1], if m == |s| then m - 1 else m, p);
    }
  }

  function Below(x: int): int -> bool {
    y => y < x
  }

  function UpTo(x: int): int -> bool {
    y => y <= x
  }

  lemma SortedRank(t: seq<int>, k: nat)
    requires IsSorted(t) && k < |t|
    ensures Count(t, Below(t[k])) <= k < Count(t, UpTo(t[k]))
  {
    CountAtMost(t, k, Below(t[k]));
    CountAtLeast(t, k + 1, UpTo(t[k]));
  }

  /**
    The entry at index `k` is the order statistic of rank `k`: at most `k` samples are below it, and
    more than `k` are not above it.
   */
  lemma OrderStatistic(s: seq<int>, k: nat)
    requires k < |s|
    ensures Count(s, Below(Sorted(s)[k])) <= k < Count(s, UpTo(Sorted(s)[k]))
  {
    var x := Sorted(s)[k];
    assert IsSorted(Sorted(s)) by {
      SortedPermutes(s);
    }
    SortedRank(Sorted(s), k);
    CountSorted(s, Below(x));
    CountSorted(s, UpTo(x));
  }

  lemma {:induction false} SumInsert(s: seq<int>, x: int)
    ensures Sum(InsertSorted(s, x)) == Sum(s) + x
  {
    if s == [] || s[|s| - 1] <= x {
      assert (s + [x])[..|s|] == s;
    } else {
      var n := |s| - 1;
      var r := InsertSorted(s[..n], x);
      SumInsert(s[..n], x);
      assert (r + [s[n]])[..|r|] == r;
    }
  }

  lemma {:induction false} SumSorted(s: seq<int>)
    ensures Sum(Sorted(s)) == Sum(s)
  {
    if s != [] {
      SumSorted(s[..|s| - 1]);
      SumInsert(Sorted(s[..|s| - 1]), s[|s| - 1]);
    }
  }

  lemma {:induction false} SumBounds(s: seq<int>, lo: int, hi: int)
    requires forall i | 0 <= i < |s| :: lo <= s[i] <= hi
    ensures |s| * lo <= Sum(s) <= |s| * hi
  {
    if s != [] {
      var n := |s| - 1;
      SumBounds(s[..n], lo, hi);
      assert |s| * lo == n * lo + lo && |s| * hi == n * hi + hi;
    }
  }

  /** Go's integer division by a positive number rounds towards zero. */
  function Quotient(a: int, b: int): int
    requires b > 0
  {
    if a >= 0 then a / b else -(-a / b)
  }

  lemma ScaleMono(b: int, x: int, y: int)
    requires b > 0 && x <= y
    ensures b * x <= b * y
  {
  }

  lemma FloorBounds(a: nat, b: int, lo: int, hi: int)
    requires b > 0 && b * lo <= a <= b * hi
    ensures lo <= a / b <= hi
  {
    var q := a / b;
    assert b * q <= a < b * (q + 1);
    if q < lo { ScaleMono(b, q + 1, lo); }
    if q > hi { ScaleMono(b, hi + 1, q); }
  }

  lemma QuotientBounds(a: int, b: int, lo: int, hi: int)
    requires b > 0 && b * lo <= a <= b * hi
    ensures lo <= Quotient(a, b) <= hi
  {
    if a >= 0 {
      FloorBounds(a, b, lo, hi);
    } else {
      assert b * -hi == -(b * hi) && b * -lo == -(b * lo);
      FloorBounds(-a, b, -hi, -lo);
    }
  }

  // ----- variance -----

  /** `Duration.Seconds`. */
  function Seconds(d: int): real {
    d as real / 1_000_000_000.0
  }

  function Square(x: real): real {
    x * x
  }

  function SumBy(s: seq<int>, f: int -> real): real {
    if s == [] then 0.0 else SumBy(s[..|s| - 1], f) + f(s[|s| - 1])
  }

  /** The squared deviation of a sample from the mean. */
  function Deviation(mean: real): int -> real {
    d => Square(Seconds(d) - mean)
  }

  function SumOfSquares(s: seq<int>, mean: real): real {
    SumBy(s, Deviation(mean))
  }

  function Mean(s: seq<int>): real
    requires s != []
  {
    Seconds(Sum(s)) / |s| as real
  }

  /** The square of what `calculateStdDev` returns. */
  function Variance(s: seq<int>): real {
    if s == [] then 0.0 else SumOfSquares(s, Mean(s)) / |s| as real
  }

  lemma {:induction false} SumByInsert(s: seq<int>, x: int, f: int -> real)
    ensures SumBy(InsertSorted(s, x), f) == SumBy(s, f) + f(x)
  {
    if s == [] || s[|s| - 1] <= x {
      assert (s + [x])[..|s|] == s;
    } else {
      var n := |s| - 1;
      var r := InsertSorted(s[..n], x);
      SumByInsert(s[..n], x, f);
      assert (r + [s[n]])[..|r|] == r;
    }
  }

  lemma {:induction false} SumBySorted(s: seq<int>, f: int -> real)
    ensures SumBy(Sorted(s), f) == SumBy(s, f)
  {
    if s != [] {
      SumBySorted(s[..|s| - 1], f);
      SumByInsert(Sorted(s[..|s| - 1]), s[|s| - 1], f);
    }
  }

  lemma VarianceSorted(s: seq<int>)
    ensures Variance(Sorted(s)) == Variance(s)
  {
    SumSorted(s);
    if s != [] {
      SumBySorted(s, Deviation(Mean(s)));
    }
  }

  /** The variance does not depend on the order of the samples. */
  lemma VarianceIgnoresOrder(a: seq<int>, b: seq<int>)
    requires multiset(a) == multiset(b)
    ensures Variance(a) == Variance(b)
  {
    SortedPermutes(a);
    SortedPermutes(b);
    SortIsUnique(Sorted(a), Sorted(b));
    VarianceSorted(a);
    VarianceSorted(b);
  }

  lemma PositiveProduct(x: real, y: real) returns (p: real)
    requires x > 0.0 && y > 0.0
    ensures p == x * y && p > 0.0
  {
    p := x * y;
  }

  lemma IsSquare(x: real, p: real)
    requires p == x * x
    ensures Square(x) == p
  {
  }

  lemma SquarePositive(x: real) returns (p: real)
    requires x > 0.0
    ensures Square(x) == p && p > 0.0
  {
    p := PositiveProduct(x, x);
    IsSquare(x, p);
  }

  lemma SquareOfNegation(x: real)
    ensures Square(-x) == Square(x)
  {
  }

  lemma SquareSign(x: real)
    ensures Square(x) >= 0.0 && (Square(x) == 0.0 <==> x == 0.0)
  {
    if x > 0.0 {
      var p := SquarePositive(x);
    } else if x < 0.0 {
      SquareOfNegation(x);
      var p := SquarePositive(-x);
    } else {
      assert Square(0.0) == 0.0 * 0.0 == 0.0;
    }
  }

  lemma {:induction false} SquaresVanish(s: seq<int>, mean: real)
    ensures SumOfSquares(s, mean) >= 0.0
    ensures SumOfSquares(s, mean) == 0.0 <==> forall i | 0 <= i < |s| :: Seconds(s[i]) == mean
  {
    if s != [] {
      var n := |s| - 1;
      SquaresVanish(s[..n], mean);
      SquareSign(Seconds(s[n]) - mean);
      assert forall i | 0 <= i < n :: s[..n][i] == s[i];
      assert (forall i | 0 <= i < |s| :: Seconds(s[i]) == mean) <==>
        (forall i | 0 <= i < n :: Seconds(s[i]) == mean) && Seconds(s[n]) == mean;
    }
  }

  lemma {:induction false} ConstantSum(s: seq<int>, x: int)
    requires forall i | 0 <= i < |s| :: s[i] == x
    ensures Sum(s) == |s| * x
  {
    if s != [] {
      ConstantSum(s[..|s| - 1], x);
    }
  }

  lemma QuotientIsZero(x: real, n: nat)
    requires n > 0
    ensures x / n as real == 0.0 <==> x == 0.0
    ensures x >= 0.0 ==> x / n as real >= 0.0
  {
  }

  lemma MeanOfConstant(x: int, n: nat)
    requires n > 0
    ensures Seconds(n * x) / n as real == Seconds(x)
  {
    assert (n * x) as real == n as real * x as real;
  }

  /** The variance is never negative, and zero exactly when all samples are equal. */
  lemma VarianceZeroExactly(s: seq<int>)
    requires s != []
    ensures Variance(s) >= 0.0
    ensures Variance(s) == 0.0 <==> forall i | 0 <= i < |s| :: s[i] == s[0]
  {
    SquaresVanish(s, Mean(s));
    QuotientIsZero(SumOfSquares(s, Mean(s)), |s|);
    if forall i | 0 <= i < |s| :: s[i] == s[0] {
      ConstantSum(s, s[0]);
      MeanOfConstant(s[0], |s|);
    }
  }

  lemma SquareIdentity(t: real, mean: real, lo: real, hi: real)
    ensures Square(t - mean) + (hi - t) * (t - lo) == (hi - mean) * (mean - lo) + (hi + lo - 2.0 * mean) * (t - mean)
  {
  }

  lemma NonNegativeProduct(x: real, y: real)
    requires x >= 0.0 && y >= 0.0
    ensures x * y >= 0.0
  {
  }

  function Linear(c: real, d: real, x: real): real { c + d * x }

  lemma SquareBound(t: real, mean: real, lo: real, hi: real)
    requires lo <= t <= hi
    ensures Square(t - mean) <= Linear((hi - mean) * (mean - lo), hi + lo - 2.0 * mean, t - mean)
  {
    SquareIdentity(t, mean, lo, hi);
    NonNegativeProduct(hi - t, t - lo);
  }

  lemma SecondsMono(a: int, b: int)
    requires a <= b
    ensures Seconds(a) <= Seconds(b)
  {
  }

  lemma SampleBound(x: int, mean: real, lo: int, hi: int, c: real)
    requires lo <= x <= hi && c == (Seconds(hi) - mean) * (mean - Seconds(lo))
    ensures Square(Seconds(x) - mean) <= Linear(c, Seconds(hi) + Seconds(lo) - 2.0 * mean, Seconds(x) - mean)
  {
    SecondsMono(lo, x);
    SecondsMono(x, hi);
    SquareBound(Seconds(x), mean, Seconds(lo), Seconds(hi));
  }

  /** The sum over `n` samples of a bound that is linear in the deviation. */
  function LinearSum(n: real, c: real, d: real, sum: real, mean: real): real {
    n * c + d * (sum - n * mean)
  }

  lemma LinearSumStep(n: real, c: real, d: real, sum: real, t: real, mean: real)
    ensures LinearSum(n + 1.0, c, d, sum + t, mean) == LinearSum(n, c, d, sum, mean) + Linear(c, d, t - mean)
  {
  }

  lemma EmptyLinearSum(c: real, d: real, mean: real)
    ensures LinearSum(0.0, c, d, 0.0, mean) == 0.0
  {
  }

  lemma {:induction false} SquaresBound(s: seq<int>, mean: real, c: real, d: real)
    requires forall i | 0 <= i < |s| :: Square(Seconds(s[i]) - mean) <= Linear(c, d, Seconds(s[i]) - mean)
    ensures SumOfSquares(s, mean) <= LinearSum(|s| as real, c, d, Seconds(Sum(s)), mean)
  {
    hide Square, Linear, LinearSum;
    if s == [] {
      EmptyLinearSum(c, d, mean);
    } else {
      var n := |s| - 1;
      SquaresBound(s[..n], mean, c, d);
      LinearSumStep(n as real, c, d, Seconds(Sum(s[..n])), Seconds(s[n]), mean);
      assert Seconds(Sum(s)) == Seconds(Sum(s[..n])) + Seconds(s[n]);
    }
  }

  lemma RangeIdentity(mean: real, lo: real, hi: real)
    ensures Square(hi - lo) == 4.0 * ((hi - mean) * (mean - lo)) + Square(hi + lo - 2.0 * mean)
  {
  }

  lemma ProductBound(mean: real, lo: real, hi: real)
    ensures (hi - mean) * (mean - lo) <= Square(hi - lo) / 4.0
  {
    RangeIdentity(mean, lo, hi);
    SquareSign(hi + lo - 2.0 * mean);
  }

  lemma DivideBound(x: real, n: real, c: real)
    requires n > 0.0 && x <= n * c
    ensures x / n <= c
  {
    assert x / n * n == x;
  }

  lemma LinearSumAtMean(n: real, c: real, d: real, sum: real)
    requires n > 0.0
    ensures LinearSum(n, c, d, sum, sum / n) == n * c
  {
    assert n * (sum / n) == sum;
  }

  lemma SquaresAroundMean(s: seq<int>, mean: real, lo: int, hi: int, c: real)
    requires forall i | 0 <= i < |s| :: lo <= s[i] <= hi
    requires c == (Seconds(hi) - mean) * (mean - Seconds(lo))
    ensures SumOfSquares(s, mean) <=
      LinearSum(|s| as real, c, Seconds(hi) + Seconds(lo) - 2.0 * mean, Seconds(Sum(s)), mean)
  {
    hide Square, Linear, LinearSum, SumOfSquares;
    var d := Seconds(hi) + Seconds(lo) - 2.0 * mean;
    forall i | 0 <= i < |s|
      ensures Square(Seconds(s[i]) - mean) <= Linear(c, d, Seconds(s[i]) - mean)
    {
      SampleBound(s[i], mean, lo, hi, c);
    }
    SquaresBound(s, mean, c, d);
  }

  lemma VarianceAtMost(s: seq<int>, c: real, d: real)
    requires s != [] && SumOfSquares(s, Mean(s)) <= LinearSum(|s| as real, c, d, Seconds(Sum(s)), Mean(s))
    ensures Variance(s) <= c
  {
    LinearSumAtMean(|s| as real, c, d, Seconds(Sum(s)));
    DivideBound(SumOfSquares(s, Mean(s)), |s| as real, c);
  }

  /** Popoviciu's bound: the variance is at most a quarter of the squared range. */
  lemma VarianceBound(s: seq<int>, lo: int, hi: int)
    requires s != [] && forall i | 0 <= i < |s| :: lo <= s[i] <= hi
    ensures Variance(s) <= Square(Seconds(hi) - Seconds(lo)) / 4.0
  {
    var c := (Seconds(hi) - Mean(s)) * (Mean(s) - Seconds(lo));
    assert Variance(s) <= c by {
      SquaresAroundMean(s, Mean(s), lo, hi, c);
      VarianceAtMost(s, c, Seconds(hi) + Seconds(lo) - 2.0 * Mean(s));
    }
    assert c <= Square(Seconds(hi) - Seconds(lo)) / 4.0 by {
      ProductBound(Mean(s), Seconds(lo), Seconds(hi));
    }
  }

  /** The sum of the squared samples, in square nanoseconds. */
  function SumSquares(s: seq<int>): int {
    if s == [] then 0 else SumSquares(s[..|s| - 1]) + s[|s| - 1] * s[|s| - 1]
  }

  function Expanded(n: real, squares: real, sum: real, mean: real): real {
    squares - 2.0 * mean * sum + n * (mean * mean)
  }

  lemma ExpandedStep(n: real, squares: real, sum: real, t: real, mean: real)
    ensures Expanded(n + 1.0, squares + t * t, sum + t, mean) == Expanded(n, squares, sum, mean) + Square(t - mean)
  {
  }

  lemma SecondsSquared(x: int)
    ensures Seconds(x) * Seconds(x) == (x * x) as real / 1_000_000_000_000_000_000.0
  {
    assert (x * x) as real == x as real * x as real;
  }

  lemma {:induction false} SquaresExpand(s: seq<int>, mean: real)
    ensures SumOfSquares(s, mean) ==
      Expanded(|s| as real, SumSquares(s) as real / 1_000_000_000_000_000_000.0, Seconds(Sum(s)), mean)
  {
    hide Square;
    if s == [] {
      NothingExpands(mean);
    } else {
      var n := |s| - 1;
      var x := s[n];
      SquaresExpand(s[..n], mean);
      SecondsSquared(x);
      hide Expanded;
      ExpandedStep(n as real, SumSquares(s[..n]) as real / 1_000_000_000_000_000_000.0, Seconds(Sum(s[..n])),
        Seconds(x), mean);
      assert Seconds(Sum(s)) == Seconds(Sum(s[..n])) + Seconds(x);
    }
  }

  lemma NothingExpands(mean: real)
    ensures Expanded(0.0, 0.0, 0.0, mean) == 0.0
  {
  }

  lemma ExpandedAtMean(n: real, squares: real, sum: real)
    requires n > 0.0
    ensures n * n * (Expanded(n, squares, sum, sum / n) / n) == n * squares - sum * sum
  {
    var m := sum / n;
    assert n * m == sum;
    assert n * (Expanded(n, squares, sum, m) / n) == Expanded(n, squares, sum, m);
    assert n * Expanded(n, squares, sum, m) == n * squares - 2.0 * (n * m) * sum + (n * m) * (n * m);
  }

  lemma ScaleAway(n: real, v: real, squares: real, sum: real, scale: real)
    requires scale > 0.0 && n * n * v == n * (squares / (scale * scale)) - (sum / scale) * (sum / scale)
    ensures n * n * v * (scale * scale) == n * squares - sum * sum
  {
    assert squares / (scale * scale) * (scale * scale) == squares;
    assert (sum / scale) * scale == sum;
    assert (sum / scale) * (sum / scale) * (scale * scale) == ((sum / scale) * scale) * ((sum / scale) * scale);
    assert n * (squares / (scale * scale)) * (scale * scale) == n * (squares / (scale * scale) * (scale * scale));
  }

  lemma ASecond()
    ensures Seconds(1_000_000_000) == 1.0
  {
  }

  /**
    The exact value of the variance in square seconds, a second being 1000000000 of the samples'
    units: the sum of squares less the squared sum over their number, over that number again.
   */
  lemma VarianceExactly(s: seq<int>)
    requires s != []
    ensures |s| as real * |s| as real * Variance(s) * 1_000_000_000_000_000_000.0 ==
      |s| as real * SumSquares(s) as real - Sum(s) as real * Sum(s) as real
  {
    hide Expanded, SumOfSquares, Sum, SumSquares;
    var n := |s| as real;
    SquaresExpand(s, Mean(s));
    ExpandedAtMean(n, SumSquares(s) as real / 1_000_000_000_000_000_000.0, Seconds(Sum(s)));
    Rescaled(n, Variance(s), SumSquares(s) as real, Sum(s) as real);
  }

  lemma Rescaled(n: real, v: real, squares: real, sum: real)
    requires n * n * v == n * (squares / 1_000_000_000_000_000_000.0) -
      (sum / 1_000_000_000.0) * (sum / 1_000_000_000.0)
    ensures n * n * v * 1_000_000_000_000_000_000.0 == n * squares - sum * sum
  {
    ScaleAway(n, v, squares, sum, 1_000_000_000.0);
  }

  // ----- the report -----

  /** The index of the median: `len/2`. */
  function P50Index(n: nat): nat { n / 2 }

  /** `int(float64(len)*0.9)`, the float product taken exactly. */
  function P90Index(n: nat): nat { n * 9 / 10 }

  /** `int(float64(len)*0.99)`, likewise. */
  function P99Index(n: nat): nat { n * 99 / 100 }

  datatype Summary = Summary(average: int, p50: int, p90: int, p99: int)

  /** The figures reported for a nonempty histogram. */
  function Summarized(s: seq<int>): Summary
    requires s != []
  {
    var n := |s|;
    var t := Sorted(s);
    Summary(Quotient(Sum(s), n), t[P50Index(n)], t[P90Index(n)], t[P99Index(n)])
  }

  lemma SamplesInRange(s: seq<int>)
    requires s != []
    ensures var t := Sorted(s); |t| == |s| && forall i | 0 <= i < |s| :: t[0] <= s[i] <= t[|s| - 1]
  {
    var t := Sorted(s);
    SortedPermutes(s);
    forall i | 0 <= i < |s|
      ensures t[0] <= s[i] <= t[|s| - 1]
    {
      assert s[i] in multiset(s);
      assert s[i] in t;
    }
  }

  lemma AverageInRange(s: seq<int>)
    requires s != []
    ensures var t := Sorted(s); |t| == |s| && t[0] <= Summarized(s).average <= t[|s| - 1]
  {
    var t := Sorted(s);
    SortedPermutes(s);
    SumSorted(s);
    SumBounds(t, t[0], t[|s| - 1]);
    QuotientBounds(Sum(s), |s|, t[0], t[|s| - 1]);
  }

  /** The average is the quotient of sum and number, rounded toward zero. */
  predicate IsAverage(average: int, sum: int, n: nat) {
    if sum >= 0 then n * average <= sum < n * (average + 1) else n * (average - 1) < sum <= n * average
  }

  lemma FloorExactly(a: nat, n: nat)
    requires n > 0
    ensures n * (a / n) <= a < n * (a / n + 1)
  {
  }

  lemma Negated(n: int, q: int)
    ensures n * -q == -(n * q) && n * (-q - 1) == -(n * (q + 1))
  {
  }

  lemma QuotientExactly(a: int, n: nat)
    requires n > 0
    ensures IsAverage(Quotient(a, n), a, n)
  {
    if a >= 0 {
      FloorExactly(a, n);
    } else {
      FloorExactly(-a, n);
      Negated(n, -a / n);
    }
  }

  lemma AverageExactly(s: seq<int>)
    requires s != []
    ensures IsAverage(Summarized(s).average, Sum(s), |s|)
  {
    hide Quotient, IsAverage, Sum, Sorted;
    QuotientExactly(Sum(s), |s|);
  }

  lemma IndicesInOrder(n: nat)
    requires n > 0
    ensures 0 <= P50Index(n) <= P90Index(n) <= P99Index(n) < n
  {
  }

  lemma PercentilesInOrder(s: seq<int>)
    requires s != []
    ensures var t := Sorted(s); var r := Summarized(s); |t| == |s| && t[0] <= r.p50 <= r.p90 <= r.p99 <= t[|s| - 1]
  {
    hide P50Index, P90Index, P99Index;
    SortedPermutes(s);
    IndicesInOrder(|s|);
  }

  /**
    What the summary promises, whatever the order of the samples: the average lies between the
    least and the greatest, and the percentiles are in order between them.
   */
  lemma SummaryInOrder(s: seq<int>)
    requires s != []
    ensures var t := Sorted(s); var r := Summarized(s);
      && t[0] <= r.average <= t[|s| - 1]
      && t[0] <= r.p50 <= r.p90 <= r.p99 <= t[|s| - 1]
      && (forall i | 0 <= i < |s| :: t[0] <= s[i] <= t[|s| - 1])
  {
    hide Sorted, Summarized;
    SamplesInRange(s);
    AverageInRange(s);
    PercentilesInOrder(s);
  }

  /**
    What the percentiles mean: at most 50, 90 and 99 in a hundred samples are below them, and more
    than that are not above them.
   */
  lemma PercentileRanks(s: seq<int>)
    requires s != []
    ensures var r := Summarized(s); var n := |s|;
      && 100 * Count(s, Below(r.p50)) <= 50 * n < 100 * Count(s, UpTo(r.p50))
      && 100 * Count(s, Below(r.p90)) <= 90 * n < 100 * Count(s, UpTo(r.p90))
      && 100 * Count(s, Below(r.p99)) <= 99 * n < 100 * Count(s, UpTo(r.p99))
  {
    OrderStatistic(s, P50Index(|s|));
    OrderStatistic(s, P90Index(|s|));
    OrderStatistic(s, P99Index(|s|));
  }

  /** Nothing in the summary depends on the order of the samples. */
  lemma SummaryIgnoresOrder(a: seq<int>, b: seq<int>)
    requires a != [] && b != [] && multiset(a) == multiset(b)
    ensures Summarized(a) == Summarized(b)
  {
    SortedPermutes(a);
    SortedPermutes(b);
    SameSize(a, b);
    SortIsUnique(Sorted(a), Sorted(b));
    SumSorted(a);
    SumSorted(b);
  }

  /** The effect of the `sort.Slice` call; by `SortIsUnique` any sorting routine has it. */
  method SortSlice(a: array<int>)
    modifies a
    ensures a[..] == Sorted(old(a[..]))
  {
    var sorted := Sorted(a[..]);
    forall i | 0 <= i < a.Length {
      a[i] := sorted[i];
    }
  }

  /** `calculateStdDev` up to the final square root: the mean, then the squared deviations from it. */
  method CalculateVariance(latencies: array<int>) returns (variance: real)
    ensures variance == Variance(latencies[..])
  {
    if latencies.Length == 0 {
      return 0.0;
    }
    var total := SumLatencies(latencies);
    var mean := Seconds(total) / latencies.Length as real;
    variance := 0.0;
    for i := 0 to latencies.Length
      invariant variance == SumOfSquares(latencies[..i], mean)
    {
      var diff := Seconds(latencies[i]) - mean;
      assert latencies[..i + 1][..i] == latencies[..i];
      variance := variance + Square(diff);
    }
    assert latencies[..latencies.Length] == latencies[..];
    variance := variance / latencies.Length as real;
  }

  method SumLatencies(latencies: array<int>) returns (total: int)
    ensures total == Sum(latencies[..])
  {
    total := 0;
    for i := 0 to latencies.Length
      invariant total == Sum(latencies[..i])
    {
      assert latencies[..i + 1][..i] == latencies[..i];
      total := total + latencies[i];
    }
    assert latencies[..latencies.Length] == latencies[..];
  }

  class Report {
    var totalClients: int
    var messagesPerClient: int
    var totalMessages: int
    var successMessages: int
    var totalDuration: int
    var avgLatency: int
    var throughput: real
    var memoryUsed: nat
    var latencyHistogram: array<int>
    var variance: real
    var p50Latency: int
    var p90Latency: int
    var p99Latency: int

    /** `NewReport`: an empty histogram and zero figures. */
    constructor ()
      ensures latencyHistogram.Length == 0 && fresh(latencyHistogram)
      ensures totalClients == messagesPerClient == totalMessages == successMessages == totalDuration == 0
      ensures Summary(avgLatency, p50Latency, p90Latency, p99Latency) == Summary(0, 0, 0, 0)
    {
      totalClients, messagesPerClient, totalMessages, successMessages, totalDuration := 0, 0, 0, 0, 0;
      avgLatency, p50Latency, p90Latency, p99Latency := 0, 0, 0, 0;
      throughput, variance, memoryUsed := 0.0, 0.0, 0;
      latencyHistogram := new int[0];
    }

    /** The block for a nonempty histogram: average, sort, percentiles. */
    method Summarize()
      requires latencyHistogram.Length > 0
      modifies this`avgLatency, this`p50Latency, this`p90Latency, this`p99Latency, latencyHistogram
      ensures latencyHistogram[..] == Sorted(old(latencyHistogram[..]))
      ensures Summary(avgLatency, p50Latency, p90Latency, p99Latency) == Summarized(old(latencyHistogram[..]))
    {
      var n := latencyHistogram.Length;
      var totalLatency := SumLatencies(latencyHistogram);
      avgLatency := Quotient(totalLatency, n);
      SortSlice(latencyHistogram);
      p50Latency := latencyHistogram[..][P50Index(n)];
      p90Latency := latencyHistogram[..][P90Index(n)];
      p99Latency := latencyHistogram[..][P99Index(n)];
    }

    /** `Finalize`, given what the memory probe returned; an empty histogram leaves average and percentiles alone. */
    method Finalize(memory: nat)
      modifies this, latencyHistogram
      ensures latencyHistogram == old(latencyHistogram)
      ensures latencyHistogram[..] == Sorted(old(latencyHistogram[..]))
      ensures variance == Variance(old(latencyHistogram[..]))
      ensures Summary(avgLatency, p50Latency, p90Latency, p99Latency) ==
        if old(latencyHistogram.Length) > 0 then Summarized(old(latencyHistogram[..]))
        else old(Summary(avgLatency, p50Latency, p90Latency, p99Latency))
      ensures old(latencyHistogram.Length) > 0 ==>
        IsAverage(avgLatency, Sum(old(latencyHistogram[..])), old(latencyHistogram.Length))
      ensures totalMessages == old(totalClients) * old(messagesPerClient)
      ensures throughput ==
        if old(totalDuration) > 0 then old(successMessages) as real / Seconds(old(totalDuration)) else 0.0
      ensures memoryUsed == memory
      ensures totalClients == old(totalClients) && messagesPerClient == old(messagesPerClient)
      ensures successMessages == old(successMessages) && totalDuration == old(totalDuration)
    {
      hide Variance, Summarized, IsAverage, Sum, Sorted;
      if latencyHistogram.Length > 0 {
        AverageExactly(latencyHistogram[..]);
      }
      SetTotal();
      FinalizeLatencies();
      SetThroughput();
      memoryUsed := memory;
    }

    /** What `Finalize` does with the histogram. */
    method FinalizeLatencies()
      modifies this`avgLatency, this`p50Latency, this`p90Latency, this`p99Latency, this`variance, latencyHistogram
      ensures latencyHistogram[..] == Sorted(old(latencyHistogram[..]))
      ensures variance == Variance(old(latencyHistogram[..]))
      ensures Summary(avgLatency, p50Latency, p90Latency, p99Latency) ==
        if old(latencyHistogram.Length) > 0 then Summarized(old(latencyHistogram[..]))
        else old(Summary(avgLatency, p50Latency, p90Latency, p99Latency))
    {
      hide Variance, Summarized;
      ghost var samples := latencyHistogram[..];
      if latencyHistogram.Length > 0 {
        Summarize();
      }
      SetSpread(samples);
    }

    method SetTotal()
      modifies this`totalMessages
      ensures totalMessages == totalClients * messagesPerClient
    {
      totalMessages := totalClients * messagesPerClient;
    }

    /** The spread of the sorted histogram is that of the samples as they came. */
    method SetSpread(ghost samples: seq<int>)
      requires latencyHistogram[..] == Sorted(samples)
      modifies this`variance
      ensures variance == Variance(samples)
    {
      variance := CalculateVariance(latencyHistogram);
      VarianceSorted(samples);
    }

    /** Successes per second of a positive duration. */
    method SetThroughput()
      modifies this`throughput
      ensures throughput == if totalDuration > 0 then successMessages as real / Seconds(totalDuration) else 0.0
    {
      throughput := if Seconds(totalDuration) > 0.0 then successMessages as real / Seconds(totalDuration) else 0.0;
    }
  }
}

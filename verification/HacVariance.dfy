/** The lag-5 Bartlett-weighted variance of the paired daily differences, over exact reals.

    The estimator adds signed autocovariances, so nothing in its text says that it cannot come out
    negative; the program clamps it at zero before taking a square root. The results below show
    that the clamp is idle: the estimate is a sum of squares divided by a positive number. */
module HacVariance {

  /** The i-th value, with the list padded by zeros on both sides. */
  function At(x: seq<real>, i: int): real {
    if 0 <= i < |x| then x[i] else 0.0
  }

  function Product(x: seq<real>, i: int, j: int): real {
    At(x, i) * At(x, j)
  }

  /** The first m terms of the sum of products of the list with itself `lag` places earlier, the
      whole product being delayed by `delay` places. */
  ghost function Lagged(x: seq<real>, lag: nat, delay: nat, m: nat): real {
    if m == 0 then 0.0
    else Lagged(x, lag, delay, m - 1) + Product(x, m - 1 - delay, m - 1 - delay - lag)
  }

  /** The sum of the six consecutive values ending at j. */
  ghost function Window(x: seq<real>, j: int): real {
    At(x, j) + At(x, j - 1) + At(x, j - 2) + At(x, j - 3) + At(x, j - 4) + At(x, j - 5)
  }

  ghost function SquaredWindow(x: seq<real>, j: int): real {
    Window(x, j) * Window(x, j)
  }

  ghost function SquaredWindows(x: seq<real>, m: nat): real {
    if m == 0 then 0.0 else SquaredWindows(x, m - 1) + SquaredWindow(x, m - 1)
  }

  ghost function Sum(x: seq<real>): real {
    if x == [] then 0.0 else Sum(x[..|x| - 1]) + x[|x| - 1]
  }

  /** The autocovariance numerator at one lag. */
  ghost function Autocovariance(x: seq<real>, lag: nat): real {
    Lagged(x, lag, 0, |x|)
  }

  // ----- The six-wide windows -----

  lemma {:induction false} SquaredWindowsNonNegative(x: seq<real>, m: nat)
    ensures SquaredWindows(x, m) >= 0.0
  {
    if m > 0 {
      SquaredWindowsNonNegative(x, m - 1);
      SquareNonNegative(Window(x, m - 1));
    }
  }

  lemma SquareNonNegative(a: real)
    ensures a * a >= 0.0
  {
  }

  lemma SquareOfSix(a: real, b: real, c: real, d: real, e: real, f: real)
    ensures (a + b + c + d + e + f) * (a + b + c + d + e + f)
         == a * a + b * b + c * c + d * d + e * e + f * f
          + 2.0 * (a * b + b * c + c * d + d * e + e * f)
          + 2.0 * (a * c + b * d + c * e + d * f)
          + 2.0 * (a * d + b * e + c * f)
          + 2.0 * (a * e + b * f)
          + 2.0 * (a * f)
  {
  }

  lemma ExpandWindow(x: seq<real>, j: int)
    ensures SquaredWindow(x, j)
         == Product(x, j, j) + Product(x, j - 1, j - 1) + Product(x, j - 2, j - 2)
          + Product(x, j - 3, j - 3) + Product(x, j - 4, j - 4) + Product(x, j - 5, j - 5)
          + 2.0 * (Product(x, j, j - 1) + Product(x, j - 1, j - 2) + Product(x, j - 2, j - 3)
                   + Product(x, j - 3, j - 4) + Product(x, j - 4, j - 5))
          + 2.0 * (Product(x, j, j - 2) + Product(x, j - 1, j - 3) + Product(x, j - 2, j - 4) + Product(x, j - 3, j - 5))
          + 2.0 * (Product(x, j, j - 3) + Product(x, j - 1, j - 4) + Product(x, j - 2, j - 5))
          + 2.0 * (Product(x, j, j - 4) + Product(x, j - 1, j - 5))
          + 2.0 * Product(x, j, j - 5)
  {
    hide At;
    SquareOfSix(At(x, j), At(x, j - 1), At(x, j - 2), At(x, j - 3), At(x, j - 4), At(x, j - 5));
  }

  /** Multiplying out the squared windows leaves 6 - lag delayed copies of each lagged sum. */
  lemma {:induction false} ExpandWindows(x: seq<real>, m: nat)
    ensures SquaredWindows(x, m)
         == Lagged(x, 0, 0, m) + Lagged(x, 0, 1, m) + Lagged(x, 0, 2, m)
          + Lagged(x, 0, 3, m) + Lagged(x, 0, 4, m) + Lagged(x, 0, 5, m)
          + 2.0 * (Lagged(x, 1, 0, m) + Lagged(x, 1, 1, m) + Lagged(x, 1, 2, m)
                   + Lagged(x, 1, 3, m) + Lagged(x, 1, 4, m))
          + 2.0 * (Lagged(x, 2, 0, m) + Lagged(x, 2, 1, m) + Lagged(x, 2, 2, m) + Lagged(x, 2, 3, m))
          + 2.0 * (Lagged(x, 3, 0, m) + Lagged(x, 3, 1, m) + Lagged(x, 3, 2, m))
          + 2.0 * (Lagged(x, 4, 0, m) + Lagged(x, 4, 1, m))
          + 2.0 * Lagged(x, 5, 0, m)
  {
    hide Product, SquaredWindow, Lagged, SquaredWindows;
    if m == 0 {
      NothingLagged(x);
    } else {
      ExpandWindows(x, m - 1);
      ExpandWindow(x, m - 1);
      LaggedStep(x, m);
    }
  }

  lemma NothingLagged(x: seq<real>)
    ensures SquaredWindows(x, 0) == 0.0 && forall lag: nat, delay: nat :: Lagged(x, lag, delay, 0) == 0.0
  {
  }

  lemma LaggedStep(x: seq<real>, m: nat)
    requires m > 0
    ensures SquaredWindows(x, m) == SquaredWindows(x, m - 1) + SquaredWindow(x, m - 1)
    ensures forall lag: nat, delay: nat ::
      Lagged(x, lag, delay, m) == Lagged(x, lag, delay, m - 1) + Product(x, m - 1 - delay, m - 1 - delay - lag)
  {
  }

  /** Once the delay has run its course a delayed sum has collected the whole autocovariance. */
  lemma {:induction false} DelayIsHarmless(x: seq<real>, lag: nat, delay: nat, m: nat)
    requires |x| + delay <= m
    ensures Lagged(x, lag, delay, m) == Autocovariance(x, lag)
  {
    ShiftDelay(x, lag, delay, m);
    PaddingAddsNothing(x, lag, m - delay);
  }

  lemma {:induction false} ShiftDelay(x: seq<real>, lag: nat, delay: nat, m: nat)
    ensures Lagged(x, lag, delay, m) == if m <= delay then 0.0 else Lagged(x, lag, 0, m - delay)
  {
    if m > 0 {
      ShiftDelay(x, lag, delay, m - 1);
    }
  }

  lemma {:induction false} PaddingAddsNothing(x: seq<real>, lag: nat, m: nat)
    requires |x| <= m
    ensures Lagged(x, lag, 0, m) == Autocovariance(x, lag)
  {
    if |x| < m {
      PaddingAddsNothing(x, lag, m - 1);
    }
  }

  /** A lag that reaches past the whole list contributes nothing. */
  lemma {:induction false} LongLagVanishes(x: seq<real>, lag: nat, m: nat)
    requires m <= lag
    ensures Lagged(x, lag, 0, m) == 0.0
  {
    if m > 0 {
      LongLagVanishes(x, lag, m - 1);
    }
  }

  /** Main identity: the Bartlett-weighted sum of autocovariances is a sum of squared windows. */
  lemma BartlettIsSumOfSquares(x: seq<real>)
    ensures 6.0 * Autocovariance(x, 0) + 10.0 * Autocovariance(x, 1) + 8.0 * Autocovariance(x, 2)
          + 6.0 * Autocovariance(x, 3) + 4.0 * Autocovariance(x, 4) + 2.0 * Autocovariance(x, 5)
         == SquaredWindows(x, |x| + 5)
  {
    var m := |x| + 5;
    ExpandWindows(x, m);
    forall lag: nat, delay: nat | lag <= 5 && delay <= 5
      ensures Lagged(x, lag, delay, m) == Autocovariance(x, lag)
    {
      DelayIsHarmless(x, lag, delay, m);
    }
  }

  // ----- The estimator as the program computes it -----

  /** What the loop over lags has added once every lag up to `last` is in. */
  ghost function BartlettUpTo(x: seq<real>, last: nat): real
    requires |x| > 0
  {
    if last == 0 then
      Autocovariance(x, 0) / (|x| as real)
    else
      BartlettUpTo(x, last - 1) + 2.0 * (1.0 - (last as real) / 6.0) * Autocovariance(x, last) / (|x| as real)
  }

  /** Stopping at lag n - 1 instead of 5, as the program does on short lists, changes nothing. */
  lemma {:induction false} ShortListsLoseNothing(x: seq<real>, last: nat)
    requires 0 < |x| && last <= 5 && (last == 5 || |x| - 1 <= last)
    ensures BartlettUpTo(x, last) == BartlettUpTo(x, 5)
    decreases 5 - last
  {
    if last < 5 {
      LongLagVanishes(x, last + 1, |x|);
      assert BartlettUpTo(x, last + 1) == BartlettUpTo(x, last);
      ShortListsLoseNothing(x, last + 1);
    }
  }

  /** The variance of any non-empty list equals its squared windows over 6n. */
  lemma VarianceIsMeanOfSquares(x: seq<real>)
    requires |x| > 0
    ensures BartlettUpTo(x, 5) == SquaredWindows(x, |x| + 5) / (6.0 * |x| as real)
    ensures BartlettUpTo(x, 5) >= 0.0
  {
    var n := |x| as real;
    BartlettIsSumOfSquares(x);
    SquaredWindowsNonNegative(x, |x| + 5);
    assert BartlettUpTo(x, 0) == Autocovariance(x, 0) / n;
    WeightedTerm(x, 1);
    WeightedTerm(x, 2);
    WeightedTerm(x, 3);
    WeightedTerm(x, 4);
    WeightedTerm(x, 5);
    var total := SquaredWindows(x, |x| + 5);
    assert (Autocovariance(x, 0) / n) * (6.0 * n) == 6.0 * Autocovariance(x, 0);
    assert BartlettUpTo(x, 5) * (6.0 * n) == total;
    Quotient(BartlettUpTo(x, 5), total, 6.0 * n);
  }

  lemma WeightedTerm(x: seq<real>, lag: nat)
    requires |x| > 0 && 1 <= lag <= 5
    ensures BartlettUpTo(x, lag) * (6.0 * |x| as real)
         == BartlettUpTo(x, lag - 1) * (6.0 * |x| as real) + (12.0 - 2.0 * lag as real) * Autocovariance(x, lag)
  {
    hide Autocovariance;
    var n, a := |x| as real, Autocovariance(x, lag);
    var weight := 2.0 * (1.0 - (lag as real) / 6.0);
    assert BartlettUpTo(x, lag) == BartlettUpTo(x, lag - 1) + weight * a / n;
    assert (weight * a / n) * (6.0 * n) == weight * a * 6.0;
  }

  lemma Quotient(v: real, total: real, divisor: real)
    requires divisor > 0.0 && total >= 0.0 && v * divisor == total
    ensures v == total / divisor && v >= 0.0
  {
  }

  // ----- What the estimates are, whatever list they are computed from -----

  /** c holds the distances of x from the mean. */
  ghost predicate CenteredBy(c: seq<real>, x: seq<real>, mean: real) {
    |c| == |x| && forall i | 0 <= i < |x| :: c[i] + mean == x[i]
  }

  ghost function Times(n: nat, a: real): real {
    (n as real) * a
  }

  /** The mean, and the mean of the squared six-wide windows of the distances from it. */
  ghost predicate Estimated(x: seq<real>, mean: real, variance: real)
    requires x != []
  {
    && Times(|x|, mean) == Sum(x)
    && exists c :: CenteredBy(c, x, mean) && Times(6 * |x|, variance) == SquaredWindows(c, |x| + 5)
  }

  lemma TimesFacts(n: nat, a: real, b: real)
    ensures Times(n, a + b) == Times(n, a) + Times(n, b) && Times(n, 0.0) == 0.0
    ensures Times(n + 1, a) == Times(n, a) + a
  {
  }

  lemma SameTimes(n: nat, a: real, b: real)
    requires n > 0 && Times(n, a) == Times(n, b)
    ensures a == b
  {
  }

  lemma {:induction false} SumMoves(x: seq<real>, y: seq<real>, shift: real)
    requires |x| == |y| && forall i | 0 <= i < |x| :: y[i] == x[i] + shift
    ensures Sum(y) == Sum(x) + Times(|x|, shift)
  {
    if x != [] {
      var n := |x| - 1;
      SumMoves(x[..n], y[..n], shift);
      TimesFacts(n, shift, 0.0);
    }
  }

  lemma SameDistances(c: seq<real>, c': seq<real>, x: seq<real>, y: seq<real>, m: real, shift: real)
    requires |x| == |y| && forall i | 0 <= i < |x| :: y[i] == x[i] + shift
    requires CenteredBy(c, x, m) && CenteredBy(c', y, m + shift)
    ensures c == c'
  {
    forall i | 0 <= i < |c| ensures c[i] == c'[i] {
      assert c[i] + m == x[i] && c'[i] + (m + shift) == y[i];
    }
  }

  /** Adding one amount to every difference moves the mean by it and leaves the variance alone. */
  lemma VarianceIgnoresShift(x: seq<real>, y: seq<real>, shift: real, m: real, v: real, m': real, v': real)
    requires x != [] && |x| == |y| && forall i | 0 <= i < |x| :: y[i] == x[i] + shift
    requires Estimated(x, m, v) && Estimated(y, m', v')
    ensures m' == m + shift && v' == v
  {
    hide SquaredWindows, Sum, Times, CenteredBy;
    SumMoves(x, y, shift);
    TimesFacts(|x|, m, shift);
    SameTimes(|x|, m', m + shift);
    var c :| CenteredBy(c, x, m) && Times(6 * |x|, v) == SquaredWindows(c, |x| + 5);
    var c' :| CenteredBy(c', y, m') && Times(6 * |y|, v') == SquaredWindows(c', |y| + 5);
    SameDistances(c, c', x, y, m, shift);
    SameTimes(6 * |x|, v, v');
  }

  lemma {:induction false} NoWindows(c: seq<real>, m: nat)
    requires forall i | 0 <= i < |c| :: c[i] == 0.0
    ensures SquaredWindows(c, m) == 0.0
  {
    if m > 0 {
      NoWindows(c, m - 1);
    }
  }

  lemma {:induction false} SumOfZeros(x: seq<real>)
    requires forall i | 0 <= i < |x| :: x[i] == 0.0
    ensures Sum(x) == 0.0
  {
    if x != [] {
      SumOfZeros(x[..|x| - 1]);
    }
  }

  lemma NoDistances(c: seq<real>, x: seq<real>, mean: real)
    requires CenteredBy(c, x, mean) && forall i | 0 <= i < |x| :: x[i] == mean
    ensures forall i | 0 <= i < |c| :: c[i] == 0.0
  {
    forall i | 0 <= i < |c| ensures c[i] == 0.0 {
      assert c[i] + mean == x[i];
    }
  }

  /** Equal differences have their common value for mean, and no variance. */
  lemma EqualDifferencesDoNotVary(x: seq<real>, value: real, mean: real, variance: real)
    requires x != [] && (forall i | 0 <= i < |x| :: x[i] == value) && Estimated(x, mean, variance)
    ensures mean == value && variance == 0.0
  {
    hide SquaredWindows, Sum, Times, CenteredBy;
    var zeros := seq(|x|, _ => 0.0);
    SumOfZeros(zeros);
    SumMoves(zeros, x, value);
    SameTimes(|x|, mean, value);
    var c :| CenteredBy(c, x, mean) && Times(6 * |x|, variance) == SquaredWindows(c, |x| + 5);
    NoDistances(c, x, mean);
    NoWindows(c, |x| + 5);
    TimesFacts(6 * |x|, 0.0, 0.0);
    SameTimes(6 * |x|, variance, 0.0);
  }

  function Centered(x: seq<real>, mean: real): (c: seq<real>)
    ensures CenteredBy(c, x, mean)
  {
    seq(|x|, i requires 0 <= i < |x| => x[i] - mean)
  }

  method BartlettVariance(centered: seq<real>) returns (variance: real)
    requires centered != []
    ensures variance == BartlettUpTo(centered, 5)
  {
    hide Autocovariance;
    var n := |centered|;
    var squares := LaggedProducts(centered, 0);
    variance := squares / (n as real);
    var last := if n - 1 < 5 then n - 1 else 5;
    for lag := 1 to last + 1
      invariant variance == BartlettUpTo(centered, lag - 1)
    {
      var products := LaggedProducts(centered, lag);
      variance := variance + 2.0 * (1.0 - (lag as real) / 6.0) * products / (n as real);
    }
    ShortListsLoseNothing(centered, last);
  }

  lemma QuotientTimes(n: nat, total: real, divisor: real)
    requires n > 0 && divisor == n as real
    ensures Times(n, total / divisor) == total
  {
  }

  method PairedVariance(differences: seq<real>) returns (mean: real, variance: real, clamped: real)
    ensures differences == [] ==> mean == 0.0 && variance == 0.0
    ensures differences != [] ==> Estimated(differences, mean, variance)
    ensures variance >= 0.0 && clamped == variance
  {
    hide SquaredWindows, Centered, Sum, BartlettUpTo, Times;
    var n := |differences|;
    mean, variance := 0.0, 0.0;
    if n > 0 {
      var total := SumOf(differences);
      mean := total / (n as real);
      var centered := Centered(differences, mean);
      variance := BartlettVariance(centered);
      VarianceIsMeanOfSquares(centered);
      QuotientTimes(n, total, n as real);
      QuotientTimes(6 * n, SquaredWindows(centered, n + 5), 6.0 * n as real);
    }
    clamped := if variance < 0.0 then 0.0 else variance;
  }

  method SumOf(x: seq<real>) returns (total: real)
    ensures total == Sum(x)
  {
    total := 0.0;
    for i := 0 to |x|
      invariant total == Sum(x[..i])
    {
      assert x[..i + 1][..i] == x[..i];
      total := total + x[i];
    }
    assert x[..|x|] == x;
  }

  method LaggedProducts(x: seq<real>, lag: nat) returns (total: real)
    requires lag <= |x|
    ensures total == Autocovariance(x, lag)
  {
    total := 0.0;
    LongLagVanishes(x, lag, lag);
    for i := lag to |x|
      invariant total == Lagged(x, lag, 0, i)
    {
      total := total + x[i] * x[i - lag];
    }
  }
}

// Welch's two-sample t-test up to the degrees of freedom; the p-value and the
// verdict drawn from it are not modelled.
module Welch {
  import opened Reals
  import opened Statistics

  datatype TTestResult = TTestResult(t: real, df: int, meanDiff: real)

  // Variance with Bessel's correction.
  function SampleVariance(xs: seq<real>): (v: real)
    ensures v >= 0.0
  {
    SquaredDeviationsNonNegative(xs, Mean(xs));
    if |xs| < 2 then 0.0 else SquaredDeviations(xs, Mean(xs)) / (|xs| - 1) as real
  }

  // The squared standard error contributed by one sample.
  function ErrorTerm(xs: seq<real>): (e: real)
    requires |xs| >= 2
    ensures e >= 0.0
  {
    SampleVariance(xs) / |xs| as real
  }

  function Square(a: real): real {
    a * a
  }

  function SquareOver(a: real, m: real): real
    requires m > 0.0
  {
    Square(a) / m
  }

  // The Welch-Satterthwaite quotient, with one divisor less than each size.
  function WelchDf(a: real, b: real, m1: real, m2: real): real
    requires a >= 0.0 && b >= 0.0 && a + b > 0.0 && m1 > 0.0 && m2 > 0.0
  {
    SquareOverSign(a, m1);
    SquareOverSign(b, m2);
    Square(a + b) / (SquareOver(a, m1) + SquareOver(b, m2))
  }

  lemma SquareOverSign(a: real, m: real)
    requires a >= 0.0 && m > 0.0
    ensures SquareOver(a, m) >= 0.0 && (a > 0.0 ==> SquareOver(a, m) > 0.0)
  {
    SquareSign(a);
    QuotientSign(Square(a), m, SquareOver(a, m));
  }

  lemma SquareSign(a: real)
    ensures Square(a) >= 0.0 && (a > 0.0 ==> Square(a) > 0.0)
  {
    SquareNonNegative(a);
    if a > 0.0 {
      PositiveFactors(a, a, Square(a));
    }
  }

  lemma QuotientSign(n: real, m: real, q: real)
    requires n >= 0.0 && m > 0.0 && q == n / m
    ensures q >= 0.0 && (n > 0.0 ==> q > 0.0)
  {}

  method MeanOf(values: seq<real>) returns (m: real)
    ensures m == Mean(values)
  {
    if |values| == 0 {
      return 0.0;
    }
    var sum := AddUp(values);
    m := sum / |values| as real;
  }

  method VarianceOf(values: seq<real>, mean: real) returns (v: real)
    requires mean == Mean(values)
    ensures v == SampleVariance(values)
  {
    if |values| < 2 {
      return 0.0;
    }
    var sumSquares := AddUpSquares(values, mean);
    v := sumSquares / (|values| - 1) as real;
  }

  // The standard error, squared.
  function Error(s1: seq<real>, s2: seq<real>): (e: real)
    requires |s1| >= 2 && |s2| >= 2
    ensures e >= 0.0
  {
    ErrorTerm(s1) + ErrorTerm(s2)
  }

  predicate IsQuotient(t: real, d: real, s: real) {
    t * s == d
  }

  // The statistic reported for two samples of at least two values each.
  ghost predicate IsStatistic(r: TTestResult, s1: seq<real>, s2: seq<real>, sqrt: real -> real)
    requires |s1| >= 2 && |s2| >= 2
  {
    && r.meanDiff == Mean(s1) - Mean(s2)
    && if Error(s1, s2) > 0.0 then IsQuotient(r.t, r.meanDiff, sqrt(Error(s1, s2))) else r.t == 0.0
  }

  ghost predicate IsTTest(r: TTestResult, s1: seq<real>, s2: seq<real>, sqrt: real -> real)
    requires |s1| >= 2 && |s2| >= 2
  {
    && IsStatistic(r, s1, s2, sqrt)
    && r.df == if Error(s1, s2) > 0.0 then Df(s1, s2) else 0
  }

  // The truncated degrees of freedom, before the clamp to 1.
  function Df(s1: seq<real>, s2: seq<real>): int
    requires |s1| >= 2 && |s2| >= 2 && Error(s1, s2) > 0.0
  {
    WelchDf(ErrorTerm(s1), ErrorTerm(s2), (|s1| - 1) as real, (|s2| - 1) as real).Floor
  }

  // What the squared standard error of one mean is, and what df makes of two.
  predicate IsErrorOf(e: real, values: seq<real>)
    requires |values| >= 2
  {
    e * ((|values| - 1) * |values|) as real == SquaredDeviations(values, Mean(values))
  }

  // df is the largest integer not above (a + b)^2 / (a^2 / m1 + b^2 / m2).
  predicate IsWelchDf(df: int, a: real, b: real, m1: real, m2: real)
    requires m1 > 0.0 && m2 > 0.0
  {
    var spread := a * a / m1 + b * b / m2;
    df as real * spread <= (a + b) * (a + b) < (df + 1) as real * spread
  }

  // t^2 times the squared error is the squared difference, and t has its sign.
  predicate IsTOf(t: real, diff: real, squaredError: real) {
    && t * t * squaredError == diff * diff
    && (t > 0.0 <==> diff > 0.0) && (t < 0.0 <==> diff < 0.0)
  }

  // The test in terms of the two samples alone.
  ghost predicate MeansWelch(r: TTestResult, s1: seq<real>, s2: seq<real>)
    requires |s1| >= 2 && |s2| >= 2
  {
    && r.meanDiff == Mean(s1) - Mean(s2)
    && forall a, b :: IsErrorOf(a, s1) && IsErrorOf(b, s2) ==>
         if a + b > 0.0
         then IsTOf(r.t, r.meanDiff, a + b) && IsWelchDf(r.df, a, b, (|s1| - 1) as real, (|s2| - 1) as real)
         else r.t == 0.0 && r.df == 0
  }

  lemma ErrorTermIs(e: real, values: seq<real>)
    requires |values| >= 2
    ensures e == ErrorTerm(values) <==> IsErrorOf(e, values)
  {
    var d, m, n := SquaredDeviations(values, Mean(values)), (|values| - 1) as real, |values| as real;
    assert ((|values| - 1) * |values|) as real == m * n;
    DividedTwice(d, m, n, e);
  }

  lemma DividedTwice(d: real, m: real, n: real, e: real)
    requires m > 0.0 && n > 0.0
    ensures e == d / m / n <==> e * (m * n) == d
  {
    var f := d / m / n;
    QuotientTimes(d, m);
    QuotientTimes(d / m, n);
    assert f * (m * n) == (f * n) * m == d;
    if e * (m * n) == d {
      PositiveFactors(m, n, m * n);
      SameFactor(e, f, m * n);
    }
  }

  lemma SameFactor(x: real, y: real, f: real)
    requires f > 0.0 && x * f == y * f
    ensures x == y
  {
    assert (x - y) * f == 0.0;
    ZeroProduct(x - y, f);
  }

  lemma FloorOfQuotient(num: real, den: real, df: int)
    requires den > 0.0 && df == (num / den).Floor
    ensures df as real * den <= num < (df + 1) as real * den
  {
    QuotientTimes(num, den);
    Enclosed(num / den, den, num, df as real, (df + 1) as real);
  }

  lemma Enclosed(q: real, den: real, num: real, low: real, high: real)
    requires den > 0.0 && q * den == num && low <= q < high
    ensures low * den <= num < high * den
  {
    OrderTimes(low, q, den);
    OrderTimes(q, high, den);
  }

  lemma OrderTimes(x: real, y: real, f: real)
    requires f > 0.0
    ensures x <= y <==> x * f <= y * f
    ensures x < y <==> x * f < y * f
  {
    ScaleOrder(f, x, y);
  }

  lemma DfMeans(a: real, b: real, m1: real, m2: real)
    requires a >= 0.0 && b >= 0.0 && a + b > 0.0 && m1 > 0.0 && m2 > 0.0
    ensures IsWelchDf(WelchDf(a, b, m1, m2).Floor, a, b, m1, m2)
  {
    SquareOverSign(a, m1);
    SquareOverSign(b, m2);
    FloorOfQuotient(Square(a + b), SquareOver(a, m1) + SquareOver(b, m2), WelchDf(a, b, m1, m2).Floor);
  }

  lemma TMeans(t: real, diff: real, root: real, e: real)
    requires IsQuotient(t, diff, root) && IsRootOf(root, e) && e > 0.0
    ensures IsTOf(t, diff, e)
  {
    assert root != 0.0;
    assert t * t * (root * root) == (t * root) * (t * root);
    SignOfFactor(t, root);
  }

  lemma SignOfFactor(t: real, root: real)
    requires root > 0.0
    ensures (t > 0.0 <==> t * root > 0.0) && (t < 0.0 <==> t * root < 0.0)
  {
    ScaleOrder(root, 0.0, t);
    ScaleOrder(root, t, 0.0);
  }

  // The reported statistic and degrees of freedom are Welch's.
  lemma TTestMeans(r: TTestResult, s1: seq<real>, s2: seq<real>, sqrt: real -> real)
    requires |s1| >= 2 && |s2| >= 2 && IsSqrt(sqrt) && IsTTest(r, s1, s2, sqrt)
    ensures MeansWelch(r, s1, s2)
  {
    forall a, b | IsErrorOf(a, s1) && IsErrorOf(b, s2)
      ensures if a + b > 0.0
              then IsTOf(r.t, r.meanDiff, a + b) && IsWelchDf(r.df, a, b, (|s1| - 1) as real, (|s2| - 1) as real)
              else r.t == 0.0 && r.df == 0
    {
      ErrorTermIs(a, s1);
      ErrorTermIs(b, s2);
      assert a + b == Error(s1, s2);
      if a + b > 0.0 {
        TMeans(r.t, r.meanDiff, sqrt(a + b), a + b);
        DfMeans(a, b, (|s1| - 1) as real, (|s2| - 1) as real);
      }
    }
  }

  // sqrt stands for math.Sqrt. The clamp never changes df.
  method TwoSampleTTest(s1: seq<real>, s2: seq<real>, sqrt: real -> real) returns (r: TTestResult)
    requires IsSqrt(sqrt)
    ensures |s1| < 2 || |s2| < 2 ==> r == TTestResult(0.0, 0, 0.0)
    ensures |s1| >= 2 && |s2| >= 2 ==> IsTTest(r, s1, s2, sqrt) && MeansWelch(r, s1, s2)
  {
    if |s1| < 2 || |s2| < 2 {
      return TTestResult(0.0, 0, 0.0);
    }
    var mean1 := MeanOf(s1);
    var mean2 := MeanOf(s2);
    var a := TermOf(s1, mean1);
    var b := TermOf(s2, mean2);
    var se := sqrt(a + b);
    RootZero(sqrt, a + b);
    if se == 0.0 {
      r := TTestResult(0.0, 0, mean1 - mean2);
      TTestMeans(r, s1, s2, sqrt);
      return;
    }
    var t := Statistic(mean1 - mean2, se);
    var df := Quotient(a, b, (|s1| - 1) as real, (|s2| - 1) as real);
    DfBounds(s1, s2);
    if df < 1 {
      df := 1;
    }
    r := TTestResult(t, df, mean1 - mean2);
    TTestMeans(r, s1, s2, sqrt);
  }

  method TermOf(values: seq<real>, mean: real) returns (a: real)
    requires |values| >= 2 && mean == Mean(values)
    ensures a == ErrorTerm(values)
  {
    var variance := VarianceOf(values, mean);
    a := variance / |values| as real;
  }

  method Statistic(diff: real, se: real) returns (t: real)
    requires se != 0.0
    ensures IsQuotient(t, diff, se)
  {
    t := diff / se;
    QuotientTimes(diff, se);
  }

  method Quotient(a: real, b: real, m1: real, m2: real) returns (df: int)
    requires a >= 0.0 && b >= 0.0 && a + b > 0.0 && m1 > 0.0 && m2 > 0.0
    ensures df == WelchDf(a, b, m1, m2).Floor
  {
    SquareOverSign(a, m1);
    SquareOverSign(b, m2);
    var num := Square(a + b);
    var denom := SquareOver(a, m1) + SquareOver(b, m2);
    df := (num / denom).Floor;
  }

  lemma RootZero(sqrt: real -> real, v: real)
    requires IsSqrt(sqrt) && v >= 0.0
    ensures sqrt(v) == 0.0 <==> v == 0.0
  {
    if v == 0.0 {
      ZeroProduct(sqrt(v), sqrt(v));
    }
  }

  function Min(a: nat, b: nat): nat {
    if a <= b then a else b
  }

  // ---- The bounds ----

  // With a = m1 * x and b = m2 * y the quotient is (m1 x + m2 y)^2 over m1 x^2 + m2 y^2.
  lemma WelchUpper(m1: real, m2: real, x: real, y: real)
    requires m1 >= 0.0 && m2 >= 0.0
    ensures (m1 * x + m2 * y) * (m1 * x + m2 * y) <= (m1 + m2) * (m1 * (x * x) + m2 * (y * y))
  {
    var gap := m1 * m2 * ((x - y) * (x - y));
    SquareNonNegative(x - y);
    ProductNonNegative(m1, m2);
    ProductNonNegative(m1 * m2, (x - y) * (x - y));
    assert (m1 + m2) * (m1 * (x * x) + m2 * (y * y)) - (m1 * x + m2 * y) * (m1 * x + m2 * y) == gap;
  }

  lemma WelchLower(m1: real, m2: real, x: real, y: real, low: real)
    requires m1 >= low >= 0.0 && m2 >= low && x >= 0.0 && y >= 0.0
    ensures low * (m1 * (x * x) + m2 * (y * y)) <= (m1 * x + m2 * y) * (m1 * x + m2 * y)
  {
    var u, v := m1 * (x * x), m2 * (y * y);
    SquareNonNegative(x);
    SquareNonNegative(y);
    ProductNonNegative(m1, x * x);
    ProductNonNegative(m2, y * y);
    ProductNonNegative(m1 - low, u);
    ProductNonNegative(m2 - low, v);
    ProductNonNegative(m1, x);
    ProductNonNegative(m2, y);
    ProductNonNegative(m1 * x, m2 * y);
    Expand(m1, m2, x, y, u, v, low);
  }

  lemma Expand(m1: real, m2: real, x: real, y: real, u: real, v: real, low: real)
    requires u == m1 * (x * x) && v == m2 * (y * y)
    ensures (m1 * x + m2 * y) * (m1 * x + m2 * y) - low * (u + v)
         == (m1 - low) * u + (m2 - low) * v + 2.0 * ((m1 * x) * (m2 * y))
  {}

  lemma QuotientBounds(num: real, den: real, low: real, high: real)
    requires den > 0.0 && low * den <= num <= high * den
    ensures low <= num / den <= high
  {
    QuotientTimes(num, den);
    CancelFactor(low, num / den, den);
    CancelFactor(num / den, high, den);
  }

  lemma CancelFactor(x: real, y: real, den: real)
    requires den > 0.0 && x * den <= y * den
    ensures x <= y
  {
    if x > y {
      PositiveFactors(x - y, den, (x - y) * den);
    }
  }

  lemma SquareOverCount(a: real, m: real, x: real, z: real)
    requires m > 0.0 && a == m * x && z == m * (x * x)
    ensures SquareOver(a, m) == z
  {
    assert Square(a) == z * m;
    DivideOut(Square(a), m, z);
  }

  lemma DivideOut(n: real, m: real, z: real)
    requires m > 0.0 && n == z * m
    ensures n / m == z
  {
    QuotientTimes(n, m);
    CancelFactor(n / m, z, m);
    CancelFactor(z, n / m, m);
  }

  // The degrees of freedom lie between the smaller sample's and the pooled ones.
  lemma WelchDfBounds(a: real, b: real, m1: real, m2: real, low: real)
    requires a >= 0.0 && b >= 0.0 && a + b > 0.0 && m1 >= low > 0.0 && m2 >= low
    ensures low <= WelchDf(a, b, m1, m2) <= m1 + m2
  {
    QuotientTimes(a, m1);
    QuotientTimes(b, m2);
    QuotientSign(a, m1, a / m1);
    QuotientSign(b, m2, b / m2);
    WelchDfBoundsBy(a, b, m1, m2, low, a / m1, b / m2);
  }

  lemma WelchDfBoundsBy(a: real, b: real, m1: real, m2: real, low: real, x: real, y: real)
    requires a >= 0.0 && b >= 0.0 && a + b > 0.0 && m1 >= low > 0.0 && m2 >= low
    requires x >= 0.0 && y >= 0.0 && a == m1 * x && b == m2 * y
    ensures low <= WelchDf(a, b, m1, m2) <= m1 + m2
  {
    var u, v := m1 * (x * x), m2 * (y * y);
    SquareOverCount(a, m1, x, u);
    SquareOverCount(b, m2, y, v);
    SquareOverSign(a, m1);
    SquareOverSign(b, m2);
    var den := SquareOver(a, m1) + SquareOver(b, m2);
    WelchBothSides(m1, m2, x, y, low, a + b, den, m1 + m2);
    QuotientBounds(Square(a + b), den, low, m1 + m2);
  }

  lemma WelchBothSides(m1: real, m2: real, x: real, y: real, low: real, sum: real, den: real, high: real)
    requires m1 >= low > 0.0 && m2 >= low && x >= 0.0 && y >= 0.0 && high == m1 + m2
    requires sum == m1 * x + m2 * y && den == m1 * (x * x) + m2 * (y * y)
    ensures low * den <= Square(sum) <= high * den
  {
    WelchUpper(m1, m2, x, y);
    WelchLower(m1, m2, x, y, low);
    SameProduct(low, den, m1 * (x * x) + m2 * (y * y));
    SameProduct(high, den, m1 * (x * x) + m2 * (y * y));
    SameProduct(sum, sum, m1 * x + m2 * y);
    SameProduct(m1 * x + m2 * y, sum, m1 * x + m2 * y);
  }

  lemma SameProduct(f: real, d: real, e: real)
    requires d == e
    ensures f * d == f * e
  {}

  lemma DfBounds(s1: seq<real>, s2: seq<real>)
    requires |s1| >= 2 && |s2| >= 2 && Error(s1, s2) > 0.0
    ensures 1 <= Min(|s1|, |s2|) - 1 <= Df(s1, s2) <= |s1| + |s2| - 2
  {
    var low := Min(|s1|, |s2|) - 1;
    WelchDfBounds(ErrorTerm(s1), ErrorTerm(s2), (|s1| - 1) as real, (|s2| - 1) as real, low as real);
    FloorBounds(WelchDf(ErrorTerm(s1), ErrorTerm(s2), (|s1| - 1) as real, (|s2| - 1) as real),
                low, |s1| + |s2| - 2);
  }

  lemma FloorBounds(x: real, low: int, high: int)
    requires low as real <= x <= high as real
    ensures low <= x.Floor <= high
  {}

  // Exchanging the samples negates t and the mean difference and keeps df.
  lemma SwapSamples(s1: seq<real>, s2: seq<real>, sqrt: real -> real, r: TTestResult, q: TTestResult)
    requires |s1| >= 2 && |s2| >= 2 && IsSqrt(sqrt)
    requires IsTTest(r, s1, s2, sqrt) && IsTTest(q, s2, s1, sqrt)
    ensures q == TTestResult(-r.t, r.df, -r.meanDiff)
  {
    SwapStatistic(s1, s2, sqrt, r, q);
    if Error(s1, s2) > 0.0 {
      SwapDf(ErrorTerm(s1), ErrorTerm(s2), (|s1| - 1) as real, (|s2| - 1) as real);
    }
  }

  lemma SwapStatistic(s1: seq<real>, s2: seq<real>, sqrt: real -> real, r: TTestResult, q: TTestResult)
    requires |s1| >= 2 && |s2| >= 2 && IsSqrt(sqrt)
    requires IsStatistic(r, s1, s2, sqrt) && IsStatistic(q, s2, s1, sqrt)
    ensures Error(s2, s1) == Error(s1, s2)
    ensures q.t == -r.t && q.meanDiff == -r.meanDiff
  {
    assert Error(s2, s1) == Error(s1, s2);
    if Error(s1, s2) > 0.0 {
      RootZero(sqrt, Error(s1, s2));
      NegatedFactor(q.t, r.t, sqrt(Error(s1, s2)), r.meanDiff);
    }
  }

  lemma NegatedFactor(x: real, y: real, s: real, d: real)
    requires s != 0.0 && IsQuotient(x, -d, s) && IsQuotient(y, d, s)
    ensures x == -y
  {
    assert (x + y) * s == 0.0;
    ZeroProduct(x + y, s);
  }

  lemma SwapDf(a: real, b: real, m1: real, m2: real)
    requires a >= 0.0 && b >= 0.0 && a + b > 0.0 && m1 > 0.0 && m2 > 0.0
    ensures WelchDf(b, a, m2, m1) == WelchDf(a, b, m1, m2)
  {
    assert b + a == a + b;
  }
}

/** Distribution statistics over exact reals: mean, variance, extremes and skewness of
    packet sizes and gaps, and the gaps themselves. Square roots are left to the
    caller: variances stand for standard deviations, and the skewness is given by the
    two central moments it is the quotient of. */
module Moments {
  import opened RealFacts

  function Sum(xs: seq<real>): real {
    if xs == [] then 0.0 else Sum(xs[..|xs| - 1]) + xs[|xs| - 1]
  }

  function Mean(xs: seq<real>): real
    requires xs != []
  {
    Sum(xs) / (|xs| as real)
  }

  /** Sums of squared and of cubed deviations from `c`. */
  function Squares(xs: seq<real>, c: real): (s: real)
    ensures s >= 0.0
  {
    if xs == [] then 0.0
    else Squares(xs[..|xs| - 1], c) + Sq(xs[|xs| - 1] - c)
  }

  function Cubes(xs: seq<real>, c: real): real {
    if xs == [] then 0.0
    else Cubes(xs[..|xs| - 1], c) + Cube(xs[|xs| - 1] - c)
  }

  /** The population variance, `np.var`. */
  function Variance(xs: seq<real>): real
    requires xs != []
  {
    Squares(xs, Mean(xs)) / (|xs| as real)
  }

  /** The variance with Bessel's correction, `np.var` with `ddof=1`. */
  function SampleVariance(xs: seq<real>): real
    requires |xs| >= 2
  {
    Squares(xs, Mean(xs)) / (|xs| as real - 1.0)
  }

  function ThirdMoment(xs: seq<real>): real
    requires xs != []
  {
    Cubes(xs, Mean(xs)) / (|xs| as real)
  }

  function Least(xs: seq<real>): (m: real)
    requires xs != []
    ensures m in xs && forall i :: 0 <= i < |xs| ==> m <= xs[i]
  {
    var n := |xs| - 1;
    if n == 0 then xs[0]
    else
      var m := Least(xs[..n]);
      assert forall i :: 0 <= i < n ==> xs[..n][i] == xs[i];
      if xs[n] < m then xs[n] else m
  }

  function Greatest(xs: seq<real>): (m: real)
    requires xs != []
    ensures m in xs && forall i :: 0 <= i < |xs| ==> xs[i] <= m
  {
    var n := |xs| - 1;
    if n == 0 then xs[0]
    else
      var m := Greatest(xs[..n]);
      assert forall i :: 0 <= i < n ==> xs[..n][i] == xs[i];
      if xs[n] > m then xs[n] else m
  }

  /** `sampleVariance` is the square of the reported standard deviation; the reported
      skewness is `m3 / m2^1.5` when `skewed` and 0 otherwise. */
  datatype Stats = Stats(
    mean: real, sampleVariance: real, least: real, greatest: real,
    m2: real, m3: real, skewed: bool)

  function DistributionStats(values: seq<real>): Stats {
    if values == [] then Stats(0.0, 0.0, 0.0, 0.0, 0.0, 0.0, false)
    else if |values| < 2 then
      Stats(Mean(values), 0.0, Least(values), Greatest(values), 0.0, 0.0, false)
    else
      Stats(Mean(values), SampleVariance(values), Least(values), Greatest(values),
            Variance(values), ThirdMoment(values), Variance(values) > 0.000001)
  }

  // -------------------------------------------------------------- mean and variance

  lemma {:induction false} SumBetween(xs: seq<real>, lo: real, hi: real)
    requires forall i :: 0 <= i < |xs| ==> lo <= xs[i] <= hi
    ensures lo * |xs| as real <= Sum(xs) <= hi * |xs| as real
  {
    if xs != [] {
      SumBetween(xs[..|xs| - 1], lo, hi);
    }
  }

  lemma {:induction false} MeanBetween(xs: seq<real>)
    requires xs != []
    ensures Least(xs) <= Mean(xs) <= Greatest(xs)
  {
    SumBetween(xs, Least(xs), Greatest(xs));
    QuotientBetween(Sum(xs), |xs| as real, Least(xs), Greatest(xs));
  }

  /** (hi - x)(x - lo), summed. */
  function Gaps(xs: seq<real>, lo: real, hi: real): real {
    if xs == [] then 0.0
    else
      var x := xs[|xs| - 1];
      Gaps(xs[..|xs| - 1], lo, hi) + (hi - x) * (x - lo)
  }

  lemma {:induction false} GapsNonNegative(xs: seq<real>, lo: real, hi: real)
    requires forall i :: 0 <= i < |xs| ==> lo <= xs[i] <= hi
    ensures Gaps(xs, lo, hi) >= 0.0
  {
    if xs != [] {
      var x := xs[|xs| - 1];
      GapsNonNegative(xs[..|xs| - 1], lo, hi);
      ProductNonNegative(hi - x, x - lo);
    }
  }

  function Deviations(xs: seq<real>, c: real): real {
    if xs == [] then 0.0 else Deviations(xs[..|xs| - 1], c) + (xs[|xs| - 1] - c)
  }

  lemma {:induction false} DeviationsIs(xs: seq<real>, c: real)
    ensures Deviations(xs, c) == Sum(xs) - (|xs| as real) * c
  {
    if xs != [] {
      DeviationsIs(xs[..|xs| - 1], c);
    }
  }

  lemma GapAt(x: real, c: real, lo: real, hi: real, a: real, b: real)
    requires a == (hi - c) * (c - lo) && b == hi + lo - 2.0 * c
    ensures (hi - x) * (x - lo) == a + b * (x - c) - Sq(x - c)
  {
    GapAround(x, c, lo, hi);
  }

  lemma GapsStep(n: real, m: real, a: real, b: real, dev: real, devs: real, d: real, g: real, sq: real,
                 gap: real, dd: real)
    requires m == n + 1.0 && devs == dev + d
    requires g == n * a + b * dev - sq && gap == a + b * d - dd
    ensures g + gap == m * a + b * devs - (sq + dd)
  {
    assert m * a == n * a + a;
    assert b * devs == b * dev + b * d;
  }

  lemma {:induction false} GapsIdentity(xs: seq<real>, c: real, lo: real, hi: real, a: real, b: real)
    requires a == (hi - c) * (c - lo) && b == hi + lo - 2.0 * c
    ensures Gaps(xs, lo, hi) == (|xs| as real) * a + b * Deviations(xs, c) - Squares(xs, c)
  {
    if xs != [] {
      var init, x := xs[..|xs| - 1], xs[|xs| - 1];
      GapsIdentity(init, c, lo, hi, a, b);
      GapAt(x, c, lo, hi, a, b);
      var g, sq := Gaps(init, lo, hi), Squares(init, c);
      GapsStep(|init| as real, |xs| as real, a, b, Deviations(init, c), Deviations(xs, c), x - c, g, sq,
               (hi - x) * (x - lo), Sq(x - c));
    }
  }

  lemma {:induction false} MeanDeviations(xs: seq<real>)
    requires xs != []
    ensures Deviations(xs, Mean(xs)) == 0.0
  {
    Quotient(Sum(xs), |xs| as real);
    DeviationsIs(xs, Mean(xs));
  }

  lemma {:induction false} SpreadAround(xs: seq<real>, c: real, lo: real, hi: real, a: real)
    requires Deviations(xs, c) == 0.0 && a == (hi - c) * (c - lo)
    requires forall i :: 0 <= i < |xs| ==> lo <= xs[i] <= hi
    ensures Squares(xs, c) <= a * |xs| as real
  {
    GapsNonNegative(xs, lo, hi);
    GapsIdentity(xs, c, lo, hi, a, hi + lo - 2.0 * c);
  }

  lemma {:induction false} VarianceIs(xs: seq<real>, c: real)
    requires xs != [] && c == Mean(xs)
    ensures Variance(xs) == Squares(xs, c) / (|xs| as real)
  {
  }

  lemma {:induction false} VarianceWithin(xs: seq<real>, c: real, lo: real, hi: real, a: real)
    requires xs != [] && c == Mean(xs)
    requires Deviations(xs, c) == 0.0 && a == (hi - c) * (c - lo)
    requires forall i :: 0 <= i < |xs| ==> lo <= xs[i] <= hi
    ensures 0.0 <= Variance(xs) <= a
  {
    SpreadAround(xs, c, lo, hi, a);
    VarianceIs(xs, c);
    QuotientWithin(Variance(xs), Squares(xs, c), |xs| as real, a);
  }

  /** The variance never exceeds (max - mean)(mean - min). */
  lemma {:induction false} VarianceBound(xs: seq<real>, c: real, lo: real, hi: real)
    requires xs != [] && c == Mean(xs) && lo == Least(xs) && hi == Greatest(xs)
    ensures 0.0 <= Variance(xs) <= (hi - c) * (c - lo)
  {
    MeanDeviations(xs);
    VarianceWithin(xs, c, lo, hi, (hi - c) * (c - lo));
  }

  /** Hence it never exceeds a quarter of the squared range. */
  lemma {:induction false} VarianceWithinRange(xs: seq<real>, c: real, lo: real, hi: real)
    requires xs != [] && c == Mean(xs) && lo == Least(xs) && hi == Greatest(xs)
    ensures 4.0 * Variance(xs) <= Sq(hi - lo)
  {
    VarianceBound(xs, c, lo, hi);
    RangeAlgebra(hi, c, lo, Variance(xs));
  }

  lemma RangeAlgebra(hi: real, c: real, lo: real, v: real)
    requires v <= (hi - c) * (c - lo)
    ensures 4.0 * v <= Sq(hi - lo)
  {
    ArithmeticGeometric(hi - c, c - lo);
    assert (hi - c) + (c - lo) == hi - lo;
  }

  // ---------------------------------------------------------------------- skewness

  lemma {:induction false} CubesBound(xs: seq<real>, c: real)
    ensures Sq(Cubes(xs, c)) <= Cube(Squares(xs, c))
  {
    if xs != [] {
      var init := xs[..|xs| - 1];
      CubesBound(init, c);
      CubesStep(Cubes(init, c), Squares(init, c), xs[|xs| - 1] - c, Cubes(xs, c), Squares(xs, c));
    }
  }

  lemma {:induction false} MomentsTimesCount(xs: seq<real>, c: real)
    requires xs != [] && c == Mean(xs)
    ensures Variance(xs) * (|xs| as real) == Squares(xs, c)
    ensures ThirdMoment(xs) * (|xs| as real) == Cubes(xs, c)
  {
    Quotient(Squares(xs, c), |xs| as real);
    Quotient(Cubes(xs, c), |xs| as real);
  }

  lemma ThirdMomentBound(xs: seq<real>, c: real)
    requires xs != [] && c == Mean(xs)
    ensures Sq(ThirdMoment(xs)) <= (|xs| as real) * Cube(Variance(xs))
  {
    CubesBound(xs, c);
    MomentsTimesCount(xs, c);
    SkewAlgebra(|xs| as real, Cubes(xs, c), Squares(xs, c), Variance(xs), ThirdMoment(xs));
  }

  lemma SkewnessAtMost(n: real, m2: real, m3: real)
    requires Sq(m3) <= n * Cube(m2)
    ensures m2 > 0.0 ==> Sq(m3) / Cube(m2) <= n
  {
    if m2 > 0.0 {
      RatioBelow(Sq(m3), Cube(m2), n);
    }
  }

  /** The reported moments: m3^2 <= n * m2^3, so the squared skewness is at most n. */
  lemma SkewnessBound(xs: seq<real>, st: Stats)
    requires |xs| >= 2 && st == DistributionStats(xs)
    ensures Sq(st.m3) <= (|xs| as real) * Cube(st.m2)
    ensures st.skewed ==> Sq(st.m3) / Cube(st.m2) <= |xs| as real
  {
    ThirdMomentBound(xs, Mean(xs));
    SkewnessAtMost(|xs| as real, st.m2, st.m3);
  }

  // ------------------------------------------------------------------- power sums

  /** The sums of the squares and of the cubes of the values themselves. */
  function SquareSum(xs: seq<real>): real {
    if xs == [] then 0.0 else SquareSum(xs[..|xs| - 1]) + Sq(xs[|xs| - 1])
  }

  function CubeSum(xs: seq<real>): real {
    if xs == [] then 0.0 else CubeSum(xs[..|xs| - 1]) + Cube(xs[|xs| - 1])
  }

  lemma {:induction false} SquaresFromPowers(xs: seq<real>, c: real)
    ensures Squares(xs, c) == SquareSum(xs) - 2.0 * Mul(c, Sum(xs)) + Mul(|xs| as real, Sq(c))
  {
    if xs != [] {
      var init, x := xs[..|xs| - 1], xs[|xs| - 1];
      SquaresFromPowers(init, c);
      SqOfDifference(x, c);
      MulSum(c, Sum(init), x);
      MulSum(Sq(c), |init| as real, 1.0);
      assert x * c == Mul(c, x);
    }
  }

  lemma MulSum(c: real, a: real, b: real)
    ensures Mul(c, a + b) == Mul(c, a) + Mul(c, b) && Mul(a + b, c) == Mul(a, c) + Mul(b, c)
  {
  }

  lemma CubeOfDifference(x: real, c: real)
    ensures Cube(x - c) == Cube(x) - 3.0 * Mul(c, Sq(x)) + 3.0 * Mul(Sq(c), x) - Cube(c)
  {
    CubeOfSum(x, -c);
    assert Sq(-c) == Sq(c) && Cube(-c) == -Cube(c);
    assert Sq(x) * (-c) == -Mul(c, Sq(x)) && x * Sq(c) == Mul(Sq(c), x);
  }

  lemma {:induction false} CubesFromPowers(xs: seq<real>, c: real)
    ensures Cubes(xs, c) == CubeSum(xs) - 3.0 * Mul(c, SquareSum(xs)) + 3.0 * Mul(Sq(c), Sum(xs))
                            - Mul(|xs| as real, Cube(c))
  {
    if xs != [] {
      var init, x := xs[..|xs| - 1], xs[|xs| - 1];
      CubesFromPowers(init, c);
      CubeOfDifference(x, c);
      MulSum(c, SquareSum(init), Sq(x));
      MulSum(Sq(c), Sum(init), x);
      MulSum(Cube(c), |init| as real, 1.0);
    }
  }

  /** What the reported statistics are, without deviations: with the sums s1, s2, s3 of the
      values, their squares and their cubes, n m = s1, n m2 = (n - 1) s^2 = s2 - n m^2 and
      n m3 = s3 - 3 m s2 + 2 n m^3; skewness is reported from 1e-6 of m2 on. */
  lemma {:induction false} StatsFromPowers(xs: seq<real>, n: real, st: Stats)
    requires |xs| >= 2 && n == |xs| as real && st == DistributionStats(xs)
    ensures Mul(n, st.mean) == Sum(xs)
    ensures Mul(n, st.m2) == SquareSum(xs) - Mul(n, Sq(st.mean))
    ensures Mul(n - 1.0, st.sampleVariance) == SquareSum(xs) - Mul(n, Sq(st.mean))
    ensures Mul(n, st.m3) == CubeSum(xs) - 3.0 * Mul(st.mean, SquareSum(xs)) + 2.0 * Mul(n, Cube(st.mean))
    ensures st.skewed <==> st.m2 > 0.000001
  {
    var c := Mean(xs);
    MeanTimesCount(xs, n, c);
    SampleVarianceTimes(xs, n, c);
    SquaresAroundMean(xs, n, c);
    CubesAroundMean(xs, n, c);
    MomentsTimes(xs, n, c, st.m2, st.m3);
  }

  lemma {:induction false} MomentsTimes(xs: seq<real>, n: real, c: real, m2: real, m3: real)
    requires xs != [] && n == |xs| as real && c == Mean(xs) && m2 == Variance(xs) && m3 == ThirdMoment(xs)
    ensures Mul(n, m2) == Squares(xs, c) && Mul(n, m3) == Cubes(xs, c)
  {
    MomentsTimesCount(xs, c);
    SameProducts(n, m2, Squares(xs, c), m3, Cubes(xs, c));
  }

  lemma {:induction false} SquaresAroundMean(xs: seq<real>, n: real, c: real)
    requires xs != [] && n == |xs| as real && c == Mean(xs)
    ensures Squares(xs, c) == SquareSum(xs) - Mul(n, Sq(c))
  {
    MeanTimesCount(xs, n, c);
    SquaresFromPowers(xs, c);
    AroundMean(n, c, Sum(xs));
  }

  lemma {:induction false} CubesAroundMean(xs: seq<real>, n: real, c: real)
    requires xs != [] && n == |xs| as real && c == Mean(xs)
    ensures Cubes(xs, c) == CubeSum(xs) - 3.0 * Mul(c, SquareSum(xs)) + 2.0 * Mul(n, Cube(c))
  {
    MeanTimesCount(xs, n, c);
    CubesFromPowers(xs, c);
    AroundMean(n, c, Sum(xs));
  }

  lemma {:induction false} MeanTimesCount(xs: seq<real>, n: real, c: real)
    requires xs != [] && n == |xs| as real && c == Mean(xs)
    ensures Mul(n, c) == Sum(xs)
  {
    Quotient(Sum(xs), n);
  }

  lemma {:induction false} SampleVarianceTimes(xs: seq<real>, n: real, c: real)
    requires |xs| >= 2 && n == |xs| as real && c == Mean(xs)
    ensures Mul(n - 1.0, SampleVariance(xs)) == Squares(xs, c)
  {
    Quotient(Squares(xs, c), n - 1.0);
  }

  lemma SameProducts(n: real, v: real, sq: real, m: real, cu: real)
    requires v * n == sq && m * n == cu
    ensures Mul(n, v) == sq && Mul(n, m) == cu
  {
  }

  lemma AroundMean(n: real, c: real, s: real)
    requires s == Mul(n, c)
    ensures Mul(c, s) == Mul(n, Sq(c)) && Mul(Sq(c), s) == Mul(n, Cube(c))
  {
    assert c * (n * c) == n * (c * c);
    assert Sq(c) * (n * c) == n * (c * Sq(c));
  }

  /** Of no value all are 0, and of one value all but mean and extremes, which are it. */
  lemma StatsOfFew(xs: seq<real>)
    ensures DistributionStats([]) == Stats(0.0, 0.0, 0.0, 0.0, 0.0, 0.0, false)
    ensures |xs| == 1 ==> DistributionStats(xs) == Stats(xs[0], 0.0, xs[0], xs[0], 0.0, 0.0, false)
  {
    if |xs| == 1 {
      SingleValue(xs);
    }
  }

  lemma SampleVarianceAbove(xs: seq<real>)
    requires |xs| >= 2
    ensures Variance(xs) <= SampleVariance(xs)
  {
    SampleDivisor(|xs| as real, Squares(xs, Mean(xs)));
  }

  lemma {:induction false} SingleValue(xs: seq<real>)
    requires |xs| == 1
    ensures Least(xs) == Greatest(xs) == Mean(xs)
  {
    assert Sum(xs) == Sum(xs[..0]) + xs[0];
  }

  /** What statistics of a non-empty list must say about one another. */
  ghost predicate Consistent(st: Stats) {
    && st.least <= st.mean <= st.greatest
    && 0.0 <= st.m2 <= (st.greatest - st.mean) * (st.mean - st.least)
    && st.m2 <= st.sampleVariance
    && (st.least == st.greatest ==> st.m2 == 0.0)
  }

  lemma {:induction false} StatsOfMany(xs: seq<real>, c: real, lo: real, hi: real, m3: real, skewed: bool)
    requires |xs| >= 2 && c == Mean(xs) && lo == Least(xs) && hi == Greatest(xs)
    ensures Consistent(Stats(c, SampleVariance(xs), lo, hi, Variance(xs), m3, skewed))
  {
    MeanBetween(xs);
    VarianceBound(xs, c, lo, hi);
    SampleVarianceAbove(xs);
    ConsistentFields(c, SampleVariance(xs), lo, hi, Variance(xs), m3, skewed);
  }

  lemma ConsistentFields(c: real, sv: real, lo: real, hi: real, v: real, m3: real, skewed: bool)
    requires lo <= c <= hi && 0.0 <= v <= (hi - c) * (c - lo) && v <= sv
    ensures Consistent(Stats(c, sv, lo, hi, v, m3, skewed))
  {
    NoRangeNoVariance(hi, c, lo, v);
  }

  lemma StatsOfOne(x: real, st: Stats)
    requires st.least == st.mean == st.greatest == x && st.m2 == 0.0 == st.sampleVariance
    ensures Consistent(st)
  {
    ProductNonNegative(st.greatest - st.mean, st.mean - st.least);
  }

  /** The reported statistics of every non-empty list are consistent: the mean lies
      between the extremes, the variance is at most (max - mean)(mean - min) and at most
      the reported one, and it vanishes with the range. */
  lemma StatsAreConsistent(xs: seq<real>)
    requires xs != []
    ensures Consistent(DistributionStats(xs))
  {
    var st := DistributionStats(xs);
    if |xs| >= 2 {
      StatsOfMany(xs, Mean(xs), Least(xs), Greatest(xs), st.m3, st.skewed);
    } else {
      SingleValue(xs);
      StatsOfOne(st.mean, st);
    }
  }

  lemma NoRangeNoVariance(hi: real, c: real, lo: real, v: real)
    requires lo <= c <= hi && 0.0 <= v <= (hi - c) * (c - lo)
    ensures lo == hi ==> v == 0.0
  {
    assert lo == hi ==> hi - c == 0.0;
  }

  // -------------------------------------------------------------------------- gaps

  /** Milliseconds between two time stamps, never negative. */
  function GapMs(earlier: real, later: real): real {
    var delta := (later - earlier) * 1000.0;
    if delta > 0.0 then delta else 0.0
  }

  function InterArrivals(ts: seq<real>): (gaps: seq<real>)
    ensures |gaps| == if |ts| == 0 then 0 else |ts| - 1
    ensures forall i :: 0 <= i < |gaps| ==> gaps[i] >= 0.0
  {
    if |ts| < 2 then []
    else
      var n := |ts| - 1;
      InterArrivals(ts[..n]) + [GapMs(ts[n - 1], ts[n])]
  }

  /** Each gap belongs to two neighbours. */
  lemma {:induction false} GapBetween(ts: seq<real>, i: nat)
    requires i + 1 < |ts|
    ensures InterArrivals(ts)[i] == if ts[i + 1] > ts[i] then (ts[i + 1] - ts[i]) * 1000.0 else 0.0
  {
    if i + 2 < |ts| {
      GapBetween(ts[..|ts| - 1], i);
    }
  }

  method CollectInterArrivals(ts: seq<real>) returns (gaps: seq<real>)
    ensures gaps == InterArrivals(ts)
  {
    gaps := [];
    var i := 1;
    while i < |ts|
      invariant 1 <= i && (ts != [] ==> i <= |ts| && gaps == InterArrivals(ts[..i]))
      invariant ts == [] ==> gaps == []
    {
      gaps := gaps + [GapMs(ts[i - 1], ts[i])];
      assert ts[..i + 1][..i] == ts[..i];
      i := i + 1;
    }
    assert ts[..|ts|] == ts;
  }

  predicate Ordered(ts: seq<real>) {
    forall i, j :: 0 <= i < j < |ts| ==> ts[i] <= ts[j]
  }

  lemma OrderedSnoc(ts: seq<real>)
    requires |ts| >= 2
    ensures Ordered(ts) <==> Ordered(ts[..|ts| - 1]) && ts[|ts| - 2] <= ts[|ts| - 1]
  {
    var n := |ts| - 1;
    assert forall i :: 0 <= i < n ==> ts[..n][i] == ts[i];
    if Ordered(ts[..n]) && ts[n - 1] <= ts[n] {
      forall i, j | 0 <= i < j < |ts|
        ensures ts[i] <= ts[j]
      {
        if j == n && i < n - 1 {
          assert ts[..n][i] <= ts[..n][n - 1];
        } else if j < n {
          assert ts[..n][i] <= ts[..n][j];
        }
      }
    }
  }

  /** The gaps add up to at least the duration, and to exactly the duration when, and
      only when, the packets are in order of time. */
  lemma {:induction false} GapsAddUpIffOrdered(ts: seq<real>)
    requires ts != []
    ensures var d := (ts[|ts| - 1] - ts[0]) * 1000.0;
            && Sum(InterArrivals(ts)) >= d
            && (Sum(InterArrivals(ts)) == d <==> Ordered(ts))
  {
    var n := |ts| - 1;
    if n > 0 {
      var gaps := InterArrivals(ts);
      GapsAddUpIffOrdered(ts[..n]);
      assert gaps[..|gaps| - 1] == InterArrivals(ts[..n]);
      OrderedSnoc(ts);
    }
  }
}

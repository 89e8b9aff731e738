/** Time-to-live fingerprints: the initial value a hop count is deduced from, and the
    test for spoofing within one flow. */
module Ttl {
  import opened RealFacts
  import opened Moments

  /** The initial value, the hops travelled and the family of systems that use it. */
  datatype Origin = Origin(base: int, hops: int, family: string)

  predicate IsBase(b: int) {
    b == 32 || b == 64 || b == 128 || b == 255
  }

  /** The smallest initial value that is not exceeded; 255 beyond all of them. */
  function DeduceInitialTtl(observed: int): (o: Origin)
    ensures IsBase(o.base) && o.hops >= 0
    ensures observed <= 255 ==> o.base - o.hops == observed
    ensures forall b :: IsBase(b) && observed <= b ==> observed <= o.base <= b
    ensures observed > 255 ==> o == Origin(255, 0, "Unknown")
    ensures observed <= 255 ==>
              o.family == if o.base == 32 then "Legacy/Embedded" else if o.base == 64 then "Linux/Unix/macOS"
                          else if o.base == 128 then "Windows" else "Network Appliance/Cisco"
  {
    if observed <= 32 then Origin(32, 32 - observed, "Legacy/Embedded")
    else if observed <= 64 then Origin(64, 64 - observed, "Linux/Unix/macOS")
    else if observed <= 128 then Origin(128, 128 - observed, "Windows")
    else if observed <= 255 then Origin(255, 255 - observed, "Network Appliance/Cisco")
    else Origin(255, 0, "Unknown")
  }

  function Reals(xs: seq<int>): (rs: seq<real>)
    ensures |rs| == |xs| && forall i :: 0 <= i < |rs| ==> rs[i] == xs[i] as real
  {
    seq(|xs|, i requires 0 <= i < |xs| => xs[i] as real)
  }

  function TtlVariance(ttls: seq<int>): real {
    if |ttls| > 1 then Variance(Reals(ttls)) else 0.0
  }

  /** The flag: more than one value, and either more than one initial value behind them
      or a variance above 4. */
  function IsSpoofed(ttls: seq<int>): bool {
    var unique := set t | t in ttls;
    var bases := set t | t in ttls :: DeduceInitialTtl(t).base;
    |unique| > 1 && (|bases| > 1 || TtlVariance(ttls) > 4.0)
  }

  predicate TwoBands(ttls: seq<int>) {
    exists i, j :: 0 <= i < |ttls| && 0 <= j < |ttls|
                   && DeduceInitialTtl(ttls[i]).base != DeduceInitialTtl(ttls[j]).base
  }

  /** A set with a member `x` has more than one member exactly when another differs from it. */
  lemma SizeAboveOne(s: set<int>, x: int)
    requires x in s
    ensures |s| > 1 <==> exists y :: y in s && y != x
  {
    if forall y :: y in s ==> y == x {
      assert s == {x};
    } else {
      var y :| y in s && y != x;
      SubsetSize({x, y}, s);
    }
  }

  lemma SubsetSize(a: set<int>, b: set<int>)
    requires a <= b
    ensures |a| <= |b|
  {
    assert b == a + (b - a);
    assert |b| == |a| + |b - a|;
  }

  lemma {:induction false} ConstantSquares(xs: seq<real>, c: real)
    requires forall i :: 0 <= i < |xs| ==> xs[i] == c
    ensures Sum(xs) == c * |xs| as real && Squares(xs, c) == 0.0
  {
    if xs != [] {
      ConstantSquares(xs[..|xs| - 1], c);
    }
  }

  lemma {:induction false} ConstantMean(rs: seq<real>, c: real)
    requires rs != [] && Sum(rs) == c * |rs| as real && Squares(rs, c) == 0.0
    ensures Variance(rs) == 0.0
  {
    QuotientBetween(Sum(rs), |rs| as real, c, c);
    VarianceIs(rs, c);
  }

  /** Equal values have no variance. */
  lemma OneValueNoVariance(ttls: seq<int>)
    requires forall i, j :: 0 <= i < |ttls| && 0 <= j < |ttls| ==> ttls[i] == ttls[j]
    ensures TtlVariance(ttls) == 0.0
  {
    if |ttls| > 1 {
      var rs, c := Reals(ttls), ttls[0] as real;
      ConstantSquares(rs, c);
      ConstantMean(rs, c);
    }
  }

  /** The flag is raised exactly when two initial values occur or the variance exceeds
      4; the test for more than one distinct value adds nothing. */
  lemma SpoofedIff(ttls: seq<int>)
    ensures IsSpoofed(ttls) <==> TwoBands(ttls) || TtlVariance(ttls) > 4.0
  {
    var unique := set t | t in ttls;
    var bases := set t | t in ttls :: DeduceInitialTtl(t).base;
    if ttls == [] {
      assert unique == {};
    } else {
      var t0 := ttls[0];
      SizeAboveOne(unique, t0);
      SizeAboveOne(bases, DeduceInitialTtl(t0).base);
      BasesDiffer(ttls, bases);
      if |unique| <= 1 {
        assert forall i :: 0 <= i < |ttls| ==> ttls[i] in unique;
        OneValueNoVariance(ttls);
      }
    }
  }

  lemma BasesDiffer(ttls: seq<int>, bases: set<int>)
    requires ttls != []
    requires bases == set t | t in ttls :: DeduceInitialTtl(t).base
    ensures TwoBands(ttls) <==> exists b :: b in bases && b != DeduceInitialTtl(ttls[0]).base
  {
    var b0 := DeduceInitialTtl(ttls[0]).base;
    if b :| b in bases && b != b0 {
      var t :| t in ttls && DeduceInitialTtl(t).base == b;
      var i :| 0 <= i < |ttls| && ttls[i] == t;
      assert DeduceInitialTtl(ttls[i]).base != DeduceInitialTtl(ttls[0]).base;
    }
    if i, j :| 0 <= i < |ttls| && 0 <= j < |ttls|
               && DeduceInitialTtl(ttls[i]).base != DeduceInitialTtl(ttls[j]).base {
      assert DeduceInitialTtl(ttls[i]).base in bases && DeduceInitialTtl(ttls[j]).base in bases;
    }
  }

  function Total(xs: seq<int>): int {
    if xs == [] then 0 else Total(xs[..|xs| - 1]) + xs[|xs| - 1]
  }

  function TotalOfSquares(xs: seq<int>): int {
    if xs == [] then 0 else TotalOfSquares(xs[..|xs| - 1]) + xs[|xs| - 1] * xs[|xs| - 1]
  }

  lemma {:induction false} TotalsAreSums(xs: seq<int>)
    ensures Sum(Reals(xs)) == Total(xs) as real && SquareSum(Reals(xs)) == TotalOfSquares(xs) as real
  {
    if xs != [] {
      var init := xs[..|xs| - 1];
      TotalsAreSums(init);
      assert Reals(xs)[..|xs| - 1] == Reals(init);
    }
  }

  lemma VarianceScaled(n: real, c: real, v: real, s: real, q: real)
    requires Mul(n, c) == s && Mul(n, v) == q - Mul(n, Sq(c))
    ensures Mul(Sq(n), v) == Mul(n, q) - Sq(s)
  {
    assert (n * n) * v == n * (n * v);
    assert n * (n * (c * c)) == (n * c) * (n * c);
  }

  /** n times the sum of the squares, less the squared sum. */
  function Scatter(ttls: seq<int>): int {
    |ttls| * TotalOfSquares(ttls) - Total(ttls) * Total(ttls)
  }

  lemma ScatterReal(n: int, q: int, s: int)
    ensures (n * q - s * s) as real == Mul(n as real, q as real) - Sq(s as real)
  {
    assert (n * q) as real == n as real * q as real && (s * s) as real == s as real * s as real;
  }

  lemma ScatterOfOne(ttls: seq<int>)
    requires |ttls| == 1
    ensures Scatter(ttls) == 0
  {
    assert Total(ttls) == Total(ttls[..0]) + ttls[0] == ttls[0];
    assert TotalOfSquares(ttls) == TotalOfSquares(ttls[..0]) + ttls[0] * ttls[0] == ttls[0] * ttls[0];
  }

  lemma ScatterOfMany(ttls: seq<int>, n: real)
    requires |ttls| >= 2 && n == |ttls| as real
    ensures Mul(Sq(n), Variance(Reals(ttls))) == Scatter(ttls) as real
  {
    var rs := Reals(ttls);
    var st := DistributionStats(rs);
    TotalsAreSums(ttls);
    StatsFromPowers(rs, n, st);
    VarianceScaled(n, st.mean, st.m2, Sum(rs), SquareSum(rs));
    ScatterReal(|ttls|, TotalOfSquares(ttls), Total(ttls));
  }

  /** The variance in whole numbers: n^2 v = n (sum of squares) - (sum)^2. */
  lemma TtlVarianceIs(ttls: seq<int>)
    ensures Mul(Sq(|ttls| as real), TtlVariance(ttls)) == Scatter(ttls) as real
  {
    if |ttls| > 1 {
      ScatterOfMany(ttls, |ttls| as real);
    } else if |ttls| == 1 {
      ScatterOfOne(ttls);
    }
  }

  lemma ScaledAbove(n: real, v: real, w: real)
    requires n > 0.0 && Mul(n, v) == w
    ensures v > 4.0 <==> w > 4.0 * n
  {
    assert v > 4.0 ==> n * v > n * 4.0;
    assert v <= 4.0 ==> n * v <= n * 4.0;
  }

  /** The flag in whole numbers alone: two initial values occur, or n times the sum of the
      squares exceeds the squared sum by more than 4 n^2. */
  lemma SpoofedInIntegers(ttls: seq<int>)
    ensures IsSpoofed(ttls) <==> TwoBands(ttls) || Scatter(ttls) as real > 4.0 * Sq(|ttls| as real)
  {
    SpoofedIff(ttls);
    TtlVarianceIs(ttls);
    if ttls != [] {
      ScaledAbove(Sq(|ttls| as real), TtlVariance(ttls), Scatter(ttls) as real);
    }
  }

  /** Values of one band that lie within 4 of each other never raise the flag. */
  lemma NarrowBandNeverSpoofed(ttls: seq<int>)
    requires !TwoBands(ttls)
    requires forall i, j :: 0 <= i < |ttls| && 0 <= j < |ttls| ==> ttls[i] - ttls[j] <= 4
    ensures !IsSpoofed(ttls)
  {
    SpoofedIff(ttls);
    if |ttls| > 1 {
      NarrowVariance(Reals(ttls), ttls);
    }
  }

  lemma NarrowVariance(rs: seq<real>, ttls: seq<int>)
    requires ttls != [] && rs == Reals(ttls)
    requires forall i, j :: 0 <= i < |ttls| && 0 <= j < |ttls| ==> ttls[i] - ttls[j] <= 4
    ensures Variance(rs) <= 4.0
  {
    NarrowRange(ttls);
    VarianceWithinRange(rs, Mean(rs), Least(rs), Greatest(rs));
    SmallSquare(Greatest(rs) - Least(rs), Variance(rs));
  }

  lemma NarrowRange(ttls: seq<int>)
    requires ttls != []
    requires forall i, j :: 0 <= i < |ttls| && 0 <= j < |ttls| ==> ttls[i] - ttls[j] <= 4
    ensures 0.0 <= Greatest(Reals(ttls)) - Least(Reals(ttls)) <= 4.0
  {
    var rs := Reals(ttls);
    var i :| 0 <= i < |rs| && rs[i] == Greatest(rs);
    var j :| 0 <= j < |rs| && rs[j] == Least(rs);
    assert ttls[i] - ttls[j] <= 4;
  }

  lemma SmallSquare(range: real, v: real)
    requires 0.0 <= range <= 4.0 && 4.0 * v <= Sq(range)
    ensures v <= 4.0
  {
    ProductNonNegative(4.0 - range, 4.0 + range);
    assert (4.0 - range) * (4.0 + range) == 16.0 - Sq(range);
  }

  /** Values of two bands always raise it. */
  lemma TwoBandsAlwaysSpoofed(ttls: seq<int>)
    requires TwoBands(ttls)
    ensures IsSpoofed(ttls)
  {
    SpoofedIff(ttls);
  }
}

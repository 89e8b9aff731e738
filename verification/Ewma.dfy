/** The exponentially weighted volume baseline: the tracker, the distribution it
    summarises, and what its anomaly flag can and cannot mean. */
module Ewma {
  import opened RealFacts

  /** Mean and variance of one metric. */
  datatype Channel = Channel(mean: real, variance: real)

  function First(x: real): Channel {
    Channel(x, 0.0)
  }

  function NewMean(alpha: real, mean: real, x: real): real {
    alpha * x + (1.0 - alpha) * mean
  }

  /** `diff` is the deviation from the mean before its update. */
  function NewVariance(alpha: real, variance: real, diff: real): real {
    (1.0 - alpha) * (variance + alpha * Sq(diff))
  }

  function Step(alpha: real, c: Channel, x: real): Channel {
    Channel(NewMean(alpha, c.mean, x), NewVariance(alpha, c.variance, x - c.mean))
  }

  /** The variance the deviation is compared with: never below 1e-4. */
  function Floored(variance: real): real {
    if variance > 0.0001 then variance else 0.0001
  }

  /** z > 3, for z the deviation over the square root of the floored variance. */
  predicate HighZ(diff: real, variance: real) {
    diff > 0.0 && Sq(diff) > 9.0 * Floored(variance)
  }

  predicate Exceeds(c: Channel, x: real) {
    HighZ(x - c.mean, c.variance)
  }

  datatype Sample = Sample(pps: real, bps: real)

  /** The tracker's state as a value. */
  datatype Baseline = Baseline(alpha: real, minSamples: int, count: nat, pps: Channel, bps: Channel)

  function Fresh(alpha: real, minSamples: int): Baseline {
    Baseline(alpha, minSamples, 0, Channel(0.0, 0.0), Channel(0.0, 0.0))
  }

  function Updated(b: Baseline, s: Sample): Baseline {
    if b.count == 0 then b.(count := 1, pps := First(s.pps), bps := First(s.bps))
    else b.(count := b.count + 1, pps := Step(b.alpha, b.pps, s.pps), bps := Step(b.alpha, b.bps, s.bps))
  }

  predicate Flags(b: Baseline, s: Sample) {
    b.count > 0 && b.count + 1 >= b.minSamples && (Exceeds(b.pps, s.pps) || Exceeds(b.bps, s.bps))
  }

  /** The state after a list of samples. */
  function Fed(b: Baseline, ss: seq<Sample>): Baseline {
    if ss == [] then b else Updated(Fed(b, ss[..|ss| - 1]), ss[|ss| - 1])
  }

  class EwmaTracker {
    const alpha: real
    const minSamples: int
    var sampleCount: nat
    var meanPps: real
    var varPps: real
    var meanBps: real
    var varBps: real

    ghost function State(): Baseline
      reads this
    {
      Baseline(alpha, minSamples, sampleCount, Channel(meanPps, varPps), Channel(meanBps, varBps))
    }

    constructor (alpha: real, minSamples: int)
      ensures State() == Fresh(alpha, minSamples)
    {
      this.alpha, this.minSamples, sampleCount := alpha, minSamples, 0;
      meanPps, varPps, meanBps, varBps := 0.0, 0.0, 0.0, 0.0;
    }

    /** Takes in one observation; tells whether it is a volume anomaly. */
    method Update(pps: real, bps: real) returns (isAnomaly: bool)
      modifies this
      ensures State() == Updated(old(State()), Sample(pps, bps))
      ensures isAnomaly == Flags(old(State()), Sample(pps, bps))
    {
      sampleCount := sampleCount + 1;
      if sampleCount == 1 {
        meanPps, varPps := pps, 0.0;
        meanBps, varBps := bps, 0.0;
        return false;
      }
      var diffPps, diffBps := pps - meanPps, bps - meanBps;
      var highPps, highBps := HighZ(diffPps, varPps), HighZ(diffBps, varBps);
      meanPps := NewMean(alpha, meanPps, pps);
      meanBps := NewMean(alpha, meanBps, bps);
      varPps := NewVariance(alpha, varPps, diffPps);
      varBps := NewVariance(alpha, varBps, diffBps);
      isAnomaly := sampleCount >= minSamples && (highPps || highBps);
    }
  }

  // -------------------------------------------------- the weighted distribution

  /** One metric after a non-empty list of observations. */
  function Tracked(alpha: real, xs: seq<real>): Channel
    requires xs != []
  {
    var n := |xs| - 1;
    if n == 0 then First(xs[0]) else Step(alpha, Tracked(alpha, xs[..n]), xs[n])
  }

  function Power(b: real, n: nat): real {
    if n == 0 then 1.0 else b * Power(b, n - 1)
  }

  /** The weight of observation i among n: alpha (1 - alpha)^(n-1-i), and for the very
      first one (1 - alpha)^(n-1). */
  function Weight(alpha: real, n: nat, i: nat): real
    requires i < n
  {
    if i == 0 then Power(1.0 - alpha, n - 1) else alpha * Power(1.0 - alpha, n - 1 - i)
  }

  /** The weighted sum of the first k observations, with the weights for all of them. */
  function Partial(alpha: real, xs: seq<real>, k: nat): real
    requires k <= |xs|
  {
    if k == 0 then 0.0 else Partial(alpha, xs, k - 1) + Mul(Weight(alpha, |xs|, k - 1), xs[k - 1])
  }

  function WeightedMean(alpha: real, xs: seq<real>): real {
    Partial(alpha, xs, |xs|)
  }

  function SquaredAround(xs: seq<real>, m: real): (s: seq<real>)
    ensures |s| == |xs| && forall i :: 0 <= i < |s| ==> s[i] == Sq(xs[i] - m)
  {
    seq(|xs|, i requires 0 <= i < |xs| => Sq(xs[i] - m))
  }

  /** The mean squared distance from the mean under those weights. */
  function WeightedVariance(alpha: real, xs: seq<real>): real {
    WeightedMean(alpha, SquaredAround(xs, WeightedMean(alpha, xs)))
  }

  lemma WeightAged(alpha: real, n: nat, i: nat)
    requires i < n
    ensures Weight(alpha, n + 1, i) == Mul(1.0 - alpha, Weight(alpha, n, i))
  {
    if i > 0 {
      var p := Power(1.0 - alpha, n - 1 - i);
      assert Power(1.0 - alpha, n - i) == (1.0 - alpha) * p;
      AgedProduct(alpha, p);
    }
  }

  lemma AgedProduct(alpha: real, p: real)
    ensures alpha * ((1.0 - alpha) * p) == (1.0 - alpha) * (alpha * p)
  {
  }

  lemma {:induction false} PartialAged(alpha: real, xs: seq<real>, x: real, k: nat)
    requires k <= |xs|
    ensures Partial(alpha, xs + [x], k) == Mul(1.0 - alpha, Partial(alpha, xs, k))
  {
    if k > 0 {
      var ys, i := xs + [x], k - 1;
      PartialAged(alpha, xs, x, i);
      WeightAged(alpha, |xs|, i);
      assert ys[i] == xs[i] && |ys| == |xs| + 1;
      AgedTerm(1.0 - alpha, Partial(alpha, xs, i), Weight(alpha, |xs|, i), xs[i], Partial(alpha, xs, k),
               Partial(alpha, ys, i), Weight(alpha, |ys|, i), Partial(alpha, ys, k));
    }
  }

  lemma AgedTerm(b: real, p: real, w: real, x: real, sum: real, p': real, w': real, sum': real)
    requires p' == Mul(b, p) && w' == Mul(b, w) && sum == p + Mul(w, x) && sum' == p' + Mul(w', x)
    ensures sum' == Mul(b, sum)
  {
    assert (b * w) * x == b * (w * x);
  }

  /** A new observation takes weight alpha; all others keep 1 - alpha of theirs. */
  lemma WeightedMeanStep(alpha: real, xs: seq<real>, x: real)
    requires xs != []
    ensures WeightedMean(alpha, xs + [x]) == NewMean(alpha, WeightedMean(alpha, xs), x)
  {
    PartialAged(alpha, xs, x, |xs|);
    assert Power(1.0 - alpha, 0) == 1.0;
    assert Weight(alpha, |xs| + 1, |xs|) == alpha;
  }

  lemma WeightedMeanOne(alpha: real, x: real)
    ensures WeightedMean(alpha, [x]) == x
  {
    assert Power(1.0 - alpha, 0) == 1.0;
    assert Weight(alpha, 1, 0) == 1.0;
    assert Partial(alpha, [x], 0) == 0.0;
  }

  function Repeated<T>(x: T, n: nat): (s: seq<T>)
    ensures |s| == n && forall i :: 0 <= i < n ==> s[i] == x
  {
    seq(n, i => x)
  }

  /** The weights add up to one. */
  lemma WeightsAddUp(alpha: real, c: real, n: nat)
    requires n > 0
    ensures WeightedMean(alpha, Repeated(c, n)) == c
  {
    if n == 1 {
      assert Repeated(c, 1) == [c];
      WeightedMeanOne(alpha, c);
    } else {
      WeightsAddUp(alpha, c, n - 1);
      WeightedMeanStep(alpha, Repeated(c, n - 1), c);
      assert Repeated(c, n - 1) + [c] == Repeated(c, n);
    }
  }

  /** Weighted means are linear. */
  lemma {:induction false} PartialSum(alpha: real, as_: seq<real>, bs: seq<real>, cs: seq<real>, k: nat)
    requires k <= |as_| == |bs| == |cs|
    requires forall i :: 0 <= i < |cs| ==> cs[i] == as_[i] + bs[i]
    ensures Partial(alpha, cs, k) == Partial(alpha, as_, k) + Partial(alpha, bs, k)
  {
    if k > 0 {
      PartialSum(alpha, as_, bs, cs, k - 1);
      SumTerm(Weight(alpha, |cs|, k - 1), as_[k - 1], bs[k - 1], cs[k - 1]);
    }
  }

  lemma SumTerm(w: real, a: real, b: real, c: real)
    requires c == a + b
    ensures Mul(w, c) == Mul(w, a) + Mul(w, b)
  {
  }

  lemma {:induction false} PartialScaled(alpha: real, f: real, xs: seq<real>, ys: seq<real>, k: nat)
    requires k <= |xs| == |ys|
    requires forall i :: 0 <= i < |ys| ==> ys[i] == Mul(f, xs[i])
    ensures Partial(alpha, ys, k) == Mul(f, Partial(alpha, xs, k))
  {
    if k > 0 {
      PartialScaled(alpha, f, xs, ys, k - 1);
      var w := Weight(alpha, |xs|, k - 1);
      ScaleTerm(f, w, xs[k - 1], ys[k - 1], Partial(alpha, xs, k - 1), Partial(alpha, ys, k - 1),
                Partial(alpha, xs, k), Partial(alpha, ys, k));
    }
  }

  lemma ScaleTerm(f: real, w: real, x: real, y: real, p: real, q: real, p': real, q': real)
    requires y == Mul(f, x) && q == Mul(f, p) && p' == p + Mul(w, x) && q' == q + Mul(w, y)
    ensures q' == Mul(f, p')
  {
    assert w * (f * x) == f * (w * x);
  }

  function Scaled(f: real, xs: seq<real>): (ys: seq<real>)
    ensures |ys| == |xs| && forall i :: 0 <= i < |ys| ==> ys[i] == Mul(f, xs[i])
  {
    seq(|xs|, i requires 0 <= i < |xs| => Mul(f, xs[i]))
  }

  function Added(as_: seq<real>, bs: seq<real>): (cs: seq<real>)
    requires |as_| == |bs|
    ensures |cs| == |as_| && forall i :: 0 <= i < |cs| ==> cs[i] == as_[i] + bs[i]
  {
    seq(|as_|, i requires 0 <= i < |as_| => as_[i] + bs[i])
  }

  /** The squares around m are the squares, less 2m times the values, plus m^2. */
  lemma SquaresDecompose(xs: seq<real>, m: real)
    ensures SquaredAround(xs, m)
         == Added(Added(SquaredAround(xs, 0.0), Scaled(-2.0 * m, xs)), Repeated(Sq(m), |xs|))
  {
    forall i | 0 <= i < |xs|
      ensures Sq(xs[i] - m) == Sq(xs[i] - 0.0) + Mul(-2.0 * m, xs[i]) + Sq(m)
    {
      ExpandOne(xs[i], m);
    }
  }

  lemma ExpandOne(x: real, m: real)
    ensures Sq(x - m) == Sq(x - 0.0) + Mul(-2.0 * m, x) + Sq(m)
  {
    SqOfDifference(x, m);
    assert x - 0.0 == x;
  }

  lemma ExpandSquares(alpha: real, xs: seq<real>, m: real)
    requires xs != []
    ensures WeightedMean(alpha, SquaredAround(xs, m))
         == WeightedMean(alpha, SquaredAround(xs, 0.0)) + Mul(-2.0 * m, WeightedMean(alpha, xs)) + Sq(m)
  {
    var n := |xs|;
    var squares, scaled, constant := SquaredAround(xs, 0.0), Scaled(-2.0 * m, xs), Repeated(Sq(m), n);
    SquaresDecompose(xs, m);
    PartialSum(alpha, Added(squares, scaled), constant, SquaredAround(xs, m), n);
    PartialSum(alpha, squares, scaled, Added(squares, scaled), n);
    PartialScaled(alpha, -2.0 * m, xs, scaled, n);
    WeightsAddUp(alpha, Sq(m), n);
  }

  lemma NewMeanIs(alpha: real, b: real, m: real, x: real)
    requires b == 1.0 - alpha
    ensures NewMean(alpha, m, x) == alpha * x + b * m
  {
  }

  lemma NewVarianceIs(alpha: real, b: real, v: real, diff: real)
    requires b == 1.0 - alpha
    ensures NewVariance(alpha, v, diff) == b * (v + alpha * Sq(diff))
  {
  }

  lemma CrossProduct(alpha: real, x: real, b: real, m: real)
    ensures (alpha * x) * (b * m) == (alpha * b) * (x * m)
  {
  }

  /** The square of the new mean. */
  lemma NewMeanSquared(alpha: real, b: real, m: real, x: real)
    requires b == 1.0 - alpha
    ensures Sq(NewMean(alpha, m, x))
         == Sq(alpha) * Sq(x) + 2.0 * ((alpha * b) * (x * m)) + Sq(b) * Sq(m)
  {
    var u, w := alpha * x, b * m;
    NewMeanIs(alpha, b, m, x);
    SquareOfSum(NewMean(alpha, m, x), u, w);
    SqOfProduct(alpha, x);
    SqOfProduct(b, m);
    CrossProduct(alpha, x, b, m);
    AddSquares(Sq(NewMean(alpha, m, x)), Sq(u), u * w, Sq(w), Sq(alpha) * Sq(x), (alpha * b) * (x * m), Sq(b) * Sq(m));
  }

  lemma SquareOfSum(s: real, u: real, w: real)
    requires s == u + w
    ensures Sq(s) == Sq(u) + 2.0 * (u * w) + Sq(w)
  {
    SqOfSum(u, w);
  }

  lemma AddSquares(s: real, u: real, cross: real, w: real, u': real, cross': real, w': real)
    requires s == u + 2.0 * cross + w && u == u' && cross == cross' && w == w'
    ensures s == u' + 2.0 * cross' + w'
  {
  }

  /** The variance recurrence, in terms of mean of squares minus squared mean. */
  lemma VarianceStep(alpha: real, m: real, q: real, x: real)
    ensures NewMean(alpha, q, Sq(x)) - Sq(NewMean(alpha, m, x)) == NewVariance(alpha, q - Sq(m), x - m)
  {
    var b, xx, mm, xm := 1.0 - alpha, Sq(x), Sq(m), x * m;
    calc {
      NewMean(alpha, q, xx) - Sq(NewMean(alpha, m, x));
      { NewMeanIs(alpha, b, q, xx); NewMeanSquared(alpha, b, m, x); }
      (alpha * xx + b * q) - (Sq(alpha) * xx + 2.0 * ((alpha * b) * xm) + Sq(b) * mm);
      { VarianceStepExpanded(alpha, b, xx, mm, xm, q, Sq(alpha), Sq(b)); }
      b * ((q - mm) + alpha * (xx - 2.0 * xm + mm));
      { SqOfDifference(x, m); }
      b * ((q - mm) + alpha * Sq(x - m));
      { NewVarianceIs(alpha, b, q - mm, x - m); }
      NewVariance(alpha, q - mm, x - m);
    }
  }

  lemma VarianceStepExpanded(alpha: real, b: real, xx: real, mm: real, xm: real,
                             q: real, aa: real, bb: real)
    requires b == 1.0 - alpha && aa == Sq(alpha) && bb == Sq(b)
    ensures (alpha * xx + b * q) - (aa * xx + 2.0 * ((alpha * b) * xm) + bb * mm)
         == b * ((q - mm) + alpha * (xx - 2.0 * xm + mm))
  {
    assert aa == alpha * alpha && bb == b * b;
    assert alpha * xx - (alpha * alpha) * xx == (alpha * b) * xx;
    assert b * (alpha * (xx - 2.0 * xm + mm)) == (alpha * b) * xx - 2.0 * ((alpha * b) * xm) + (alpha * b) * mm;
    assert b * (q - mm) == b * q - b * mm;
    assert (alpha * b) * mm - b * mm == -((b * b) * mm);
  }

  lemma TrackedStep(alpha: real, x: real, m: real, q: real, v: real)
    requires v == q - Sq(m)
    ensures NewVariance(alpha, v, x - m) == NewMean(alpha, q, Sq(x - 0.0)) - Sq(NewMean(alpha, m, x))
  {
    assert x - 0.0 == x;
    VarianceStep(alpha, m, q, x);
  }

  lemma {:induction false} TrackedIsMoments(alpha: real, xs: seq<real>)
    requires xs != []
    ensures Tracked(alpha, xs).mean == WeightedMean(alpha, xs)
    ensures Tracked(alpha, xs).variance
         == WeightedMean(alpha, SquaredAround(xs, 0.0)) - Sq(WeightedMean(alpha, xs))
  {
    var n := |xs| - 1;
    if n == 0 {
      assert SquaredAround(xs, 0.0) == [Sq(xs[0] - 0.0)] && xs == [xs[0]];
      WeightedMeanOne(alpha, Sq(xs[0] - 0.0));
      WeightedMeanOne(alpha, xs[0]);
      assert xs[0] - 0.0 == xs[0];
    } else {
      var init, x := xs[..n], xs[n];
      TrackedIsMoments(alpha, init);
      WeightedMeanStep(alpha, init, x);
      assert xs == init + [x];
      WeightedMeanStep(alpha, SquaredAround(init, 0.0), Sq(x - 0.0));
      assert SquaredAround(xs, 0.0) == SquaredAround(init, 0.0) + [Sq(x - 0.0)];
      TrackedStep(alpha, x, WeightedMean(alpha, init), WeightedMean(alpha, SquaredAround(init, 0.0)),
                  Tracked(alpha, init).variance);
    }
  }

  /** The incremental recurrences compute exactly the mean and the variance of the
      exponentially weighted distribution of all observations so far. */
  lemma {:induction false} TrackedIsWeighted(alpha: real, xs: seq<real>)
    requires xs != []
    ensures Tracked(alpha, xs) == Channel(WeightedMean(alpha, xs), WeightedVariance(alpha, xs))
  {
    TrackedIsMoments(alpha, xs);
    MeanSquareForm(alpha, xs, WeightedMean(alpha, xs));
  }

  lemma TwiceNegated(m: real)
    ensures Mul(-2.0 * m, m) == -2.0 * Sq(m)
  {
  }

  lemma MeanSquareForm(alpha: real, xs: seq<real>, m: real)
    requires xs != [] && m == WeightedMean(alpha, xs)
    ensures WeightedMean(alpha, SquaredAround(xs, m)) == WeightedMean(alpha, SquaredAround(xs, 0.0)) - Sq(m)
  {
    ExpandSquares(alpha, xs, m);
    TwiceNegated(m);
    CancelSquare(WeightedMean(alpha, SquaredAround(xs, m)), WeightedMean(alpha, SquaredAround(xs, 0.0)),
                 Mul(-2.0 * m, m), Sq(m));
  }

  lemma CancelSquare(w: real, w0: real, cross: real, sq: real)
    requires w == w0 + cross + sq && cross == -2.0 * sq
    ensures w == w0 - sq
  {
  }

  // --------------------------------------------------------------------- bounds

  lemma MixBetween(alpha: real, m: real, x: real, lo: real, hi: real)
    requires 0.0 <= alpha <= 1.0 && lo <= m <= hi && lo <= x <= hi
    ensures lo <= NewMean(alpha, m, x) <= hi
  {
    MixAround(alpha, m, x, lo);
    MixAround(alpha, m, x, hi);
    MulNonNegative(alpha, x - lo);
    MulNonNegative(1.0 - alpha, m - lo);
    MulNonNegative(alpha, hi - x);
    MulNonNegative(1.0 - alpha, hi - m);
  }

  lemma MixAround(alpha: real, m: real, x: real, c: real)
    ensures NewMean(alpha, m, x) - c == Mul(alpha, x - c) + Mul(1.0 - alpha, m - c)
    ensures c - NewMean(alpha, m, x) == Mul(alpha, c - x) + Mul(1.0 - alpha, c - m)
  {
  }

  lemma NewVarianceBounds(alpha: real, v: real, diff: real)
    requires 0.0 <= alpha <= 1.0 && v >= 0.0
    ensures NewVariance(alpha, v, diff) >= Mul(1.0 - alpha, Mul(alpha, Sq(diff))) >= 0.0
  {
    MulNonNegative(alpha, Sq(diff));
    MulNonNegative(1.0 - alpha, Mul(alpha, Sq(diff)));
    MulMonotone(Mul(alpha, Sq(diff)), v + alpha * Sq(diff), 1.0 - alpha);
  }

  /** The mean stays between the smallest and the largest observation, and the variance
      is never negative. */
  lemma {:induction false} TrackedBounds(alpha: real, xs: seq<real>, lo: real, hi: real)
    requires 0.0 <= alpha <= 1.0 && xs != []
    requires forall i :: 0 <= i < |xs| ==> lo <= xs[i] <= hi
    ensures lo <= Tracked(alpha, xs).mean <= hi && Tracked(alpha, xs).variance >= 0.0
  {
    var n := |xs| - 1;
    if n > 0 {
      var c := Tracked(alpha, xs[..n]);
      assert forall i :: 0 <= i < n ==> xs[..n][i] == xs[i];
      TrackedBounds(alpha, xs[..n], lo, hi);
      MixBetween(alpha, c.mean, xs[n], lo, hi);
      NewVarianceBounds(alpha, c.variance, xs[n] - c.mean);
    }
  }

  // ----------------------------------------------------------------- the anomaly flag

  /** A deviation no larger than what the last observation has left behind is within
      three standard deviations, when alpha is at least 1/10. */
  lemma LeftoverDeviation(alpha: real, b: real, v0: real, d0: real, d: real)
    requires 0.1 <= alpha <= 1.0 && b == 1.0 - alpha && v0 >= 0.0
    requires 0.0 < d <= Mul(b, d0)
    ensures Sq(d) <= 9.0 * NewVariance(alpha, v0, d0)
  {
    LargerSquare(d, Mul(b, d0));
    SquareOfMul(b, d0);
    SmallFactor(alpha, b);
    MulMonotone(Sq(b), 9.0 * Mul(b, alpha), Sq(d0));
    Regroup(b, alpha, Sq(d0));
    NewVarianceBounds(alpha, v0, d0);
  }

  lemma SquareOfMul(a: real, b: real)
    ensures Sq(Mul(a, b)) == Mul(Sq(a), Sq(b))
  {
    SqOfProduct(a, b);
  }

  lemma Regroup(a: real, b: real, c: real)
    ensures Mul(9.0 * Mul(a, b), c) == 9.0 * Mul(a, Mul(b, c))
  {
  }

  lemma SmallFactor(alpha: real, b: real)
    requires 0.1 <= alpha <= 1.0 && b == 1.0 - alpha
    ensures Sq(b) <= 9.0 * Mul(b, alpha)
  {
    MulMonotone(b, 9.0 * alpha, b);
    ScaleInside(b, alpha);
  }

  lemma ScaleInside(b: real, alpha: real)
    ensures Mul(b, 9.0 * alpha) == 9.0 * Mul(b, alpha)
  {
  }

  lemma LargerSquare(d: real, r: real)
    requires 0.0 < d <= r
    ensures Sq(d) <= Sq(r)
  {
    SqOfSum(d, r - d);
    ProductNonNegative(d, r - d);
  }

  lemma RiseNeeded(alpha: real, m0: real, v0: real, y: real, x: real)
    requires 0.1 <= alpha <= 1.0 && v0 >= 0.0
    requires HighZ(x - NewMean(alpha, m0, y), NewVariance(alpha, v0, y - m0))
    ensures x > y
  {
    Leftover(alpha, m0, y);
    if x <= y {
      LeftoverDeviation(alpha, 1.0 - alpha, v0, y - m0, x - NewMean(alpha, m0, y));
    }
  }

  lemma Leftover(alpha: real, m0: real, y: real)
    ensures y - NewMean(alpha, m0, y) == Mul(1.0 - alpha, y - m0)
  {
  }

  /** One metric: an observation far above the baseline exceeds the one just before it. */
  lemma {:induction false} ExceedingRises(alpha: real, xs: seq<real>, x: real)
    requires 0.1 <= alpha <= 1.0 && xs != []
    requires Exceeds(Tracked(alpha, xs), x)
    ensures x > xs[|xs| - 1]
  {
    var n := |xs| - 1;
    if n > 0 {
      var c := Tracked(alpha, xs[..n]);
      VarianceNonNegative(alpha, xs[..n]);
      RiseNeeded(alpha, c.mean, c.variance, xs[n], x);
    }
  }

  lemma {:induction false} VarianceNonNegative(alpha: real, xs: seq<real>)
    requires 0.0 <= alpha <= 1.0 && xs != []
    ensures Tracked(alpha, xs).variance >= 0.0
  {
    var n := |xs| - 1;
    if n > 0 {
      VarianceNonNegative(alpha, xs[..n]);
      var c := Tracked(alpha, xs[..n]);
      NewVarianceBounds(alpha, c.variance, xs[n] - c.mean);
    }
  }

  function Pps(ss: seq<Sample>): (xs: seq<real>)
    ensures |xs| == |ss| && forall i :: 0 <= i < |xs| ==> xs[i] == ss[i].pps
  {
    seq(|ss|, i requires 0 <= i < |ss| => ss[i].pps)
  }

  function Bps(ss: seq<Sample>): (xs: seq<real>)
    ensures |xs| == |ss| && forall i :: 0 <= i < |xs| ==> xs[i] == ss[i].bps
  {
    seq(|ss|, i requires 0 <= i < |ss| => ss[i].bps)
  }

  /** The tracker runs the two metrics side by side. */
  lemma {:induction false} FedIsTracked(alpha: real, minSamples: int, ss: seq<Sample>)
    ensures Fed(Fresh(alpha, minSamples), ss) ==
            if ss == [] then Fresh(alpha, minSamples)
            else Baseline(alpha, minSamples, |ss|, Tracked(alpha, Pps(ss)), Tracked(alpha, Bps(ss)))
  {
    if ss != [] {
      var init := ss[..|ss| - 1];
      FedIsTracked(alpha, minSamples, init);
      assert Pps(ss)[..|ss| - 1] == Pps(init) && Bps(ss)[..|ss| - 1] == Bps(init);
    }
  }

  /** An observation above the weighted mean of earlier ones by more than three standard
      deviations, and by more than 3/100. */
  ghost predicate FarAbove(alpha: real, xs: seq<real>, x: real) {
    var d := x - WeightedMean(alpha, xs);
    d > 0.0 && Sq(d) > 9.0 * WeightedVariance(alpha, xs) && Sq(d) > 0.0009
  }

  lemma {:induction false} ExceedsIff(alpha: real, xs: seq<real>, x: real)
    requires xs != []
    ensures Exceeds(Tracked(alpha, xs), x) <==> FarAbove(alpha, xs, x)
  {
    TrackedIsWeighted(alpha, xs);
  }

  /** When a sample is flagged, told by the samples before it alone: there are enough of
      them, and it lies far above them in packets or in bytes. */
  lemma {:induction false} FlaggedIff(alpha: real, minSamples: int, ss: seq<Sample>, s: Sample)
    ensures Flags(Fed(Fresh(alpha, minSamples), ss), s) <==>
            ss != [] && |ss| + 1 >= minSamples
            && (FarAbove(alpha, Pps(ss), s.pps) || FarAbove(alpha, Bps(ss), s.bps))
  {
    FedIsTracked(alpha, minSamples, ss);
    if ss != [] {
      ExceedsIff(alpha, Pps(ss), s.pps);
      ExceedsIff(alpha, Bps(ss), s.bps);
    }
  }

  /** And the means that are reported with it take the sample in. */
  lemma {:induction false} MeansAre(alpha: real, minSamples: int, ss: seq<Sample>)
    requires ss != []
    ensures var b := Fed(Fresh(alpha, minSamples), ss);
            && b.pps == Channel(WeightedMean(alpha, Pps(ss)), WeightedVariance(alpha, Pps(ss)))
            && b.bps == Channel(WeightedMean(alpha, Bps(ss)), WeightedVariance(alpha, Bps(ss)))
            && b.count == |ss|
  {
    FedIsTracked(alpha, minSamples, ss);
    TrackedIsWeighted(alpha, Pps(ss));
    TrackedIsWeighted(alpha, Bps(ss));
  }

  /** Every flagged sample lies above the one just before it, in one of the metrics. */
  ghost predicate FlagsOnlyRises(alpha: real, minSamples: int) {
    forall ss: seq<Sample>, s: Sample ::
      ss != [] && Flags(Fed(Fresh(alpha, minSamples), ss), s) ==>
        s.pps > ss[|ss| - 1].pps || s.bps > ss[|ss| - 1].bps
  }

  lemma {:induction false} FlaggedSampleRises(alpha: real, minSamples: int, ss: seq<Sample>, s: Sample)
    requires 0.1 <= alpha <= 1.0 && ss != [] && Flags(Fed(Fresh(alpha, minSamples), ss), s)
    ensures s.pps > ss[|ss| - 1].pps || s.bps > ss[|ss| - 1].bps
  {
    FedIsTracked(alpha, minSamples, ss);
    if Exceeds(Tracked(alpha, Pps(ss)), s.pps) {
      ExceedingRises(alpha, Pps(ss), s.pps);
    } else {
      ExceedingRises(alpha, Bps(ss), s.bps);
    }
  }

  /** After a level shift, however long it lasts, only its first sample can be flagged:
      no sample that repeats the level at `m` is. */
  lemma LevelFlaggedAtMostOnce(alpha: real, minSamples: int, ss: seq<Sample>, m: nat, i: nat)
    requires 0.1 <= alpha <= 1.0 && m < i < |ss|
    requires forall k :: m <= k < |ss| ==> ss[k] == ss[m]
    ensures !Flags(Fed(Fresh(alpha, minSamples), ss[..i]), ss[i])
  {
    if Flags(Fed(Fresh(alpha, minSamples), ss[..i]), ss[i]) {
      FlaggedSampleRises(alpha, minSamples, ss[..i], ss[i]);
    }
  }

  lemma QuietBaseline(alpha: real, minSamples: int, n: nat)
    requires n > 0
    ensures Fed(Fresh(alpha, minSamples), Repeated(Sample(0.0, 0.0), n))
         == Baseline(alpha, minSamples, n, Channel(0.0, 0.0), Channel(0.0, 0.0))
  {
    var ss := Repeated(Sample(0.0, 0.0), n);
    if n > 1 {
      QuietBaseline(alpha, minSamples, n - 1);
      assert ss[..n - 1] == Repeated(Sample(0.0, 0.0), n - 1);
      assert Sq(0.0) == 0.0;
    } else {
      assert ss[..0] == [];
      assert Fed(Fresh(alpha, minSamples), ss[..0]) == Fresh(alpha, minSamples);
    }
  }

  lemma PlateauExceeds(alpha: real)
    requires 0.0 <= alpha < 0.1
    ensures Exceeds(Step(alpha, Channel(0.0, 0.0), 1.0), 1.0)
  {
    var b := 1.0 - alpha;
    var v := NewVariance(alpha, 0.0, 1.0 - 0.0);
    assert NewMean(alpha, 0.0, 1.0) == alpha;
    assert Sq(1.0) == 1.0;
    assert v == b * alpha;
    assert b > 9.0 * alpha && b > 0.9;
    PlateauAlgebra(alpha, b);
  }

  lemma PlateauAlgebra(alpha: real, b: real)
    requires b == 1.0 - alpha && b > 9.0 * alpha && b > 0.9
    ensures Sq(b) > 9.0 * (b * alpha) && Sq(b) > 0.0009
  {
    var e := b - 9.0 * alpha;
    assert b * e > 0.0;
    assert b * e == b * b - 9.0 * (b * alpha);
    assert Sq(b) == b * b;
    ProductMonotone(0.9, b, b);
    assert 0.9 * b > 0.0009;
  }

  /** Below 1/10 a plateau is flagged although it does not rise: after enough quiet
      samples, two equal busy ones. */
  lemma PlateauFlagged(alpha: real, minSamples: int) returns (ss: seq<Sample>, s: Sample)
    requires 0.0 <= alpha < 0.1
    ensures ss != [] && s == ss[|ss| - 1] && Flags(Fed(Fresh(alpha, minSamples), ss), s)
  {
    var n: nat := if minSamples < 1 then 1 else minSamples;
    var quiet := Repeated(Sample(0.0, 0.0), n);
    s := Sample(1.0, 1.0);
    ss := quiet + [s];
    QuietBaseline(alpha, minSamples, n);
    assert ss[..|ss| - 1] == quiet;
    PlateauExceeds(alpha);
  }

  /** The exact range of the smoothing factor in which a flag always means a rise. */
  lemma FlagsOnlyRisesIff(alpha: real, minSamples: int)
    requires 0.0 <= alpha <= 1.0
    ensures FlagsOnlyRises(alpha, minSamples) <==> alpha >= 0.1
  {
    if alpha >= 0.1 {
      forall ss: seq<Sample>, s: Sample | ss != [] && Flags(Fed(Fresh(alpha, minSamples), ss), s)
        ensures s.pps > ss[|ss| - 1].pps || s.bps > ss[|ss| - 1].bps
      {
        FlaggedSampleRises(alpha, minSamples, ss, s);
      }
    } else {
      var ss, s := PlateauFlagged(alpha, minSamples);
    }
  }
}

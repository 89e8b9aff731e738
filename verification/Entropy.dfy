/** Shannon entropies of payload bytes and of binned inter-arrival times, for any
    function `log2` with the laws of the binary logarithm that are used. */
module Entropy {
  import opened RealFacts

  type Log = real -> real

  ghost predicate ProductLaw(log2: Log, x: real, y: real) {
    x > 0.0 && y > 0.0 ==> log2(Mul(x, y)) == log2(x) + log2(y)
  }

  /** The graph stays below its tangent in 1. */
  ghost predicate TangentBound(log2: Log, slope: real, x: real) {
    x > 0.0 ==> log2(x) <= Mul(slope, x - 1.0)
  }

  ghost predicate IsLog2(log2: Log, slope: real) {
    && slope > 0.0 && log2(2.0) == 1.0
    && (forall x, y :: ProductLaw(log2, x, y))
    && (forall x :: TangentBound(log2, slope, x))
  }

  lemma LogOfOne(log2: Log, slope: real)
    requires IsLog2(log2, slope)
    ensures log2(1.0) == 0.0
  {
    assert ProductLaw(log2, 1.0, 1.0);
    assert Mul(1.0, 1.0) == 1.0;
  }

  lemma LogOfPowers(log2: Log, slope: real)
    requires IsLog2(log2, slope)
    ensures log2(16.0) == 4.0 && log2(256.0) == 8.0
  {
    assert ProductLaw(log2, 2.0, 2.0) && ProductLaw(log2, 4.0, 4.0) && ProductLaw(log2, 16.0, 16.0);
    assert Mul(2.0, 2.0) == 4.0 && Mul(4.0, 4.0) == 16.0 && Mul(16.0, 16.0) == 256.0;
  }

  // -------------------------------------------------------- entropy of a histogram

  function Share(count: nat, total: nat): real
    requires total > 0
  {
    count as real / total as real
  }

  /** One summand, -p log2 p. */
  function Summand(log2: Log, p: real): real {
    -Mul(p, log2(p))
  }

  /** Empty bins are skipped. */
  function HistogramEntropy(log2: Log, counts: seq<nat>, total: nat): real
    requires total > 0
  {
    if counts == [] then 0.0
    else
      var count := counts[|counts| - 1];
      HistogramEntropy(log2, counts[..|counts| - 1], total)
      + (if count > 0 then Summand(log2, Share(count, total)) else 0.0)
  }

  lemma {:induction false} HistogramNext(log2: Log, counts: seq<nat>, j: nat, total: nat)
    requires total > 0 && j < |counts|
    ensures HistogramEntropy(log2, counts[..j + 1], total)
         == HistogramEntropy(log2, counts[..j], total)
            + (if counts[j] > 0 then Summand(log2, Share(counts[j], total)) else 0.0)
  {
    assert counts[..j + 1][..j] == counts[..j] && counts[..j + 1][j] == counts[j];
  }

  function Total(counts: seq<nat>): nat {
    if counts == [] then 0 else Total(counts[..|counts| - 1]) + counts[|counts| - 1]
  }

  function Shares(counts: seq<nat>, total: nat): real
    requires total > 0
  {
    if counts == [] then 0.0
    else Shares(counts[..|counts| - 1], total) + Share(counts[|counts| - 1], total)
  }

  lemma ShareAdds(a: nat, b: nat, total: nat)
    requires total > 0
    ensures Share(a + b, total) == Share(a, total) + Share(b, total)
  {
    var n := total as real;
    assert (a + b) as real == a as real + b as real;
    assert (a as real + b as real) / n == a as real / n + b as real / n;
  }

  lemma {:induction false} SharesOfTotal(counts: seq<nat>, total: nat)
    requires total > 0
    ensures Shares(counts, total) == Share(Total(counts), total)
  {
    if counts != [] {
      var init, last := counts[..|counts| - 1], counts[|counts| - 1];
      SharesOfTotal(init, total);
      ShareAdds(Total(init), last, total);
    } else {
      assert Share(0, total) == 0.0;
    }
  }

  lemma ShareWithinOne(count: nat, total: nat)
    requires 0 < total
    ensures 0 < count ==> Share(count, total) > 0.0
    ensures count <= total ==> Share(count, total) <= 1.0
    ensures Share(count, total) == 1.0 <==> count == total
  {
    var p, n, c := Share(count, total), total as real, count as real;
    assert p * n == c;
    if count <= total {
      QuotientBetween(c, n, 0.0, 1.0);
    }
    assert p == 1.0 ==> p * n == n;
  }

  /** A summand is never negative, and vanishes only for a certain event. */
  lemma SummandSign(log2: Log, slope: real, p: real)
    requires IsLog2(log2, slope) && 0.0 < p <= 1.0
    ensures Summand(log2, p) >= 0.0 && (Summand(log2, p) == 0.0 <==> p == 1.0)
  {
    if p == 1.0 {
      LogOfOne(log2, slope);
    } else {
      assert TangentBound(log2, slope, p);
      NegativeProduct(slope, p - 1.0);
      NegativeProduct(p, log2(p));
    }
  }

  lemma NegativeProduct(a: real, b: real)
    requires a > 0.0 && b < 0.0
    ensures Mul(a, b) < 0.0
  {
    assert Mul(a, -b) > 0.0;
    assert Mul(a, b) == -Mul(a, -b);
  }

  lemma {:induction false} CountBelowTotal(counts: seq<nat>, i: nat)
    requires i < |counts|
    ensures counts[i] <= Total(counts)
  {
    if i < |counts| - 1 {
      CountBelowTotal(counts[..|counts| - 1], i);
    }
  }

  /** The entropy is never negative, and zero exactly when one bin holds everything. */
  lemma {:induction false} EntropyZeroIff(log2: Log, slope: real, counts: seq<nat>, total: nat)
    requires IsLog2(log2, slope) && total > 0
    requires forall i :: 0 <= i < |counts| ==> counts[i] <= total
    ensures HistogramEntropy(log2, counts, total) >= 0.0
    ensures HistogramEntropy(log2, counts, total) == 0.0
            <==> forall i :: 0 <= i < |counts| ==> counts[i] == 0 || counts[i] == total
  {
    if counts != [] {
      var n := |counts| - 1;
      var init, last := counts[..n], counts[n];
      assert forall i :: 0 <= i < n ==> init[i] == counts[i];
      EntropyZeroIff(log2, slope, init, total);
      if last > 0 {
        ShareWithinOne(last, total);
        SummandSign(log2, slope, Share(last, total));
      }
    }
  }

  /** The sum of c log2 c over the non-empty bins. */
  function LogSum(log2: Log, counts: seq<nat>): real {
    if counts == [] then 0.0
    else
      var count := counts[|counts| - 1];
      LogSum(log2, counts[..|counts| - 1]) + if count > 0 then Mul(count as real, log2(count as real)) else 0.0
  }

  /** One summand without its quotients. */
  lemma SummandTimesTotal(log2: Log, slope: real, count: nat, total: nat, n: real, c: real)
    requires IsLog2(log2, slope) && 0 < count && 0 < total && n == total as real && c == count as real
    ensures Mul(Summand(log2, Share(count, total)), n) == Mul(c, log2(n)) - Mul(c, log2(c))
  {
    var p := Share(count, total);
    ShareWithinOne(count, total);
    Quotient(c, n);
    assert ProductLaw(log2, p, n) && Mul(p, n) == c;
    SummandTimes(p, n, c, log2(p), log2(n), log2(c));
  }

  lemma SummandTimes(p: real, n: real, c: real, logP: real, logN: real, logC: real)
    requires Mul(p, n) == c && logC == logP + logN
    ensures Mul(-Mul(p, logP), n) == Mul(c, logN) - Mul(c, logC)
  {
    assert -(p * logP) * n == -((p * n) * logP);
  }

  lemma MulSum(a: real, b: real, c: real)
    ensures Mul(a + b, c) == Mul(a, c) + Mul(b, c)
  {
  }

  /** The entropy of a full histogram without quotients: n H is n log2 n less the sum of
      c log2 c over its bins. */
  lemma {:induction false} EntropyTimesTotal(log2: Log, slope: real, counts: seq<nat>, total: nat, n: real)
    requires IsLog2(log2, slope) && 0 < total && n == total as real
    ensures Mul(HistogramEntropy(log2, counts, total), n)
         == Mul(Total(counts) as real, log2(n)) - LogSum(log2, counts)
  {
    if counts != [] {
      var init, count := counts[..|counts| - 1], counts[|counts| - 1];
      EntropyTimesTotal(log2, slope, init, total, n);
      MulSum(Total(init) as real, count as real, log2(n));
      if count > 0 {
        SummandTimesTotal(log2, slope, count, total, n, count as real);
        MulSum(HistogramEntropy(log2, init, total), Summand(log2, Share(count, total)), n);
      }
    }
  }

  // ----------------------------------------------------------------- upper bound

  /** The bound on one summand, against n equally likely events. */
  function SummandBound(p: real, logN: real, slope: real, inv: real): real {
    Mul(p, logN) + Mul(slope, inv - p)
  }

  /** Gibbs' inequality for one summand. */
  lemma SummandBelow(log2: Log, slope: real, p: real, n: real, inv: real)
    requires IsLog2(log2, slope) && p > 0.0 && n > 0.0 && Mul(n, inv) == 1.0 && inv > 0.0
    ensures Summand(log2, p) <= SummandBound(p, log2(n), slope, inv)
  {
    var y := inv / p;
    assert Mul(p, y) == inv;
    assert y > 0.0;
    assert ProductLaw(log2, p, y) && ProductLaw(log2, n, inv);
    LogOfOne(log2, slope);
    assert log2(inv) == -log2(n) && log2(p) == log2(inv) - log2(y);
    assert TangentBound(log2, slope, y);
    MulMonotone(log2(n) + log2(y), log2(n) + Mul(slope, y - 1.0), p);
    SummandAlgebra(p, log2(p), log2(n), log2(y), slope, y, inv);
  }

  lemma SummandAlgebra(p: real, logP: real, logN: real, logY: real, slope: real, y: real, inv: real)
    requires logP == -logN - logY && Mul(p, y) == inv
    requires Mul(p, logN + logY) <= Mul(p, logN + Mul(slope, y - 1.0))
    ensures -Mul(p, logP) <= Mul(p, logN) + Mul(slope, inv - p)
  {
    assert -Mul(p, logP) == Mul(p, logN + logY) by { NegatedProduct(p, logP, logN + logY); }
    assert Mul(p, logN + Mul(slope, y - 1.0)) == Mul(p, logN) + Mul(p, Mul(slope, y - 1.0)) by {
      MulDistributes(p, logN, Mul(slope, y - 1.0));
    }
    assert Mul(p, Mul(slope, y - 1.0)) == Mul(slope, Mul(p, y) - p) by { MulSwaps(p, slope, y); }
  }

  lemma NegatedProduct(p: real, a: real, b: real)
    requires a == -b
    ensures -Mul(p, a) == Mul(p, b)
  {
  }

  lemma MulDistributes(p: real, a: real, b: real)
    ensures Mul(p, a + b) == Mul(p, a) + Mul(p, b)
  {
  }

  lemma MulSwaps(p: real, slope: real, y: real)
    ensures Mul(p, Mul(slope, y - 1.0)) == Mul(slope, Mul(p, y) - p)
  {
  }

  /** Sums of the bounds over non-empty bins. */
  function Bounds(counts: seq<nat>, total: nat, logN: real, slope: real, inv: real): real
    requires total > 0
  {
    if counts == [] then 0.0
    else
      var count := counts[|counts| - 1];
      Bounds(counts[..|counts| - 1], total, logN, slope, inv)
      + (if count > 0 then SummandBound(Share(count, total), logN, slope, inv) else 0.0)
  }

  lemma {:induction false} EntropyBelowBounds(log2: Log, slope: real, counts: seq<nat>, total: nat,
                                              n: real, inv: real)
    requires IsLog2(log2, slope) && total > 0 && n > 0.0 && Mul(n, inv) == 1.0 && inv > 0.0
    ensures HistogramEntropy(log2, counts, total) <= Bounds(counts, total, log2(n), slope, inv)
  {
    if counts != [] {
      var last := counts[|counts| - 1];
      EntropyBelowBounds(log2, slope, counts[..|counts| - 1], total, n, inv);
      if last > 0 {
        ShareWithinOne(last, total);
        SummandBelow(log2, slope, Share(last, total), n, inv);
      }
    }
  }

  function NonEmptyBins(counts: seq<nat>): nat {
    if counts == [] then 0
    else NonEmptyBins(counts[..|counts| - 1]) + (if counts[|counts| - 1] > 0 then 1 else 0)
  }

  lemma {:induction false} FewNonEmptyBins(counts: seq<nat>)
    ensures NonEmptyBins(counts) <= |counts|
  {
    if counts != [] {
      FewNonEmptyBins(counts[..|counts| - 1]);
    }
  }

  /** The sum of the bounds in closed form: shares times log n, plus the excess of the
      number of non-empty bins. */
  lemma {:induction false} BoundsClosed(counts: seq<nat>, total: nat, logN: real, slope: real, inv: real)
    requires total > 0
    ensures Bounds(counts, total, logN, slope, inv)
         == Mul(Shares(counts, total), logN)
            + Mul(slope, Mul(NonEmptyBins(counts) as real, inv) - Shares(counts, total))
  {
    if counts == [] {
      assert Mul(0.0, inv) == 0.0 && Mul(slope, 0.0 - 0.0) == 0.0;
    } else {
      var init, last := counts[..|counts| - 1], counts[|counts| - 1];
      BoundsClosed(init, total, logN, slope, inv);
      if last > 0 {
        AddBound(Shares(init, total), Share(last, total), logN, slope,
                 NonEmptyBins(init) as real, inv, NonEmptyBins(counts) as real);
      } else {
        assert Share(last, total) == 0.0;
      }
    }
  }

  lemma AddBound(s: real, p: real, logN: real, slope: real, k: real, inv: real, k': real)
    requires k' == k + 1.0
    ensures Mul(s, logN) + Mul(slope, Mul(k, inv) - s) + SummandBound(p, logN, slope, inv)
         == Mul(s + p, logN) + Mul(slope, Mul(k', inv) - (s + p))
  {
    assert Mul(s + p, logN) == Mul(s, logN) + Mul(p, logN);
    assert Mul(k', inv) == Mul(k, inv) + inv;
    MulDistributes(slope, Mul(k, inv) - s, inv - p);
    assert (Mul(k, inv) - s) + (inv - p) == Mul(k', inv) - (s + p);
  }

  /** The entropy of a full histogram over at most n bins is at most log2 n. */
  lemma {:induction false} EntropyAtMost(log2: Log, slope: real, counts: seq<nat>, total: nat, n: nat)
    requires IsLog2(log2, slope) && total > 0 && n > 0
    requires Total(counts) == total && |counts| <= n
    ensures HistogramEntropy(log2, counts, total) <= log2(n as real)
  {
    var N := n as real;
    var inv := 1.0 / N;
    var k := NonEmptyBins(counts) as real;
    assert Mul(N, inv) == 1.0 && inv > 0.0;
    EntropyBelowBounds(log2, slope, counts, total, N, inv);
    BoundsClosed(counts, total, log2(N), slope, inv);
    SharesOfTotal(counts, total);
    ShareWithinOne(total, total);
    FewNonEmptyBins(counts);
    NoExcess(k, N, inv, slope);
    assert Mul(1.0, log2(N)) == log2(N);
  }

  lemma NoExcess(k: real, n: real, inv: real, slope: real)
    requires 0.0 <= k <= n && Mul(n, inv) == 1.0 && inv > 0.0 && slope > 0.0
    ensures Mul(slope, Mul(k, inv) - 1.0) <= 0.0
  {
    MulMonotone(k, n, inv);
    var e := Mul(k, inv) - 1.0;
    if e < 0.0 {
      NegativeProduct(slope, e);
    }
  }

  // ---------------------------------------------------------------- payload bytes

  newtype Byte = b: int | 0 <= b < 256

  function Count(b: Byte, data: seq<Byte>): nat {
    if data == [] then 0
    else Count(b, data[..|data| - 1]) + (if data[|data| - 1] == b then 1 else 0)
  }

  /** The bytes that occur, in the order of their first occurrence. */
  function Distinct(data: seq<Byte>): (keys: seq<Byte>)
    ensures forall b :: b in keys <==> b in data
    ensures forall i, j :: 0 <= i < j < |keys| ==> keys[i] != keys[j]
  {
    if data == [] then []
    else
      var init, b := data[..|data| - 1], data[|data| - 1];
      var keys := Distinct(init);
      assert data == init + [b];
      if b in keys then keys else keys + [b]
  }

  function CountsOf(keys: seq<Byte>, data: seq<Byte>): (counts: seq<nat>)
    ensures |counts| == |keys| && forall i :: 0 <= i < |keys| ==> counts[i] == Count(keys[i], data)
  {
    seq(|keys|, i requires 0 <= i < |keys| => Count(keys[i], data))
  }

  function ByteEntropy(log2: Log, data: seq<Byte>): real {
    if data == [] then 0.0
    else HistogramEntropy(log2, CountsOf(Distinct(data), data), |data|)
  }

  lemma {:induction false} CountPositiveIff(b: Byte, data: seq<Byte>)
    ensures Count(b, data) > 0 <==> b in data
    ensures Count(b, data) <= |data|
    ensures Count(b, data) == |data| <==> forall i :: 0 <= i < |data| ==> data[i] == b
  {
    if data != [] {
      var init := data[..|data| - 1];
      CountPositiveIff(b, init);
      assert data == init + [data[|data| - 1]];
      assert forall i :: 0 <= i < |init| ==> init[i] == data[i];
    }
  }

  lemma DistinctNext(data: seq<Byte>, i: nat)
    requires i < |data|
    ensures var keys := Distinct(data[..i]);
            Distinct(data[..i + 1]) == if data[i] in keys then keys else keys + [data[i]]
  {
    assert data[..i + 1][..i] == data[..i] && data[..i + 1][i] == data[i];
  }

  lemma {:induction false} CountNext(b: Byte, data: seq<Byte>, i: nat)
    requires i < |data|
    ensures Count(b, data[..i + 1]) == Count(b, data[..i]) + (if data[i] == b then 1 else 0)
  {
    assert data[..i + 1][..i] == data[..i] && data[..i + 1][i] == data[i];
  }

  /** The counter of the payload: its distinct bytes, and how often each occurs. */
  method CountBytes(data: seq<Byte>) returns (keys: seq<Byte>, counts: map<Byte, nat>)
    ensures keys == Distinct(data)
    ensures forall b :: b in counts <==> b in keys
    ensures forall b :: b in counts ==> counts[b] == Count(b, data)
  {
    keys, counts := [], map[];
    for i := 0 to |data|
      invariant keys == Distinct(data[..i])
      invariant forall b :: b in counts <==> b in keys
      invariant forall b :: b in counts ==> counts[b] == Count(b, data[..i])
    {
      var b := data[i];
      DistinctNext(data, i);
      CountPositiveIff(b, data[..i]);
      forall x: Byte
        ensures Count(x, data[..i + 1]) == Count(x, data[..i]) + (if b == x then 1 else 0)
      {
        CountNext(x, data, i);
      }
      if b in counts {
        counts := counts[b := counts[b] + 1];
      } else {
        keys, counts := keys + [b], counts[b := 1];
      }
    }
    assert data[..|data|] == data;
  }

  /** The counter, then the sum over its values. */
  method CalculateShannonEntropy(log2: Log, data: seq<Byte>) returns (entropy: real)
    ensures entropy == ByteEntropy(log2, data)
  {
    if data == [] {
      return 0.0;
    }
    var keys, counts := CountBytes(data);
    ghost var histogram := CountsOf(keys, data);
    entropy := 0.0;
    for j := 0 to |keys|
      invariant entropy == HistogramEntropy(log2, histogram[..j], |data|)
    {
      var p := Share(counts[keys[j]], |data|);
      entropy := entropy - Mul(p, log2(p));
      CountPositiveIff(keys[j], data);
      HistogramNext(log2, histogram, j, |data|);
    }
    assert histogram[..|keys|] == histogram;
  }

  lemma {:induction false} TotalSingleUpdate(a: seq<nat>, c: seq<nat>, i: nat)
    requires i < |a| == |c| && c == a[i := a[i] + 1]
    ensures Total(c) == Total(a) + 1
  {
    var n := |a| - 1;
    if i < n {
      assert c[..n] == a[..n][i := a[i] + 1];
      TotalSingleUpdate(a[..n], c[..n], i);
    } else {
      assert c[..n] == a[..n];
    }
  }

  /** The count of a byte is its multiplicity. */
  lemma {:induction false} CountIsMultiplicity(b: Byte, data: seq<Byte>)
    ensures Count(b, data) == multiset(data)[b]
  {
    if data != [] {
      var init := data[..|data| - 1];
      CountIsMultiplicity(b, init);
      assert data == init + [data[|data| - 1]];
    }
  }

  /** Every byte is counted once. */
  lemma {:induction false} CountsAddUp(data: seq<Byte>)
    ensures Total(CountsOf(Distinct(data), data)) == |data|
  {
    if data != [] {
      var init, b := data[..|data| - 1], data[|data| - 1];
      var before := CountsOf(Distinct(init), init);
      CountsAddUp(init);
      if b in Distinct(init) {
        var i :| 0 <= i < |Distinct(init)| && Distinct(init)[i] == b;
        assert CountsOf(Distinct(data), data) == before[i := before[i] + 1];
        TotalSingleUpdate(before, CountsOf(Distinct(data), data), i);
      } else {
        CountPositiveIff(b, init);
        var after := CountsOf(Distinct(data), data);
        assert after[..|after| - 1] == before;
      }
    }
  }

  lemma FewDistinct(keys: seq<int>, n: nat)
    requires forall i :: 0 <= i < |keys| ==> 0 <= keys[i] < n
    requires forall i, j :: 0 <= i < j < |keys| ==> keys[i] != keys[j]
    ensures |keys| <= n
    decreases n
  {
    if keys != [] {
      assert keys[0] < n;
      if forall i :: 0 <= i < |keys| ==> keys[i] != n - 1 {
        FewDistinct(keys, n - 1);
      } else {
        var i :| 0 <= i < |keys| && keys[i] == n - 1;
        FewDistinct(keys[..i] + keys[i + 1..], n - 1);
      }
    }
  }

  lemma AtMost256(keys: seq<Byte>)
    requires forall i, j :: 0 <= i < j < |keys| ==> keys[i] != keys[j]
    ensures |keys| <= 256
  {
    var ints := seq(|keys|, i requires 0 <= i < |keys| => keys[i] as int);
    FewDistinct(ints, 256);
  }

  /** The entropy of a payload of n bytes, without quotients. */
  lemma {:induction false} ByteEntropyIs(log2: Log, slope: real, data: seq<Byte>)
    requires IsLog2(log2, slope)
    ensures var n := |data| as real;
            data != [] ==>
              Mul(ByteEntropy(log2, data), n) == Mul(n, log2(n)) - LogSum(log2, CountsOf(Distinct(data), data))
  {
    if data != [] {
      CountsAddUp(data);
      EntropyTimesTotal(log2, slope, CountsOf(Distinct(data), data), |data|, |data| as real);
    }
  }

  /** For every payload the entropy lies between 0 and 8, and is 0 exactly when no two
      of its bytes differ. */
  lemma ByteEntropyBounds(log2: Log, slope: real, data: seq<Byte>)
    requires IsLog2(log2, slope)
    ensures 0.0 <= ByteEntropy(log2, data) <= 8.0
    ensures ByteEntropy(log2, data) == 0.0
            <==> forall i, j :: 0 <= i < |data| && 0 <= j < |data| ==> data[i] == data[j]
  {
    if data != [] {
      var keys := Distinct(data);
      var counts := CountsOf(keys, data);
      CountsAddUp(data);
      AtMost256(keys);
      LogOfPowers(log2, slope);
      EntropyAtMost(log2, slope, counts, |data|, 256);
      forall i | 0 <= i < |counts|
        ensures 0 < counts[i] <= |data|
        ensures counts[i] == |data| <==> forall j :: 0 <= j < |data| ==> data[j] == keys[i]
      {
        CountPositiveIff(keys[i], data);
        assert keys[i] in keys;
      }
      EntropyZeroIff(log2, slope, counts, |data|);
      OneKeyIff(data, counts);
    }
  }

  lemma {:induction false} OneKeyIff(data: seq<Byte>, counts: seq<nat>)
    requires data != [] && counts == CountsOf(Distinct(data), data)
    requires forall i :: 0 <= i < |counts| ==>
      0 < counts[i]
      && (counts[i] == |data| <==> forall j :: 0 <= j < |data| ==> data[j] == Distinct(data)[i])
    ensures (forall i :: 0 <= i < |counts| ==> counts[i] == 0 || counts[i] == |data|)
            <==> forall i, j :: 0 <= i < |data| && 0 <= j < |data| ==> data[i] == data[j]
  {
    var keys := Distinct(data);
    assert data[0] in keys;
    var k :| 0 <= k < |keys| && keys[k] == data[0];
    if forall i, j :: 0 <= i < |data| && 0 <= j < |data| ==> data[i] == data[j] {
      forall i | 0 <= i < |counts|
        ensures counts[i] == |data|
      {
        assert keys[i] in data;
      }
    }
  }

  // ------------------------------------------------------------ inter-arrival times

  const EDGES: seq<real> :=
    [0.0, 1.0, 5.0, 10.0, 25.0, 50.0, 100.0, 250.0, 500.0,
     1000.0, 2000.0, 3000.0, 5000.0, 10000.0, 30000.0, 60000.0]

  /** Bin k holds the times from edge k up to the next edge; the last has no upper end. */
  predicate InBin(k: nat, gap: real)
    requires k < 16
  {
    EDGES[k] <= gap && (k < 15 ==> gap < EDGES[k + 1])
  }

  function BinFrom(gap: real, k: nat): (b: nat)
    requires k <= 16
    ensures k <= b <= 16 && (b < 16 ==> InBin(b, gap))
    ensures forall i :: k <= i < b ==> !InBin(i, gap)
    decreases 16 - k
  {
    if k < 16 && !InBin(k, gap) then BinFrom(gap, k + 1) else k
  }

  /** One more entry in the gap's bin, if it has one. */
  function Binned(counts: seq<nat>, gap: real): (r: seq<nat>)
    requires |counts| == 16
    ensures |r| == 16
  {
    var b := BinFrom(gap, 0);
    if b < 16 then counts[b := counts[b] + 1] else counts
  }

  function IatBins(gaps: seq<real>): (counts: seq<nat>)
    ensures |counts| == 16
  {
    if gaps == [] then seq(16, _ => 0) else Binned(IatBins(gaps[..|gaps| - 1]), gaps[|gaps| - 1])
  }

  function IatEntropy(log2: Log, gaps: seq<real>): real {
    if |gaps| < 2 then 0.0 else HistogramEntropy(log2, IatBins(gaps), |gaps|)
  }

  /** The bins are tried in the order of their edges. */
  method FirstBin(gap: real) returns (i: nat)
    ensures i == BinFrom(gap, 0)
  {
    i := 0;
    while i < 16 && !InBin(i, gap)
      invariant 0 <= i <= 16 && BinFrom(gap, 0) == BinFrom(gap, i)
    {
      i := i + 1;
    }
  }

  lemma IatBinsNext(gaps: seq<real>, g: nat)
    requires g < |gaps|
    ensures IatBins(gaps[..g + 1]) == Binned(IatBins(gaps[..g]), gaps[g])
  {
    assert gaps[..g + 1][..g] == gaps[..g] && gaps[..g + 1][g] == gaps[g];
  }

  method FillBins(gaps: seq<real>) returns (bins: seq<nat>)
    ensures bins == IatBins(gaps)
  {
    bins := seq(16, _ => 0);
    for g := 0 to |gaps|
      invariant |bins| == 16 && bins == IatBins(gaps[..g])
    {
      var i := FirstBin(gaps[g]);
      IatBinsNext(gaps, g);
      if i < 16 {
        bins := bins[i := bins[i] + 1];
      }
    }
    assert gaps[..|gaps|] == gaps;
  }

  method CalculateIatEntropy(log2: Log, gaps: seq<real>) returns (entropy: real, bins: seq<nat>)
    ensures entropy == IatEntropy(log2, gaps)
    ensures bins == if |gaps| < 2 then [] else IatBins(gaps)
  {
    if |gaps| < 2 {
      return 0.0, [];
    }
    bins := FillBins(gaps);
    entropy := 0.0;
    for k := 0 to |bins|
      invariant entropy == HistogramEntropy(log2, bins[..k], |gaps|)
    {
      HistogramNext(log2, bins, k, |gaps|);
      if bins[k] > 0 {
        var p := Share(bins[k], |gaps|);
        entropy := entropy - Mul(p, log2(p));
      }
    }
    assert bins[..|bins|] == bins;
  }

  lemma EdgesIncrease()
    ensures forall i, j :: 0 <= i < j < 16 ==> EDGES[i] < EDGES[j]
  {
  }

  lemma BinsAreDisjoint(gap: real, a: nat, b: nat)
    requires a < b < 16
    ensures !InBin(a, gap) || !InBin(b, gap)
  {
    EdgesIncrease();
    assert EDGES[a + 1] <= EDGES[b];
  }

  lemma {:induction false} SomeBinAbove(gap: real, k: nat)
    requires k < 16 && gap >= EDGES[k]
    ensures BinFrom(gap, k) < 16
    decreases 16 - k
  {
    if k < 15 && !InBin(k, gap) {
      SomeBinAbove(gap, k + 1);
    }
  }

  lemma {:induction false} BinOfNonNegative(gap: real)
    ensures BinFrom(gap, 0) < 16 <==> gap >= 0.0
  {
    EdgesIncrease();
    var b := BinFrom(gap, 0);
    if b < 16 {
      assert EDGES[0] == 0.0 && EDGES[0] <= EDGES[b];
    }
    if gap >= 0.0 {
      SomeBinAbove(gap, 0);
    }
  }

  /** A gap lies in the bin found first and in no other. */
  lemma {:induction false} BinIsUnique(gap: real, k: nat)
    requires k < 16
    ensures InBin(k, gap) <==> BinFrom(gap, 0) == k
  {
    var b := BinFrom(gap, 0);
    if b < k {
      BinsAreDisjoint(gap, b, k);
    }
  }

  function InBinCount(k: nat, gaps: seq<real>): nat
    requires k < 16
  {
    if gaps == [] then 0
    else InBinCount(k, gaps[..|gaps| - 1]) + (if InBin(k, gaps[|gaps| - 1]) then 1 else 0)
  }

  predicate AllNonNegative(gaps: seq<real>) {
    forall i :: 0 <= i < |gaps| ==> gaps[i] >= 0.0
  }

  lemma TotalZeros(n: nat)
    ensures Total(seq(n, _ => 0)) == 0
  {
    if n > 0 {
      TotalZeros(n - 1);
      assert seq(n, _ => 0)[..n - 1] == seq(n - 1, _ => 0);
    }
  }

  /** Each bin counts the gaps within its edges. */
  lemma {:induction false} BinsCount(gaps: seq<real>, k: nat)
    requires k < 16
    ensures IatBins(gaps)[k] == InBinCount(k, gaps)
  {
    if gaps != [] {
      BinsCount(gaps[..|gaps| - 1], k);
      BinIsUnique(gaps[|gaps| - 1], k);
    }
  }

  lemma NonNegativeSnoc(gaps: seq<real>)
    requires gaps != []
    ensures AllNonNegative(gaps) <==> AllNonNegative(gaps[..|gaps| - 1]) && gaps[|gaps| - 1] >= 0.0
  {
    assert gaps == gaps[..|gaps| - 1] + [gaps[|gaps| - 1]];
  }

  /** Together the bins count every gap, exactly when no gap is negative. */
  lemma {:induction false} BinsPartition(gaps: seq<real>)
    ensures Total(IatBins(gaps)) <= |gaps|
    ensures Total(IatBins(gaps)) == |gaps| <==> AllNonNegative(gaps)
  {
    if gaps == [] {
      TotalZeros(16);
    } else {
      var init, gap := gaps[..|gaps| - 1], gaps[|gaps| - 1];
      BinsPartition(init);
      NonNegativeSnoc(gaps);
      BinOfNonNegative(gap);
      var b := BinFrom(gap, 0);
      if b < 16 {
        TotalSingleUpdate(IatBins(init), IatBins(gaps), b);
      }
    }
  }

  /** For every list of non-negative gaps the entropy lies between 0 and 4. */
  lemma IatEntropyBounds(log2: Log, slope: real, gaps: seq<real>)
    requires IsLog2(log2, slope) && AllNonNegative(gaps)
    ensures 0.0 <= IatEntropy(log2, gaps) <= 4.0
  {
    if |gaps| >= 2 {
      var bins := IatBins(gaps);
      BinsPartition(gaps);
      LogOfPowers(log2, slope);
      EntropyAtMost(log2, slope, bins, |gaps|, 16);
      BinsBelowTotal(bins, |gaps|);
      EntropyZeroIff(log2, slope, bins, |gaps|);
    }
  }

  /** The entropy of n non-negative times, n at least 2, without quotients. */
  lemma {:induction false} IatEntropyIs(log2: Log, slope: real, gaps: seq<real>)
    requires IsLog2(log2, slope) && AllNonNegative(gaps) && |gaps| >= 2
    ensures var n := |gaps| as real;
            Mul(IatEntropy(log2, gaps), n) == Mul(n, log2(n)) - LogSum(log2, IatBins(gaps))
  {
    BinsPartition(gaps);
    EntropyTimesTotal(log2, slope, IatBins(gaps), |gaps|, |gaps| as real);
  }

  lemma {:induction false} BinsBelowTotal(bins: seq<nat>, total: nat)
    requires Total(bins) <= total
    ensures forall i :: 0 <= i < |bins| ==> bins[i] <= total
  {
    forall i | 0 <= i < |bins|
      ensures bins[i] <= total
    {
      CountBelowTotal(bins, i);
    }
  }

  /** For two or more gaps it is 0 exactly when they all share one bin. */
  lemma IatEntropyZeroIff(log2: Log, slope: real, gaps: seq<real>)
    requires IsLog2(log2, slope) && AllNonNegative(gaps) && |gaps| >= 2
    ensures IatEntropy(log2, gaps) == 0.0
            <==> forall i, j :: 0 <= i < |gaps| && 0 <= j < |gaps| ==> BinFrom(gaps[i], 0) == BinFrom(gaps[j], 0)
  {
    var bins := IatBins(gaps);
    BinsPartition(gaps);
    BinsBelowTotal(bins, |gaps|);
    EntropyZeroIff(log2, slope, bins, |gaps|);
    forall k | 0 <= k < 16
      ensures bins[k] == InBinCount(k, gaps)
    {
      BinsCount(gaps, k);
    }
    OneBinIff(gaps, bins);
  }

  lemma {:induction false} NoneInBinIff(k: nat, gaps: seq<real>)
    requires k < 16
    ensures InBinCount(k, gaps) == 0 <==> forall i :: 0 <= i < |gaps| ==> BinFrom(gaps[i], 0) != k
  {
    if gaps != [] {
      var init := gaps[..|gaps| - 1];
      NoneInBinIff(k, init);
      BinIsUnique(gaps[|gaps| - 1], k);
      assert forall i :: 0 <= i < |init| ==> init[i] == gaps[i];
    }
  }

  lemma {:induction false} AllInBinIff(k: nat, gaps: seq<real>)
    requires k < 16
    ensures InBinCount(k, gaps) <= |gaps|
    ensures InBinCount(k, gaps) == |gaps| <==> forall i :: 0 <= i < |gaps| ==> BinFrom(gaps[i], 0) == k
  {
    if gaps != [] {
      var init := gaps[..|gaps| - 1];
      AllInBinIff(k, init);
      BinIsUnique(gaps[|gaps| - 1], k);
      assert forall i :: 0 <= i < |init| ==> init[i] == gaps[i];
    }
  }

  lemma {:induction false} OneBinIff(gaps: seq<real>, bins: seq<nat>)
    requires gaps != [] && AllNonNegative(gaps) && |bins| == 16
    requires forall k :: 0 <= k < 16 ==> bins[k] == InBinCount(k, gaps)
    ensures (forall k :: 0 <= k < 16 ==> bins[k] == 0 || bins[k] == |gaps|)
            <==> forall i, j :: 0 <= i < |gaps| && 0 <= j < |gaps| ==> BinFrom(gaps[i], 0) == BinFrom(gaps[j], 0)
  {
    var b := BinFrom(gaps[0], 0);
    BinOfNonNegative(gaps[0]);
    NoneInBinIff(b, gaps);
    AllInBinIff(b, gaps);
    if bins[b] == |gaps| {
      forall k | 0 <= k < 16 && k != b
        ensures bins[k] == 0
      {
        NoneInBinIff(k, gaps);
      }
    }
  }
}

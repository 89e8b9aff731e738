/** What the fields of a report say about the packets of its window, and when its volume
    is called an anomaly, read off the packets and off the samples reported before. */
module FlowFacts {
  import opened RealFacts
  import opened FlowSegmentation
  import opened FlowTable
  import opened FlowReport
  import opened Ewma

  // ------------------------------------------------------------- lists of numbers

  /** Extremes, mean, variances and third moment of a list that is not empty. */
  ghost predicate StatsTold(st: Moments.Stats, xs: seq<real>)
    requires xs != []
  {
    var n, c, s2, s3 := |xs| as real, st.mean, Moments.SquareSum(xs), Moments.CubeSum(xs);
    && st.least in xs && st.greatest in xs
    && (forall i :: 0 <= i < |xs| ==> st.least <= xs[i] <= st.greatest)
    && Mul(n, c) == Moments.Sum(xs)
    && (|xs| == 1 ==> st == Moments.Stats(c, 0.0, c, c, 0.0, 0.0, false))
    && (|xs| > 1 ==>
          && Mul(n, st.m2) == s2 - Mul(n, Sq(c))
          && Mul(n - 1.0, st.sampleVariance) == s2 - Mul(n, Sq(c))
          && Mul(n, st.m3) == s3 - 3.0 * Mul(c, s2) + 2.0 * Mul(n, Cube(c))
          && (st.skewed <==> st.m2 > 0.000001))
  }

  lemma StatsTell(xs: seq<real>, st: Moments.Stats)
    requires xs != [] && st == Moments.DistributionStats(xs)
    ensures StatsTold(st, xs)
  {
    if |xs| == 1 {
      Moments.StatsOfFew(xs);
      Moments.MeanTimesCount(xs, 1.0, st.mean);
    } else {
      Moments.StatsFromPowers(xs, |xs| as real, st);
    }
  }

  // ------------------------------------------------------------------ one window

  /** The milliseconds between neighbouring packets, 0 where the later comes first. */
  function ClippedGaps(ps: seq<Packet>): (gaps: seq<real>)
    requires ps != []
    ensures |gaps| == |ps| - 1
  {
    seq(|ps| - 1, i requires 0 <= i < |ps| - 1 =>
      if ps[i + 1].timestamp > ps[i].timestamp then (ps[i + 1].timestamp - ps[i].timestamp) * 1000.0 else 0.0)
  }

  lemma GapsAreClipped(ps: seq<Packet>)
    requires ps != []
    ensures Moments.InterArrivals(Times(ps)) == ClippedGaps(ps)
  {
    forall i | 0 <= i < |ps| - 1
      ensures Moments.InterArrivals(Times(ps))[i] == ClippedGaps(ps)[i]
    {
      Moments.GapBetween(Times(ps), i);
    }
  }

  ghost predicate InOrder(ps: seq<Packet>) {
    forall i, j :: 0 <= i < j < |ps| ==> ps[i].timestamp <= ps[j].timestamp
  }

  /** First and last time stamp, their distance, the packets and the bytes. */
  ghost predicate TotalsTold(d: Description, ps: seq<Packet>)
    requires ps != []
  {
    var first, last := ps[0].timestamp, ps[|ps| - 1].timestamp;
    && d.startTime == first && d.endTime == last
    && d.durationMs == (last - first) * 1000.0
    && d.packetCount == |ps| && d.byteCount == Measured(SizeOf, ps)
  }

  ghost predicate SizesTold(d: Description, ps: seq<Packet>)
    requires ps != []
  {
    StatsTold(d.sizes, Sizes(ps)) && Mul(|ps| as real, d.sizes.mean) == d.byteCount as real
  }

  /** The gaps are those between neighbours; together they are at least the duration, and
      exactly the duration when, and only when, the packets are in order of time. */
  ghost predicate GapsTold(d: Description, ps: seq<Packet>)
    requires ps != []
  {
    var gaps := ClippedGaps(ps);
    && (gaps == [] ==> d.gaps == Moments.Stats(0.0, 0.0, 0.0, 0.0, 0.0, 0.0, false))
    && (gaps != [] ==>
          && StatsTold(d.gaps, gaps)
          && Mul(|gaps| as real, d.gaps.mean) >= d.durationMs
          && (Mul(|gaps| as real, d.gaps.mean) == d.durationMs <==> InOrder(ps)))
  }

  /** The fingerprint starts from the first packet's value, and tests all of them. */
  ghost predicate TtlTold(d: Description, ps: seq<Packet>)
    requires ps != []
  {
    var ttls, n := Ttls(ps), |ps| as real;
    && d.ttl.first == ps[0].ttl && d.ttl.origin == Ttl.DeduceInitialTtl(ps[0].ttl)
    && Mul(Sq(n), d.ttl.variance) == Ttl.Scatter(ttls) as real
    && (d.ttl.spoofed <==> Ttl.TwoBands(ttls) || Ttl.Scatter(ttls) as real > 4.0 * Sq(n))
  }

  /** What a report says of its window. */
  ghost predicate Told(d: Description, w: Window)
    requires w.packets != []
  {
    && d.key == w.key
    && TotalsTold(d, w.packets) && SizesTold(d, w.packets) && GapsTold(d, w.packets) && TtlTold(d, w.packets)
  }

  lemma {:induction false} SizesSum(ps: seq<Packet>)
    ensures Moments.Sum(Sizes(ps)) == Measured(SizeOf, ps) as real
  {
    if ps != [] {
      SizesSum(ps[..|ps| - 1]);
      assert Sizes(ps)[..|ps| - 1] == Sizes(ps[..|ps| - 1]);
    }
  }

  lemma {:induction false} SizesTell(ps: seq<Packet>, d: Description)
    requires ps != [] && d.sizes == Moments.DistributionStats(Sizes(ps)) && d.byteCount == Measured(SizeOf, ps)
    ensures SizesTold(d, ps)
  {
    StatsTell(Sizes(ps), d.sizes);
    SizesSum(ps);
  }

  lemma GapsSum(ps: seq<Packet>, duration: real)
    requires ps != [] && duration == (ps[|ps| - 1].timestamp - ps[0].timestamp) * 1000.0
    ensures Moments.Sum(ClippedGaps(ps)) >= duration
    ensures Moments.Sum(ClippedGaps(ps)) == duration <==> InOrder(ps)
  {
    GapsAreClipped(ps);
    Moments.GapsAddUpIffOrdered(Times(ps));
    OrderedTimes(ps, Times(ps));
  }

  lemma OrderedTimes(ps: seq<Packet>, ts: seq<real>)
    requires ts == Times(ps)
    ensures Moments.Ordered(ts) <==> InOrder(ps)
  {
    if Moments.Ordered(ts) {
      forall i, j | 0 <= i < j < |ps|
        ensures ps[i].timestamp <= ps[j].timestamp
      {
        assert ts[i] <= ts[j];
      }
    }
  }

  lemma GapsTell(ps: seq<Packet>, d: Description)
    requires ps != [] && d.gaps == Moments.DistributionStats(ClippedGaps(ps))
    requires d.durationMs == (ps[|ps| - 1].timestamp - ps[0].timestamp) * 1000.0
    ensures GapsTold(d, ps)
  {
    GapsSum(ps, d.durationMs);
    if |ps| == 1 {
      Moments.StatsOfFew([]);
    } else {
      StatsTell(ClippedGaps(ps), d.gaps);
    }
  }

  lemma TtlTell(ps: seq<Packet>, d: Description)
    requires ps != [] && d.ttl == FingerprintOf(Ttls(ps))
    ensures TtlTold(d, ps)
  {
    Ttl.TtlVarianceIs(Ttls(ps));
    Ttl.SpoofedInIntegers(Ttls(ps));
  }

  /** What every window is described by. */
  lemma DescriptionTells(log2: Entropy.Log, w: Window, d: Description)
    requires w.packets != [] && d == Describe(log2, w.key, w.packets)
    ensures Told(d, w)
  {
    var ps := w.packets;
    GapsAreClipped(ps);
    SizesTell(ps, d);
    GapsTell(ps, d);
    TtlTell(ps, d);
  }

  ghost predicate AllInBin(k: nat, gaps: seq<real>)
    requires k < 16
  {
    forall i :: 0 <= i < |gaps| ==> Entropy.InBin(k, gaps[i])
  }

  lemma SharedBin(gaps: seq<real>)
    requires gaps != [] && Entropy.AllNonNegative(gaps)
    ensures (exists k: nat :: k < 16 && AllInBin(k, gaps)) <==>
            forall i, j :: 0 <= i < |gaps| && 0 <= j < |gaps| ==>
              Entropy.BinFrom(gaps[i], 0) == Entropy.BinFrom(gaps[j], 0)
  {
    var b := Entropy.BinFrom(gaps[0], 0);
    Entropy.BinOfNonNegative(gaps[0]);
    forall i, k: nat | 0 <= i < |gaps| && k < 16
      ensures Entropy.InBin(k, gaps[i]) <==> Entropy.BinFrom(gaps[i], 0) == k
    {
      Entropy.BinIsUnique(gaps[i], k);
    }
    if forall i, j :: 0 <= i < |gaps| && 0 <= j < |gaps| ==>
         Entropy.BinFrom(gaps[i], 0) == Entropy.BinFrom(gaps[j], 0) {
      assert AllInBin(b, gaps);
    }
  }

  /** The entropy of the gaps: 0 for fewer than two and exactly when one bin takes them all,
      and n times it is n log2 n less the sum over the bins. */
  ghost predicate GapEntropyTold(log2: Entropy.Log, entropy: real, gaps: seq<real>) {
    var n := |gaps| as real;
    && (entropy == 0.0 <==> |gaps| < 2 || exists k: nat :: k < 16 && AllInBin(k, gaps))
    && (|gaps| >= 2 ==> Mul(entropy, n) == Mul(n, log2(n)) - Entropy.LogSum(log2, Entropy.IatBins(gaps)))
  }

  /** The entropy of the payload: 0 exactly when no two bytes differ, and the same with the
      numbers of occurrences of its bytes. */
  ghost predicate PayloadEntropyTold(log2: Entropy.Log, entropy: real, data: seq<Entropy.Byte>) {
    var n, counts := |data| as real, Entropy.CountsOf(Entropy.Distinct(data), data);
    && (entropy == 0.0 <==> forall i, j :: 0 <= i < |data| && 0 <= j < |data| ==> data[i] == data[j])
    && (data != [] ==> Mul(entropy, n) == Mul(n, log2(n)) - Entropy.LogSum(log2, counts))
  }

  lemma GapEntropyTells(log2: Entropy.Log, slope: real, gaps: seq<real>)
    requires Entropy.IsLog2(log2, slope) && Entropy.AllNonNegative(gaps)
    ensures GapEntropyTold(log2, Entropy.IatEntropy(log2, gaps), gaps)
  {
    if |gaps| >= 2 {
      Entropy.IatEntropyZeroIff(log2, slope, gaps);
      Entropy.IatEntropyIs(log2, slope, gaps);
      SharedBin(gaps);
    }
  }

  lemma PayloadEntropyTells(log2: Entropy.Log, slope: real, data: seq<Entropy.Byte>)
    requires Entropy.IsLog2(log2, slope)
    ensures PayloadEntropyTold(log2, Entropy.ByteEntropy(log2, data), data)
  {
    Entropy.ByteEntropyBounds(log2, slope, data);
    Entropy.ByteEntropyIs(log2, slope, data);
  }

  /** What every window's two entropies say, for every binary logarithm. */
  lemma {:induction false} EntropiesTell(log2: Entropy.Log, slope: real, key: Key, ps: seq<Packet>, d: Description)
    requires Entropy.IsLog2(log2, slope) && ps != [] && d == Describe(log2, key, ps)
    ensures GapEntropyTold(log2, d.gapEntropy, ClippedGaps(ps))
    ensures PayloadEntropyTold(log2, d.payloadEntropy, Payload(ps))
  {
    GapsAreClipped(ps);
    GapEntropyTells(log2, slope, ClippedGaps(ps));
    PayloadEntropyTells(log2, slope, Payload(ps));
  }

  // -------------------------------------------------------------------- the volume

  /** Packets and bytes per second, over no less than 1e-4 seconds. */
  ghost predicate Paced(s: Sample, ps: seq<Packet>)
    requires ps != []
  {
    var d := ps[|ps| - 1].timestamp - ps[0].timestamp;
    var seconds := if d > 0.0001 then d else 0.0001;
    Mul(s.pps, seconds) == |ps| as real && Mul(s.bps, seconds) == Measured(SizeOf, ps) as real
  }

  lemma SamplePaces(ps: seq<Packet>)
    requires ps != []
    ensures Paced(SampleOf(ps), ps)
  {
    var seconds := Seconds(StartTime(ps), EndTime(ps));
    Quotient(|ps| as real, seconds);
    Quotient(Measured(SizeOf, ps) as real, seconds);
  }

  /** The samples of the reports. */
  function Reported(fs: seq<Features>): (ss: seq<Sample>)
    ensures |ss| == |fs| && forall i :: 0 <= i < |ss| ==> ss[i] == fs[i].volume.sample
  {
    seq(|fs|, i requires 0 <= i < |fs| => fs[i].volume.sample)
  }

  /** A report is an anomaly exactly when enough are before it and its sample lies far above
      theirs, in packets or in bytes; its means are the weighted means up to it. */
  ghost predicate VolumeTold(alpha: real, minSamples: int, fs: seq<Features>, i: nat)
    requires i < |fs|
  {
    var v, before, upTo := fs[i].volume, Reported(fs)[..i], Reported(fs)[..i + 1];
    && (v.anomaly <==>
          0 < i && minSamples <= i + 1
          && (FarAbove(alpha, Pps(before), v.sample.pps) || FarAbove(alpha, Bps(before), v.sample.bps)))
    && v.meanPps == WeightedMean(alpha, Pps(upTo)) && v.meanBps == WeightedMean(alpha, Bps(upTo))
  }

  lemma {:induction false} SampleAt(ws: seq<Window>, i: nat)
    requires i < |ws|
    ensures SamplesOf(ws)[i] == SampleOf(ws[i].packets)
  {
    if i < |ws| - 1 {
      SampleAt(ws[..|ws| - 1], i);
    }
  }

  lemma ReportedIs(log2: Entropy.Log, ws: seq<Window>, b: Baseline, k: nat)
    requires k <= |ws|
    ensures Reported(Reports(log2, ws, b))[..k] == SamplesOf(ws[..k])
  {
    forall i | 0 <= i < k
      ensures Reported(Reports(log2, ws, b))[i] == SamplesOf(ws[..k])[i]
    {
      VolumeAt(log2, ws, b, i);
      SampleAt(ws[..k], i);
    }
  }

  lemma VolumeTells(log2: Entropy.Log, alpha: real, minSamples: int, ws: seq<Window>, i: nat,
                                       fs: seq<Features>)
    requires i < |ws| && fs == Reports(log2, ws, Fresh(alpha, minSamples))
    ensures VolumeTold(alpha, minSamples, fs, i)
  {
    var b, s := Fresh(alpha, minSamples), SampleOf(ws[i].packets);
    var before, upTo := SamplesOf(ws[..i]), SamplesOf(ws[..i + 1]);
    VolumeAt(log2, ws, b, i);
    ReportedIs(log2, ws, b, i);
    ReportedIs(log2, ws, b, i + 1);
    FlaggedIff(alpha, minSamples, before, s);
    assert ws[..i + 1][..i] == ws[..i];
    FedSnoc(b, before, s);
    MeansAre(alpha, minSamples, upTo);
  }
}

/** What is reported of a closed window, and the reports of many windows that share one
    volume baseline. */
module FlowReport {
  import opened FlowSegmentation
  import opened FlowTable
  import opened Ewma
  import opened Threading
  import Moments
  import Ttl

  datatype Fingerprint = Fingerprint(origin: Ttl.Origin, first: int, variance: real, spoofed: bool)

  datatype Volume = Volume(sample: Sample, meanPps: real, meanBps: real, anomaly: bool)

  /** What the window's packets alone determine. */
  datatype Description = Description(
    key: Key, startTime: real, endTime: real, durationMs: real, packetCount: nat, byteCount: nat,
    sizes: Moments.Stats, gaps: Moments.Stats, gapEntropy: real, ttl: Fingerprint, payloadEntropy: real)

  datatype Features = Features(about: Description, volume: Volume)

  function Times(ps: seq<Packet>): (ts: seq<real>)
    ensures |ts| == |ps| && forall i :: 0 <= i < |ts| ==> ts[i] == ps[i].timestamp
  {
    seq(|ps|, i requires 0 <= i < |ps| => ps[i].timestamp)
  }

  function Sizes(ps: seq<Packet>): (xs: seq<real>)
    ensures |xs| == |ps| && forall i :: 0 <= i < |xs| ==> xs[i] == ps[i].size as real
  {
    seq(|ps|, i requires 0 <= i < |ps| => ps[i].size as real)
  }

  function Ttls(ps: seq<Packet>): (xs: seq<int>)
    ensures |xs| == |ps| && forall i :: 0 <= i < |xs| ==> xs[i] == ps[i].ttl
  {
    seq(|ps|, i requires 0 <= i < |ps| => ps[i].ttl)
  }

  function SizeOf(p: Packet): nat {
    p.size
  }

  function One(p: Packet): nat {
    1
  }

  function PayloadLength(p: Packet): nat {
    |p.payload|
  }

  function Payload(ps: seq<Packet>): seq<Entropy.Byte> {
    if ps == [] then [] else Payload(ps[..|ps| - 1]) + ps[|ps| - 1].payload
  }

  function StartTime(ps: seq<Packet>): real {
    if ps == [] then 0.0 else ps[0].timestamp
  }

  function EndTime(ps: seq<Packet>): real {
    if ps == [] then 0.0 else LastTime(ps)
  }

  /** What a window keeps besides its packets. */
  datatype Totals = Totals(start: real, end: real, bytes: nat, payload: seq<Entropy.Byte>)

  function TotalsOf(ps: seq<Packet>): Totals {
    if ps == [] then Totals(0.0, 0.0, 0, [])
    else
      var n := |ps| - 1;
      var p, t := ps[n], TotalsOf(ps[..n]);
      Totals(if n == 0 then p.timestamp else t.start, p.timestamp, t.bytes + p.size, t.payload + p.payload)
  }

  lemma {:induction false} TotalsSnoc(ps: seq<Packet>, p: Packet)
    ensures var t := TotalsOf(ps);
            TotalsOf(ps + [p])
            == Totals(if ps == [] then p.timestamp else t.start, p.timestamp, t.bytes + p.size, t.payload + p.payload)
  {
    assert (ps + [p])[..|ps|] == ps;
  }

  /** They are first and last time stamp, sum of sizes and joined payloads. */
  lemma {:induction false} TotalsAre(ps: seq<Packet>)
    ensures TotalsOf(ps) == Totals(StartTime(ps), EndTime(ps), Measured(SizeOf, ps), Payload(ps))
  {
    if ps != [] {
      TotalsAre(ps[..|ps| - 1]);
    }
  }

  /** The length of the window in seconds, never below 1e-4. */
  function Seconds(start: real, end: real): (d: real)
    ensures d > 0.0
  {
    if end - start > 0.0001 then end - start else 0.0001
  }

  function Rate(amount: nat, seconds: real): real
    requires seconds > 0.0
  {
    amount as real / seconds
  }

  function SampleOf(ps: seq<Packet>): Sample {
    var seconds := Seconds(StartTime(ps), EndTime(ps));
    Sample(Rate(|ps|, seconds), Rate(Measured(SizeOf, ps), seconds))
  }

  function FingerprintOf(ttls: seq<int>): Fingerprint {
    var first := if ttls == [] then 64 else ttls[0];
    Fingerprint(Ttl.DeduceInitialTtl(first), first, Ttl.TtlVariance(ttls), Ttl.IsSpoofed(ttls))
  }

  /** The volume part compares the window with the baseline before it. */
  function VolumeOf(b: Baseline, s: Sample): Volume {
    Volume(s, Updated(b, s).pps.mean, Updated(b, s).bps.mean, Flags(b, s))
  }

  /** The description, from the window's totals and from what its packets list. */
  function Assemble(key: Key, start: real, end: real, count: nat, bytes: nat, sizes: seq<real>,
                    gaps: seq<real>, gapEntropy: real, ttls: seq<int>, payloadEntropy: real): Description {
    Description(
      key, start, end, if count <= 1 then 0.0 else (end - start) * 1000.0, count, bytes,
      Moments.DistributionStats(sizes), Moments.DistributionStats(gaps), gapEntropy,
      FingerprintOf(ttls), payloadEntropy)
  }

  function Describe(log2: Entropy.Log, key: Key, ps: seq<Packet>): Description {
    var gaps := Moments.InterArrivals(Times(ps));
    Assemble(key, StartTime(ps), EndTime(ps), |ps|, Measured(SizeOf, ps), Sizes(ps),
             gaps, Entropy.IatEntropy(log2, gaps), Ttls(ps), Entropy.ByteEntropy(log2, Payload(ps)))
  }

  function Report(log2: Entropy.Log, key: Key, ps: seq<Packet>, b: Baseline): Features {
    Features(Describe(log2, key, ps), VolumeOf(b, SampleOf(ps)))
  }

  // ------------------------------------------------------------- many windows in turn

  /** What a window's report does to the baseline. */
  function Absorb(b: Baseline, w: Window): Baseline {
    Updated(b, SampleOf(w.packets))
  }

  function Reporter(log2: Entropy.Log): (Baseline, Window) -> Features {
    (b: Baseline, w: Window) => Report(log2, w.key, w.packets, b)
  }

  /** The baseline after the windows. */
  function After(b: Baseline, ws: seq<Window>): Baseline {
    Folded(Absorb, b, ws)
  }

  /** Each window is compared with the baseline that all windows before it have left. */
  function Reports(log2: Entropy.Log, ws: seq<Window>, b: Baseline): (fs: seq<Features>)
    ensures |fs| == |ws|
  {
    Answers(Absorb, Reporter(log2), b, ws)
  }

  /** More windows are compared with the baseline the first ones have left. */
  lemma ReportsSum(log2: Entropy.Log, v: seq<Window>, w: seq<Window>, b: Baseline)
    ensures After(b, v + w) == After(After(b, v), w)
    ensures Reports(log2, v + w, b) == Reports(log2, v, b) + Reports(log2, w, After(b, v))
  {
    FoldedSum(Absorb, b, v, w);
    AnswersSum(Absorb, Reporter(log2), b, v, w);
  }

  /** The reports of the two stages of a packet are those of taking it in. */
  lemma ReportsInStages(log2: Entropy.Log, l: Limits, t: Table, p: Packet, b: Baseline)
    ensures var first := Prepare(l, t, p);
            var last := Settle(l, Extended(first.table, p), p.key);
            && Ingest(l, t, p).table == last.table
            && After(b, Ingest(l, t, p).emitted) == After(After(b, first.emitted), last.emitted)
            && Reports(log2, Ingest(l, t, p).emitted, b)
               == Reports(log2, first.emitted, b) + Reports(log2, last.emitted, After(b, first.emitted))
  {
    var first := Prepare(l, t, p);
    var last := Settle(l, Extended(first.table, p), p.key);
    IngestInStages(l, t, p);
    ReportsSum(log2, first.emitted, last.emitted, b);
  }

  /** The baseline has taken in one sample of each window, in their order. */
  function SamplesOf(ws: seq<Window>): (ss: seq<Sample>)
    ensures |ss| == |ws|
  {
    if ws == [] then [] else SamplesOf(ws[..|ws| - 1]) + [SampleOf(ws[|ws| - 1].packets)]
  }

  lemma {:induction false} FedSnoc(b: Baseline, ss: seq<Sample>, s: Sample)
    ensures Fed(b, ss + [s]) == Updated(Fed(b, ss), s)
  {
  }

  lemma {:induction false} AfterIsFed(b: Baseline, ws: seq<Window>)
    ensures After(b, ws) == Fed(b, SamplesOf(ws))
  {
    if ws != [] {
      var n := |ws| - 1;
      AfterIsFed(b, ws[..n]);
      FedSnoc(b, SamplesOf(ws[..n]), SampleOf(ws[n].packets));
    }
  }

  lemma {:induction false} FedCounts(b: Baseline, ss: seq<Sample>)
    ensures Fed(b, ss).count == b.count + |ss|
    ensures Fed(b, ss).alpha == b.alpha && Fed(b, ss).minSamples == b.minSamples
  {
    if ss != [] {
      FedCounts(b, ss[..|ss| - 1]);
    }
  }

  /** Each window updates the baseline exactly once. */
  lemma AfterCounts(b: Baseline, ws: seq<Window>)
    ensures After(b, ws).count == b.count + |ws|
  {
    AfterIsFed(b, ws);
    FedCounts(b, SamplesOf(ws));
  }

  lemma {:induction false} VolumeAt(log2: Entropy.Log, ws: seq<Window>, b: Baseline, i: nat)
    requires i < |ws|
    ensures Reports(log2, ws, b)[i].about == Describe(log2, ws[i].key, ws[i].packets)
    ensures Reports(log2, ws, b)[i].volume == VolumeOf(Fed(b, SamplesOf(ws[..i])), SampleOf(ws[i].packets))
  {
    AfterIsFed(b, ws[..i]);
  }

  /** With a fresh baseline of smoothing 1/10 or more, a report flagged as a volume
      anomaly is not among the first, and exceeds the report just before it, of
      whatever flow, in packets or in bytes per second. */
  lemma FlaggedReportRises(log2: Entropy.Log, alpha: real, minSamples: int,
                           ws: seq<Window>, fs: seq<Features>, i: nat)
    requires 0.1 <= alpha <= 1.0 && fs == Reports(log2, ws, Fresh(alpha, minSamples)) && i < |ws|
    requires fs[i].volume.anomaly
    ensures 0 < i && minSamples <= i + 1
    ensures var now, last := fs[i].volume.sample, fs[i - 1].volume.sample;
            now.pps > last.pps || now.bps > last.bps
  {
    var b, ss := Fresh(alpha, minSamples), SamplesOf(ws[..i]);
    VolumeAt(log2, ws, b, i);
    FlaggedNotFirst(alpha, minSamples, ss, SampleOf(ws[i].packets));
    VolumeAt(log2, ws, b, i - 1);
    assert ws[..i][..i - 1] == ws[..i - 1];
    FlaggedSampleRises(alpha, minSamples, ss, SampleOf(ws[i].packets));
  }

  lemma {:induction false} FlaggedNotFirst(alpha: real, minSamples: int, ss: seq<Sample>, s: Sample)
    requires Flags(Fed(Fresh(alpha, minSamples), ss), s)
    ensures ss != [] && minSamples <= |ss| + 1
  {
    FedCounts(Fresh(alpha, minSamples), ss);
  }

  // ------------------------------------------------------------------- whole captures

  function ReportedPackets(fs: seq<Features>): nat {
    if fs == [] then 0 else ReportedPackets(fs[..|fs| - 1]) + fs[|fs| - 1].about.packetCount
  }

  function ReportedBytes(fs: seq<Features>): nat {
    if fs == [] then 0 else ReportedBytes(fs[..|fs| - 1]) + fs[|fs| - 1].about.byteCount
  }

  lemma {:induction false} ReportedIsMeasured(log2: Entropy.Log, ws: seq<Window>, b: Baseline)
    ensures ReportedPackets(Reports(log2, ws, b)) == MeasuredWindows(One, ws)
    ensures ReportedBytes(Reports(log2, ws, b)) == MeasuredWindows(SizeOf, ws)
  {
    if ws != [] {
      var n := |ws| - 1;
      var fs := Reports(log2, ws, b);
      ReportedIsMeasured(log2, ws[..n], b);
      AnswersSnoc(Absorb, Reporter(log2), b, ws[..n], ws[n]);
      assert ws == ws[..n] + [ws[n]] && fs[..n] == Reports(log2, ws[..n], b);
      MeasuredOnes(ws[n].packets);
    }
  }

  lemma {:induction false} MeasuredOnes(ps: seq<Packet>)
    ensures Measured(One, ps) == |ps|
  {
    if ps != [] {
      MeasuredOnes(ps[..|ps| - 1]);
    }
  }

  lemma {:induction false} PayloadMeasured(ps: seq<Packet>)
    ensures Measured(PayloadLength, ps) == |Payload(ps)|
  {
    if ps != [] {
      PayloadMeasured(ps[..|ps| - 1]);
    }
  }

  /** The reports of a whole capture account for every packet and every byte of it, and
      its windows for every byte of payload. */
  lemma {:induction false} ReportsAccountForAll(log2: Entropy.Log, l: Limits, ps: seq<Packet>, b: Baseline)
    ensures ReportedPackets(Reports(log2, Emitted(l, EMPTY, ps), b)) == |ps|
    ensures ReportedBytes(Reports(log2, Emitted(l, EMPTY, ps), b)) == Measured(SizeOf, ps)
    ensures MeasuredWindows(PayloadLength, Emitted(l, EMPTY, ps)) == |Payload(ps)|
  {
    ReportedIsMeasured(log2, Emitted(l, EMPTY, ps), b);
    EmittedConserves(l, ps, One);
    EmittedConserves(l, ps, SizeOf);
    EmittedConserves(l, ps, PayloadLength);
    MeasuredOnes(ps);
    PayloadMeasured(ps);
  }
}

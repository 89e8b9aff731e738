/** The windows and their aggregator as objects: every window holds a reference to the
    one tracker, which each closing window updates. */
module FlowAggregator {
  import opened FlowSegmentation
  import opened FlowTable
  import opened FlowReport
  import opened FlowOrder
  import FlowFacts
  import opened Threading
  import opened Ewma

  class FlowWindow {
    const key: Key
    const tracker: EwmaTracker
    var packets: seq<Packet>
    var startTime: real
    var lastTime: real
    var totalBytes: nat
    var allPayload: seq<Entropy.Byte>

    ghost predicate Valid()
      reads this
    {
      Totals(startTime, lastTime, totalBytes, allPayload) == TotalsOf(packets)
    }

    constructor (key: Key, tracker: EwmaTracker)
      ensures Valid() && packets == [] && this.key == key && this.tracker == tracker
    {
      this.key, this.tracker := key, tracker;
      packets, startTime, lastTime, totalBytes, allPayload := [], 0.0, 0.0, 0, [];
    }

    method AddPacket(p: Packet)
      requires Valid()
      modifies this
      ensures Valid() && packets == old(packets) + [p]
    {
      TotalsSnoc(packets, p);
      if packets == [] {
        startTime := p.timestamp;
      }
      lastTime := p.timestamp;
      totalBytes := totalBytes + p.size;
      if p.payload != [] {
        allPayload := allPayload + p.payload;
      }
      packets := packets + [p];
    }

    method DescribePackets(log2: Entropy.Log) returns (d: Description)
      requires Valid()
      ensures d == Describe(log2, key, packets)
    {
      TotalsAre(packets);
      var gaps := Moments.CollectInterArrivals(Times(packets));
      var gapEntropy, _ := Entropy.CalculateIatEntropy(log2, gaps);
      var payloadEntropy := Entropy.CalculateShannonEntropy(log2, allPayload);
      d := Assemble(key, startTime, lastTime, |packets|, totalBytes, Sizes(packets),
                    gaps, gapEntropy, Ttls(packets), payloadEntropy);
    }

    /** Describes the window and feeds its volume to the shared tracker. */
    method ExtractFeatures(log2: Entropy.Log) returns (f: Features)
      requires Valid()
      modifies tracker
      ensures f == Report(log2, key, packets, old(tracker.State()))
      ensures tracker.State() == Updated(old(tracker.State()), SampleOf(packets))
    {
      TotalsAre(packets);
      var d := DescribePackets(log2);
      var seconds := Seconds(startTime, lastTime);
      var pps, bps := Rate(|packets|, seconds), Rate(totalBytes, seconds);
      var anomaly := tracker.Update(pps, bps);
      f := Features(d, Volume(Sample(pps, bps), tracker.meanPps, tracker.meanBps, anomaly));
    }
  }

  class UnidirectionalFlowAggregator {
    const limits: Limits
    const log2: Entropy.Log
    const globalEwma: EwmaTracker
    var flows: map<Key, FlowWindow>
    /** The keys of `flows` in the order of the dictionary. */
    var order: seq<Key>
    /** The same as a value, and the windows made so far. */
    ghost var table: Table
    ghost var made: set<FlowWindow>

    ghost predicate Represents(k: Key, w: FlowWindow, ps: seq<Packet>)
      reads w
    {
      w.Valid() && w.key == k && w.tracker == globalEwma && w.packets == ps
    }

    ghost predicate Holds(t: Table)
      reads this, made
    {
      && order == t.order && flows.Keys == t.growing.Keys
      && (forall k :: k in flows ==> flows[k] in made)
      && (forall k :: k in flows ==> Represents(k, flows[k], t.growing[k]))
    }

    ghost predicate Valid()
      reads this, made
    {
      Sound(limits, table) && Holds(table)
    }

    constructor (timeout: real, maxPackets: int, log2: Entropy.Log)
      ensures Valid() && table == EMPTY && made == {} && limits == Limits(timeout, maxPackets)
      ensures this.log2 == log2
      ensures fresh(globalEwma) && globalEwma.State() == Fresh(0.1, 5)
    {
      limits, this.log2 := Limits(timeout, maxPackets), log2;
      globalEwma := new EwmaTracker(0.1, 5);
      flows, order, table, made := map[], [], EMPTY, {};
    }

    /** The list of a closing window's features. */
    method Finalize(window: FlowWindow) returns (finalized: seq<Features>)
      requires window.Valid() && window.tracker == globalEwma
      modifies globalEwma
      ensures finalized == Reports(log2, [Window(window.key, window.packets)], old(globalEwma.State()))
      ensures globalEwma.State() == After(old(globalEwma.State()), [Window(window.key, window.packets)])
    {
      ghost var b, w := globalEwma.State(), Window(window.key, window.packets);
      var f := window.ExtractFeatures(log2);
      AnswersSnoc(Absorb, Reporter(log2), b, [], w);
      FoldedSnoc(Absorb, b, [], w);
      assert [] + [w] == [w];
      finalized := [f];
    }

    /** Gives a flow a new window, in its old place if it has one. */
    method Open(key: Key) returns (window: FlowWindow)
      requires Holds(table)
      modifies this`flows, this`order, this`table, this`made
      ensures key in flows && flows[key] == window
      ensures Holds(table) && table == Put(old(table), key, []) && made == old(made) + {window} && fresh(window)
    {
      window := new FlowWindow(key, globalEwma);
      if key !in flows {
        order := order + [key];
      }
      flows, made := flows[key := window], made + {window};
      table := Put(table, key, []);
    }

    /** Reports a flow's window and gives the flow a new one. */
    method Renew(key: Key) returns (window: FlowWindow, finalized: seq<Features>)
      requires Holds(table) && key in flows
      modifies this`flows, this`order, this`made, this`table, globalEwma
      ensures Holds(table) && table == Put(old(table), key, [])
      ensures key in flows && flows[key] == window && made == old(made) + {window} && fresh(window)
      ensures finalized == Reports(log2, [Window(key, Current(old(table), key))], old(globalEwma.State()))
      ensures globalEwma.State() == After(old(globalEwma.State()), [Window(key, Current(old(table), key))])
    {
      finalized := Finalize(flows[key]);
      window := Open(key);
    }

    /** The window a packet belongs to: a late packet makes its flow's window be emitted
        and replaced. */
    method WindowFor(p: Packet) returns (window: FlowWindow, finalized: seq<Features>)
      requires Valid()
      modifies this`flows, this`order, this`made, this`table, globalEwma
      ensures Holds(table) && table == Prepare(limits, old(table), p).table
      ensures p.key in flows && flows[p.key] == window && window in made && fresh(made - old(made))
      ensures finalized == Reports(log2, Prepare(limits, old(table), p).emitted, old(globalEwma.State()))
      ensures globalEwma.State() == After(old(globalEwma.State()), Prepare(limits, old(table), p).emitted)
    {
      finalized := [];
      if p.key in flows {
        window := flows[p.key];
        TotalsAre(window.packets);
        if p.timestamp - window.lastTime > limits.timeout {
          window, finalized := Renew(p.key);
        }
      } else {
        window := Open(p.key);
      }
    }

    method Add(window: FlowWindow, p: Packet)
      requires Holds(table) && p.key in flows && flows[p.key] == window
      modifies this`table, window
      ensures Holds(table) && table == Extended(old(table), p)
    {
      window.AddPacket(p);
      table := Extended(table, p);
    }

    method Remove(key: Key)
      requires Holds(table) && key in flows
      modifies this`flows, this`order, this`table
      ensures Holds(table) && table == Drop(old(table), key)
    {
      flows, order := flows - {key}, Without(order, key);
      table := Drop(table, key);
    }

    /** Reports a flow's window and takes it out. */
    method Close(key: Key) returns (finalized: seq<Features>)
      requires Holds(table) && key in flows
      modifies this`flows, this`order, this`table, globalEwma
      ensures Holds(table) && table == Drop(old(table), key)
      ensures finalized == Reports(log2, [Window(key, Current(old(table), key))], old(globalEwma.State()))
      ensures globalEwma.State() == After(old(globalEwma.State()), [Window(key, Current(old(table), key))])
    {
      finalized := Finalize(flows[key]);
      Remove(key);
    }

    /** Reports a window that is full and takes it out. */
    method CloseIfFull(window: FlowWindow) returns (finalized: seq<Features>)
      requires Holds(table) && window.key in flows && flows[window.key] == window
      modifies this`flows, this`order, this`table, globalEwma
      ensures Holds(table) && table == Settle(limits, old(table), window.key).table
      ensures finalized == Reports(log2, Settle(limits, old(table), window.key).emitted, old(globalEwma.State()))
      ensures globalEwma.State() == After(old(globalEwma.State()), Settle(limits, old(table), window.key).emitted)
    {
      finalized := [];
      if |window.packets| >= limits.maxPackets {
        finalized := Close(window.key);
      }
    }

    /** The second stage of a packet: into its window, which may become full. */
    method AddTo(window: FlowWindow, p: Packet) returns (finalized: seq<Features>)
      requires Holds(table) && p.key in flows && flows[p.key] == window
      modifies this`flows, this`order, this`table, window, globalEwma
      ensures Holds(table) && table == Settle(limits, Extended(old(table), p), p.key).table
      ensures finalized
           == Reports(log2, Settle(limits, Extended(old(table), p), p.key).emitted, old(globalEwma.State()))
      ensures globalEwma.State()
           == After(old(globalEwma.State()), Settle(limits, Extended(old(table), p), p.key).emitted)
    {
      Add(window, p);
      finalized := CloseIfFull(window);
    }

    /** The two stages of a packet, with what each of them emits. */
    method TakeIn(p: Packet) returns (flushed: seq<Features>, last: seq<Features>)
      requires Valid()
      modifies this, globalEwma, made
      ensures Holds(table) && fresh(made - old(made))
      ensures var first := Prepare(limits, old(table), p);
              var second := Settle(limits, Extended(first.table, p), p.key);
              && table == second.table
              && flushed == Reports(log2, first.emitted, old(globalEwma.State()))
              && last == Reports(log2, second.emitted, After(old(globalEwma.State()), first.emitted))
              && globalEwma.State() == After(After(old(globalEwma.State()), first.emitted), second.emitted)
    {
      var window;
      window, flushed := WindowFor(p);
      last := AddTo(window, p);
    }

    /** Takes in one packet; the flow's window is emitted before the packet when the
        packet is late, and with it when it is full then. */
    method ProcessPacket(p: Packet) returns (finalized: seq<Features>)
      requires Valid()
      modifies this, globalEwma, made
      ensures Valid() && fresh(made - old(made))
      ensures table == Ingest(limits, old(table), p).table
      ensures finalized == Reports(log2, Ingest(limits, old(table), p).emitted, old(globalEwma.State()))
      ensures globalEwma.State() == After(old(globalEwma.State()), Ingest(limits, old(table), p).emitted)
    {
      ReportsInStages(log2, limits, table, p, globalEwma.State());
      IngestKeepsSound(limits, table, p);
      var flushed, last := TakeIn(p);
      finalized := flushed + last;
    }

    method Clear()
      modifies this`flows, this`order, this`table
      ensures Valid() && table == EMPTY && flows == map[]
    {
      flows, order, table := map[], [], EMPTY;
    }

    /** Reports the window of the next flow in the order, without taking it out. */
    method ReportNext(i: nat, results: seq<Features>, ghost b: Baseline) returns (more: seq<Features>)
      requires Holds(table) && i < |order|
      requires results == Reports(log2, Held(table, order[..i]), b)
      requires globalEwma.State() == After(b, Held(table, order[..i]))
      requires order[i] in flows
      modifies globalEwma
      ensures more == Reports(log2, Held(table, order[..i + 1]), b)
      ensures globalEwma.State() == After(b, Held(table, order[..i + 1]))
    {
      ghost var before, w := Held(table, order[..i]), Window(order[i], Current(table, order[i]));
      var last := Finalize(flows[order[i]]);
      HeldNext(table, order, i);
      ReportsSum(log2, before, [w], b);
      more := results + last;
    }

    method ReportAll() returns (results: seq<Features>)
      requires Holds(table) && forall i :: 0 <= i < |order| ==> order[i] in flows
      modifies globalEwma
      ensures results == Reports(log2, Flushed(table), old(globalEwma.State()))
      ensures globalEwma.State() == After(old(globalEwma.State()), Flushed(table))
    {
      ghost var b := globalEwma.State();
      results := [];
      for i := 0 to |order|
        invariant Holds(table)
        invariant results == Reports(log2, Held(table, order[..i]), b)
        invariant globalEwma.State() == After(b, Held(table, order[..i]))
      {
        results := ReportNext(i, results, b);
      }
      assert order[..|order|] == order;
    }

    /** Emits every window still growing, in the order of the dictionary. */
    method FlushAll() returns (results: seq<Features>)
      requires Valid()
      modifies this`flows, this`order, this`table, globalEwma
      ensures Valid() && table == EMPTY && flows == map[]
      ensures results == Reports(log2, Flushed(old(table)), old(globalEwma.State()))
      ensures globalEwma.State() == After(old(globalEwma.State()), Flushed(old(table)))
    {
      results := ReportAll();
      Clear();
    }

    /** A whole capture: every packet, then the flush. */
    method ProcessPcap(ps: seq<Packet>) returns (finalized: seq<Features>)
      requires Valid()
      modifies this, globalEwma, made
      ensures Valid() && table == EMPTY && flows == map[]
      ensures finalized == Reports(log2, Emitted(limits, old(table), ps), old(globalEwma.State()))
      ensures globalEwma.State() == After(old(globalEwma.State()), Emitted(limits, old(table), ps))
      ensures globalEwma.sampleCount == old(globalEwma.sampleCount) + |finalized|
    {
      ghost var b, t := globalEwma.State(), table;
      finalized := [];
      for i := 0 to |ps|
        invariant Valid() && fresh(made - old(made))
        invariant table == Run(limits, t, ps[..i]).table
        invariant finalized == Reports(log2, Run(limits, t, ps[..i]).emitted, b)
        invariant globalEwma.State() == After(b, Run(limits, t, ps[..i]).emitted)
      {
        ghost var before, step := Run(limits, t, ps[..i]), Ingest(limits, table, ps[i]);
        var flushed := ProcessPacket(ps[i]);
        RunNext(limits, t, ps, i);
        ReportsSum(log2, before.emitted, step.emitted, b);
        if flushed != [] {
          finalized := finalized + flushed;
        }
      }
      assert ps[..|ps|] == ps;
      ghost var end := Run(limits, t, ps);
      var last := FlushAll();
      ReportsSum(log2, end.emitted, Flushed(end.table), b);
      AfterCounts(b, Emitted(limits, t, ps));
      finalized := finalized + last;
    }
  }

  /** A flagged report is at least the fifth, and exceeds the report just before it. */
  ghost predicate FlagMeansRise(fs: seq<Features>, i: nat)
    requires i < |fs|
  {
    fs[i].volume.anomaly ==>
      4 <= i && (fs[i].volume.sample.pps > fs[i - 1].volume.sample.pps
                 || fs[i].volume.sample.bps > fs[i - 1].volume.sample.bps)
  }

  /** What report `i` says of its window and of the reports before it. */
  ghost predicate ReportTold(fs: seq<Features>, ws: seq<Window>, i: nat)
    requires i < |fs| == |ws|
  {
    && ws[i].packets != [] && FromFlow(ws[i].key, ws[i].packets)
    && FlowFacts.Told(fs[i].about, ws[i])
    && FlowFacts.Paced(fs[i].volume.sample, ws[i].packets)
    && FlowFacts.VolumeTold(0.1, 5, fs, i)
  }

  /** What its two entropies say, if `log2` is a binary logarithm. */
  ghost predicate EntropiesTold(log2: Entropy.Log, f: Features, w: Window) {
    w.packets != []
    && forall slope :: Entropy.IsLog2(log2, slope) ==>
         && FlowFacts.GapEntropyTold(log2, f.about.gapEntropy, FlowFacts.ClippedGaps(w.packets))
         && FlowFacts.PayloadEntropyTold(log2, f.about.payloadEntropy, Payload(w.packets))
  }

  /** A capture through a new aggregator, with its default cap: `ws` are the windows
      behind the reports. */
  method ExtractFlows(log2: Entropy.Log, ps: seq<Packet>) returns (fs: seq<Features>, ghost ws: seq<Window>)
    ensures fs == Reports(log2, ws, Fresh(0.1, 5))
    ensures forall k :: IsSegmentation(Limits(10.0, 500), WindowsOf(k, ws), OfFlow(k, ps))
    ensures InOrderOfEmission(Limits(10.0, 500), ps, ws)
    ensures |fs| == |ws|
    ensures forall i :: 0 <= i < |ws| ==> ReportTold(fs, ws, i) && EntropiesTold(log2, fs[i], ws[i])
    ensures ReportedPackets(fs) == |ps| && ReportedBytes(fs) == Measured(SizeOf, ps)
    ensures forall i :: 0 <= i < |fs| ==> FlagMeansRise(fs, i)
  {
    var aggregator := new UnidirectionalFlowAggregator(10.0, 500, log2);
    fs := aggregator.ProcessPcap(ps);
    ghost var l := Limits(10.0, 500);
    ws := Emitted(l, EMPTY, ps);
    CaptureFacts(log2, l, ps, fs);
    EmittedIsTheOrder(l, ps, ws);
    EmittedFits(l, ps);
    ReportsTell(log2, ws, fs);
  }

  lemma ReportTells(log2: Entropy.Log, ws: seq<Window>, fs: seq<Features>, i: nat)
    requires fs == Reports(log2, ws, Fresh(0.1, 5)) && i < |ws|
    requires ws[i].packets != [] && FromFlow(ws[i].key, ws[i].packets)
    ensures ReportTold(fs, ws, i) && EntropiesTold(log2, fs[i], ws[i])
  {
    var w := ws[i];
    VolumeAt(log2, ws, Fresh(0.1, 5), i);
    FlowFacts.DescriptionTells(log2, w, fs[i].about);
    FlowFacts.SamplePaces(w.packets);
    FlowFacts.VolumeTells(log2, 0.1, 5, ws, i, fs);
    forall slope | Entropy.IsLog2(log2, slope)
      ensures FlowFacts.GapEntropyTold(log2, fs[i].about.gapEntropy, FlowFacts.ClippedGaps(w.packets))
      ensures FlowFacts.PayloadEntropyTold(log2, fs[i].about.payloadEntropy, Payload(w.packets))
    {
      FlowFacts.EntropiesTell(log2, slope, w.key, w.packets, fs[i].about);
    }
  }

  lemma ReportsTell(log2: Entropy.Log, ws: seq<Window>, fs: seq<Features>)
    requires fs == Reports(log2, ws, Fresh(0.1, 5))
    requires forall i :: 0 <= i < |ws| ==> WindowFits(Limits(10.0, 500), ws[i])
    ensures forall i :: 0 <= i < |ws| ==> ReportTold(fs, ws, i) && EntropiesTold(log2, fs[i], ws[i])
  {
    forall i | 0 <= i < |ws|
      ensures ReportTold(fs, ws, i) && EntropiesTold(log2, fs[i], ws[i])
    {
      ReportTells(log2, ws, fs, i);
    }
  }

  lemma {:induction false} CaptureFacts(log2: Entropy.Log, l: Limits, ps: seq<Packet>, fs: seq<Features>)
    requires fs == Reports(log2, Emitted(l, EMPTY, ps), Fresh(0.1, 5))
    ensures forall k :: IsSegmentation(l, WindowsOf(k, Emitted(l, EMPTY, ps)), OfFlow(k, ps))
    ensures ReportedPackets(fs) == |ps| && ReportedBytes(fs) == Measured(SizeOf, ps)
    ensures forall i :: 0 <= i < |fs| ==> FlagMeansRise(fs, i)
  {
    var ws := Emitted(l, EMPTY, ps);
    ReportsAccountForAll(log2, l, ps, Fresh(0.1, 5));
    forall k
      ensures IsSegmentation(l, WindowsOf(k, ws), OfFlow(k, ps))
    {
      EmittedIsTheSegmentation(l, ps, k, WindowsOf(k, ws));
    }
    forall i | 0 <= i < |fs|
      ensures FlagMeansRise(fs, i)
    {
      if fs[i].volume.anomaly {
        FlaggedReportRises(log2, 0.1, 5, ws, fs, i);
      }
    }
  }
}

/** The table of growing windows, one for each flow, fed with the interleaved packets of
    all flows; and what the windows it emits have to do with each flow on its own. */
module FlowTable {
  import opened FlowSegmentation

  /** `order` lists the flows as an insertion-ordered dictionary does. */
  datatype Table = Table(growing: map<Key, seq<Packet>>, order: seq<Key>)

  const EMPTY := Table(map[], [])

  datatype Window = Window(key: Key, packets: seq<Packet>)

  datatype Progress = Progress(table: Table, emitted: seq<Window>)

  function Current(t: Table, k: Key): seq<Packet> {
    if k in t.growing then t.growing[k] else []
  }

  function Without(order: seq<Key>, k: Key): seq<Key> {
    if order == [] then []
    else
      var n := |order| - 1;
      if order[n] == k then Without(order[..n], k) else Without(order[..n], k) + [order[n]]
  }

  /** Assigning to a flow keeps its place in the order; a new flow comes last. */
  function Put(t: Table, k: Key, w: seq<Packet>): Table {
    Table(t.growing[k := w], if k in t.growing then t.order else t.order + [k])
  }

  function Drop(t: Table, k: Key): Table {
    Table(t.growing - {k}, Without(t.order, k))
  }

  /** A late packet makes the flow's window be emitted and replaced in its place; a full
      window is emitted and taken out. */
  function Ingest(l: Limits, t: Table, p: Packet): Progress {
    var k := p.key;
    var late := Expired(l, Current(t, k), p);
    var w := (if late then [] else Current(t, k)) + [p];
    var before := if late then [Window(k, Current(t, k))] else [];
    if |w| >= l.maxPackets then Progress(Drop(t, k), before + [Window(k, w)])
    else Progress(Put(t, k, w), before)
  }

  /** The table with a window ready for the packet. */
  function Prepare(l: Limits, t: Table, p: Packet): Progress {
    var k := p.key;
    if Expired(l, Current(t, k), p) then Progress(Put(t, k, []), [Window(k, Current(t, k))])
    else if k !in t.growing then Progress(Put(t, k, []), [])
    else Progress(t, [])
  }

  /** The table with the packet added to its flow's window. */
  function Extended(t: Table, p: Packet): Table {
    Put(t, p.key, Current(t, p.key) + [p])
  }

  /** The table after a window that has become full is closed. */
  function Settle(l: Limits, t: Table, k: Key): Progress {
    if |Current(t, k)| >= l.maxPackets then Progress(Drop(t, k), [Window(k, Current(t, k))]) else Progress(t, [])
  }

  /** Ingesting is preparing, adding and settling. */
  lemma IngestInStages(l: Limits, t: Table, p: Packet)
    ensures var first := Prepare(l, t, p);
            var last := Settle(l, Extended(first.table, p), p.key);
            Ingest(l, t, p) == Progress(last.table, first.emitted + last.emitted)
  {
  }

  function Run(l: Limits, t: Table, ps: seq<Packet>): Progress {
    if ps == [] then Progress(t, [])
    else
      var before := Run(l, t, ps[..|ps| - 1]);
      var step := Ingest(l, before.table, ps[|ps| - 1]);
      Progress(step.table, before.emitted + step.emitted)
  }

  lemma {:induction false} RunNext(l: Limits, t: Table, ps: seq<Packet>, i: nat)
    requires i < |ps|
    ensures var before, step := Run(l, t, ps[..i]), Ingest(l, Run(l, t, ps[..i]).table, ps[i]);
            Run(l, t, ps[..i + 1]) == Progress(step.table, before.emitted + step.emitted)
  {
    assert ps[..i + 1][..i] == ps[..i];
  }

  /** The windows the table holds for some of its flows. */
  function Held(t: Table, order: seq<Key>): seq<Window> {
    if order == [] then []
    else
      var n := |order| - 1;
      Held(t, order[..n]) + [Window(order[n], Current(t, order[n]))]
  }

  lemma {:induction false} HeldNext(t: Table, order: seq<Key>, i: nat)
    requires i < |order|
    ensures Held(t, order[..i + 1]) == Held(t, order[..i]) + [Window(order[i], Current(t, order[i]))]
  {
    assert order[..i + 1][..i] == order[..i];
  }

  /** What the final flush emits. */
  function Flushed(t: Table): seq<Window> {
    Held(t, t.order)
  }

  /** Everything a whole capture emits. */
  function Emitted(l: Limits, t: Table, ps: seq<Packet>): seq<Window> {
    var end := Run(l, t, ps);
    end.emitted + Flushed(end.table)
  }

  // ------------------------------------------------------------ the table's invariant

  predicate Distinct(order: seq<Key>) {
    forall i, j :: 0 <= i < j < |order| ==> order[i] != order[j]
  }

  predicate FromFlow(k: Key, w: seq<Packet>) {
    forall i :: 0 <= i < |w| ==> w[i].key == k
  }

  ghost predicate Listed(t: Table) {
    Distinct(t.order) && forall k :: k in t.growing <==> k in t.order
  }

  predicate Filled(l: Limits, t: Table) {
    forall k :: k in t.growing ==> 0 < |t.growing[k]| < Cap(l) && FromFlow(k, t.growing[k])
  }

  ghost predicate Sound(l: Limits, t: Table) {
    Listed(t) && Filled(l, t)
  }

  predicate WindowFits(l: Limits, w: Window) {
    0 < |w.packets| <= Cap(l) && FromFlow(w.key, w.packets)
  }

  lemma LastAndRest(order: seq<Key>, k: Key)
    requires order != []
    ensures k in order <==> k in order[..|order| - 1] || k == order[|order| - 1]
    ensures Distinct(order) ==> Distinct(order[..|order| - 1]) && order[|order| - 1] !in order[..|order| - 1]
  {
  }

  lemma {:induction false} WithoutMember(order: seq<Key>, k: Key, x: Key)
    ensures x in Without(order, k) <==> x in order && x != k
  {
    if order != [] {
      WithoutMember(order[..|order| - 1], k, x);
      LastAndRest(order, x);
    }
  }

  lemma {:induction false} WithoutKeeps(order: seq<Key>, k: Key)
    ensures forall x :: x in Without(order, k) <==> x in order && x != k
    ensures Distinct(order) ==> Distinct(Without(order, k))
  {
    forall x
      ensures x in Without(order, k) <==> x in order && x != k
    {
      WithoutMember(order, k, x);
    }
    if order != [] && Distinct(order) {
      var n := |order| - 1;
      LastAndRest(order, k);
      WithoutKeeps(order[..n], k);
      assert order[n] !in Without(order[..n], k);
    }
  }

  lemma IngestKeepsListed(l: Limits, t: Table, p: Packet)
    requires Listed(t)
    ensures Listed(Ingest(l, t, p).table)
  {
    WithoutKeeps(t.order, p.key);
  }

  lemma IngestKeepsFilled(l: Limits, t: Table, p: Packet)
    requires Filled(l, t)
    ensures Filled(l, Ingest(l, t, p).table)
    ensures forall i :: 0 <= i < |Ingest(l, t, p).emitted| ==> WindowFits(l, Ingest(l, t, p).emitted[i])
  {
  }

  lemma IngestKeepsSound(l: Limits, t: Table, p: Packet)
    requires Sound(l, t)
    ensures Sound(l, Ingest(l, t, p).table)
    ensures forall i :: 0 <= i < |Ingest(l, t, p).emitted| ==> WindowFits(l, Ingest(l, t, p).emitted[i])
  {
    IngestKeepsListed(l, t, p);
    IngestKeepsFilled(l, t, p);
  }

  /** At every moment each flow in the table holds at least one packet and fewer than
      the cap, and every emitted window at least one and at most the cap. */
  lemma {:induction false} RunKeepsSound(l: Limits, t: Table, ps: seq<Packet>)
    requires Sound(l, t)
    ensures Sound(l, Run(l, t, ps).table)
    ensures forall i :: 0 <= i < |Run(l, t, ps).emitted| ==> WindowFits(l, Run(l, t, ps).emitted[i])
  {
    if ps != [] {
      var n := |ps| - 1;
      RunKeepsSound(l, t, ps[..n]);
      IngestKeepsSound(l, Run(l, t, ps[..n]).table, ps[n]);
    }
  }

  // --------------------------------------------------------------- one flow at a time

  function OfFlow(k: Key, ps: seq<Packet>): seq<Packet> {
    if ps == [] then []
    else
      var n := |ps| - 1;
      if ps[n].key == k then OfFlow(k, ps[..n]) + [ps[n]] else OfFlow(k, ps[..n])
  }

  function WindowsOf(k: Key, ws: seq<Window>): seq<seq<Packet>> {
    if ws == [] then []
    else
      var n := |ws| - 1;
      if ws[n].key == k then WindowsOf(k, ws[..n]) + [ws[n].packets] else WindowsOf(k, ws[..n])
  }

  lemma {:induction false} WindowsOfSum(k: Key, a: seq<Window>, b: seq<Window>)
    ensures WindowsOf(k, a + b) == WindowsOf(k, a) + WindowsOf(k, b)
  {
    if b == [] {
      assert a + b == a;
    } else {
      var n := |b| - 1;
      WindowsOfSum(k, a, b[..n]);
      assert (a + b)[..|a + b| - 1] == a + b[..n];
    }
  }

  lemma {:induction false} WindowsOfSnoc(k: Key, ws: seq<Window>, w: Window)
    ensures WindowsOf(k, ws + [w]) == if w.key == k then WindowsOf(k, ws) + [w.packets] else WindowsOf(k, ws)
  {
  }

  lemma {:induction false} WindowsOfOne(k: Key, w: Window)
    ensures WindowsOf(k, [w]) == if w.key == k then [w.packets] else []
  {
  }

  /** A packet leaves every other flow as it is. */
  lemma {:induction false} IngestElsewhere(l: Limits, t: Table, p: Packet, k: Key)
    requires k != p.key
    ensures WindowsOf(k, Ingest(l, t, p).emitted) == [] && Current(Ingest(l, t, p).table, k) == Current(t, k)
  {
    var w := Window(p.key, Current(t, p.key));
    WindowsOfOne(k, w);
    WindowsOfOne(k, Window(p.key, w.packets + [p]));
    WindowsOfSnoc(k, [w], Window(p.key, [] + [p]));
  }

  /** A packet moves its own flow as the greedy rule says. */
  lemma IngestIsCut(l: Limits, t: Table, p: Packet, closed: seq<seq<Packet>>)
    ensures Cutting(closed + WindowsOf(p.key, Ingest(l, t, p).emitted), Current(Ingest(l, t, p).table, p.key))
         == Cut(l, Cutting(closed, Current(t, p.key)), p)
  {
    var w := Current(t, p.key);
    if Expired(l, w, p) {
      WindowsOfOne(p.key, Window(p.key, w));
      WindowsOfSnoc(p.key, [Window(p.key, w)], Window(p.key, [] + [p]));
      assert closed + [w, [] + [p]] == (closed + [w]) + [[] + [p]];
    } else {
      WindowsOfOne(p.key, Window(p.key, w + [p]));
      assert closed + [] == closed;
    }
  }

  /** The windows emitted for a flow, and the one it still holds, are those of the
      greedy rule on the flow's own packets, whatever packets of other flows lie
      between them. */
  lemma {:induction false} RunIsGreedy(l: Limits, ps: seq<Packet>, k: Key)
    ensures Greedy(l, OfFlow(k, ps))
         == Cutting(WindowsOf(k, Run(l, EMPTY, ps).emitted), Current(Run(l, EMPTY, ps).table, k))
  {
    if ps != [] {
      var n := |ps| - 1;
      var before := Run(l, EMPTY, ps[..n]);
      RunIsGreedy(l, ps[..n], k);
      WindowsOfSum(k, before.emitted, Ingest(l, before.table, ps[n]).emitted);
      if ps[n].key == k {
        IngestIsCut(l, before.table, ps[n], WindowsOf(k, before.emitted));
        var own := OfFlow(k, ps[..n]);
        assert (own + [ps[n]])[..|own|] == own;
      } else {
        IngestElsewhere(l, before.table, ps[n], k);
        assert WindowsOf(k, before.emitted) + [] == WindowsOf(k, before.emitted);
      }
    }
  }

  lemma {:induction false} HeldOfFlow(t: Table, order: seq<Key>, k: Key)
    requires Distinct(order)
    ensures WindowsOf(k, Held(t, order)) == if k in order then [Current(t, k)] else []
  {
    if order != [] {
      var n := |order| - 1;
      HeldOfFlow(t, order[..n], k);
      WindowsOfSnoc(k, Held(t, order[..n]), Window(order[n], Current(t, order[n])));
      LastAndRest(order, k);
    }
  }

  lemma {:induction false} FlushedOfFlow(l: Limits, t: Table, k: Key)
    requires Sound(l, t)
    ensures WindowsOf(k, Flushed(t)) == if Current(t, k) == [] then [] else [Current(t, k)]
  {
    HeldOfFlow(t, t.order, k);
  }

  /** For every stream and every flow: the windows emitted for the flow over the whole
      stream and the final flush are the one segmentation of the flow's own packets. */
  lemma {:induction false} EmittedIsTheSegmentation(l: Limits, ps: seq<Packet>, k: Key, ws: seq<seq<Packet>>)
    ensures IsSegmentation(l, ws, OfFlow(k, ps)) <==> ws == WindowsOf(k, Emitted(l, EMPTY, ps))
  {
    var end := Run(l, EMPTY, ps);
    RunIsGreedy(l, ps, k);
    RunKeepsSound(l, EMPTY, ps);
    FlushedOfFlow(l, end.table, k);
    WindowsOfSum(k, end.emitted, Flushed(end.table));
    GreedyIsTheSegmentation(l, OfFlow(k, ps), ws);
  }

  lemma {:induction false} HeldFits(l: Limits, t: Table, order: seq<Key>)
    requires Sound(l, t) && forall i :: 0 <= i < |order| ==> order[i] in t.order
    ensures forall i :: 0 <= i < |Held(t, order)| ==> WindowFits(l, Held(t, order)[i])
  {
    if order != [] {
      HeldFits(l, t, order[..|order| - 1]);
    }
  }

  /** Every window of a whole capture holds packets, of one flow and no more than the cap. */
  lemma EmittedFits(l: Limits, ps: seq<Packet>)
    ensures forall i :: 0 <= i < |Emitted(l, EMPTY, ps)| ==> WindowFits(l, Emitted(l, EMPTY, ps)[i])
  {
    var end := Run(l, EMPTY, ps);
    RunKeepsSound(l, EMPTY, ps);
    HeldFits(l, end.table, end.table.order);
  }

  // -------------------------------------------------------------------- conservation

  /** A quantity each packet carries: one, its size, the length of its payload. */
  type Measure = Packet -> nat

  function Measured(f: Measure, ps: seq<Packet>): nat {
    if ps == [] then 0 else Measured(f, ps[..|ps| - 1]) + f(ps[|ps| - 1])
  }

  function MeasuredWindows(f: Measure, ws: seq<Window>): nat {
    if ws == [] then 0 else MeasuredWindows(f, ws[..|ws| - 1]) + Measured(f, ws[|ws| - 1].packets)
  }

  lemma {:induction false} MeasuredSnoc(f: Measure, w: seq<Packet>, p: Packet)
    ensures Measured(f, w + [p]) == Measured(f, w) + f(p)
  {
  }

  lemma {:induction false} MeasuredWindowsSum(f: Measure, a: seq<Window>, b: seq<Window>)
    ensures MeasuredWindows(f, a + b) == MeasuredWindows(f, a) + MeasuredWindows(f, b)
  {
    if b == [] {
      assert a + b == a;
    } else {
      var n := |b| - 1;
      MeasuredWindowsSum(f, a, b[..n]);
      assert (a + b)[..|a + b| - 1] == a + b[..n];
    }
  }

  lemma {:induction false} MeasuredWindowsSnoc(f: Measure, ws: seq<Window>, w: Window)
    ensures MeasuredWindows(f, ws + [w]) == MeasuredWindows(f, ws) + Measured(f, w.packets)
  {
  }

  lemma MeasuredWindowsOne(f: Measure, w: Window)
    ensures MeasuredWindows(f, [w]) == Measured(f, w.packets)
  {
  }

  function ShareOf(f: Measure, t: Table, k: Key): nat {
    Measured(f, Current(t, k))
  }

  function SharesOf(f: Measure, t: Table, order: seq<Key>): nat {
    if order == [] then 0 else SharesOf(f, t, order[..|order| - 1]) + ShareOf(f, t, order[|order| - 1])
  }

  lemma {:induction false} MeasuredHeld(f: Measure, t: Table, order: seq<Key>)
    ensures MeasuredWindows(f, Held(t, order)) == SharesOf(f, t, order)
  {
    if order != [] {
      var n := |order| - 1;
      MeasuredHeld(f, t, order[..n]);
      MeasuredWindowsSnoc(f, Held(t, order[..n]), Window(order[n], Current(t, order[n])));
    }
  }

  lemma {:induction false} SharesElsewhere(f: Measure, t: Table, t': Table, order: seq<Key>)
    requires forall i :: 0 <= i < |order| ==> Current(t, order[i]) == Current(t', order[i])
    ensures SharesOf(f, t, order) == SharesOf(f, t', order)
  {
    if order != [] {
      SharesElsewhere(f, t, t', order[..|order| - 1]);
    }
  }

  lemma {:induction false} SharesSnoc(f: Measure, t: Table, order: seq<Key>, k: Key)
    ensures SharesOf(f, t, order + [k]) == SharesOf(f, t, order) + ShareOf(f, t, k)
  {
  }

  /** One flow's share of what is held, taken out of the sum. */
  lemma {:induction false} SharesWithout(f: Measure, t: Table, order: seq<Key>, k: Key)
    requires Distinct(order)
    ensures SharesOf(f, t, order) == SharesOf(f, t, Without(order, k)) + (if k in order then ShareOf(f, t, k) else 0)
  {
    if order != [] {
      var n := |order| - 1;
      LastAndRest(order, k);
      SharesWithout(f, t, order[..n], k);
      if order[n] != k {
        SharesSnoc(f, t, Without(order[..n], k), order[n]);
      }
    }
  }

  /** Two tables that differ in one flow only. */
  lemma {:induction false} SharesReplaced(f: Measure, t: Table, t': Table, k: Key)
    requires Distinct(t.order) && t.order == t'.order && k in t.order
    requires forall x :: x != k ==> Current(t, x) == Current(t', x)
    ensures SharesOf(f, t, t.order) + ShareOf(f, t', k) == SharesOf(f, t', t.order) + ShareOf(f, t, k)
  {
    SharesWithout(f, t, t.order, k);
    SharesWithout(f, t', t.order, k);
    WithoutKeeps(t.order, k);
    SharesElsewhere(f, t, t', Without(t.order, k));
  }

  /** A table from which one flow has been taken out. */
  lemma {:induction false} SharesRemoved(f: Measure, t: Table, t': Table, k: Key)
    requires Distinct(t.order) && t'.order == Without(t.order, k)
    requires k !in t.order ==> Current(t, k) == []
    requires forall x :: x != k ==> Current(t, x) == Current(t', x)
    ensures SharesOf(f, t, t.order) == SharesOf(f, t', t'.order) + ShareOf(f, t, k)
  {
    SharesWithout(f, t, t.order, k);
    WithoutKeeps(t.order, k);
    SharesElsewhere(f, t, t', t'.order);
  }

  /** A table to which a flow has been added. */
  lemma {:induction false} SharesAdded(f: Measure, t: Table, t': Table, k: Key)
    requires k !in t.order && t'.order == t.order + [k]
    requires forall x :: x != k ==> Current(t, x) == Current(t', x)
    ensures SharesOf(f, t', t'.order) == SharesOf(f, t, t.order) + ShareOf(f, t', k)
  {
    SharesSnoc(f, t', t.order, k);
    SharesElsewhere(f, t, t', t.order);
  }

  function HeldMeasure(f: Measure, t: Table): nat {
    SharesOf(f, t, t.order)
  }

  /** What a packet's step emits, measured: the shares of the flow that it closes. */
  lemma IngestMeasures(l: Limits, t: Table, p: Packet, f: Measure)
    ensures MeasuredWindows(f, Ingest(l, t, p).emitted) + ShareOf(f, Ingest(l, t, p).table, p.key)
         == ShareOf(f, t, p.key) + f(p)
  {
    var k, w := p.key, Current(t, p.key);
    MeasuredSnoc(f, w, p);
    MeasuredSnoc(f, [], p);
    MeasuredWindowsOne(f, Window(k, w));
    MeasuredWindowsOne(f, Window(k, w + [p]));
    MeasuredWindowsSnoc(f, [Window(k, w)], Window(k, [] + [p]));
  }

  /** How a step changes the table: only at the packet's flow, in one of three ways. */
  predicate Changed(t: Table, t': Table, k: Key)
  {
    if k !in t'.growing then t'.order == Without(t.order, k)
    else if k in t.growing then t'.order == t.order
    else t'.order == t.order + [k]
  }

  lemma IngestChanges(l: Limits, t: Table, p: Packet)
    ensures Changed(t, Ingest(l, t, p).table, p.key)
    ensures forall x :: x != p.key ==> Current(t, x) == Current(Ingest(l, t, p).table, x)
  {
  }

  lemma HeldChange(f: Measure, t: Table, t': Table, k: Key)
    requires Distinct(t.order) && Changed(t, t', k) && (k in t.growing <==> k in t.order)
    requires forall x :: x != k ==> Current(t, x) == Current(t', x)
    ensures HeldMeasure(f, t) + ShareOf(f, t', k) == HeldMeasure(f, t') + ShareOf(f, t, k)
  {
    if k !in t'.growing {
      SharesRemoved(f, t, t', k);
    } else if k in t.growing {
      SharesReplaced(f, t, t', k);
    } else {
      SharesAdded(f, t, t', k);
    }
  }

  lemma IngestConserves(l: Limits, t: Table, p: Packet, f: Measure)
    requires Sound(l, t)
    ensures HeldMeasure(f, t) + f(p)
         == HeldMeasure(f, Ingest(l, t, p).table) + MeasuredWindows(f, Ingest(l, t, p).emitted)
  {
    IngestMeasures(l, t, p, f);
    IngestChanges(l, t, p);
    HeldChange(f, t, Ingest(l, t, p).table, p.key);
  }

  /** At every moment what was taken in is what was emitted and what is held, in packets,
      bytes, payload bytes and every other measure. */
  lemma {:induction false} RunConserves(l: Limits, t: Table, ps: seq<Packet>, f: Measure)
    requires Sound(l, t)
    ensures HeldMeasure(f, t) + Measured(f, ps)
         == HeldMeasure(f, Run(l, t, ps).table) + MeasuredWindows(f, Run(l, t, ps).emitted)
  {
    if ps != [] {
      var n := |ps| - 1;
      var before := Run(l, t, ps[..n]);
      RunConserves(l, t, ps[..n], f);
      RunKeepsSound(l, t, ps[..n]);
      IngestConserves(l, before.table, ps[n], f);
      MeasuredWindowsSum(f, before.emitted, Ingest(l, before.table, ps[n]).emitted);
    }
  }

  /** A whole capture emits all it took in. */
  lemma {:induction false} EmittedConserves(l: Limits, ps: seq<Packet>, f: Measure)
    ensures MeasuredWindows(f, Emitted(l, EMPTY, ps)) == Measured(f, ps)
  {
    var end := Run(l, EMPTY, ps);
    RunConserves(l, EMPTY, ps, f);
    MeasuredHeld(f, end.table, end.table.order);
    MeasuredWindowsSum(f, end.emitted, Flushed(end.table));
  }
}

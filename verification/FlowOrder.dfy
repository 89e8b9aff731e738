/** The order in which the windows of different flows are emitted, on which the shared
    volume baseline depends: by the packet that closes them, and in the final flush by
    the packet with which their flow took its place in the dictionary. */
module FlowOrder {
  import opened FlowSegmentation
  import opened FlowTable

  function Tagged(k: Key, ws: seq<seq<Packet>>): seq<Window> {
    seq(|ws|, i requires 0 <= i < |ws| => Window(k, ws[i]))
  }

  lemma {:induction false} ClosedGrows(l: Limits, ps: seq<Packet>, p: Packet)
    ensures Greedy(l, ps + [p]) == Cut(l, Greedy(l, ps), p)
    ensures Greedy(l, ps).closed <= Greedy(l, ps + [p]).closed
  {
    assert (ps + [p])[..|ps|] == ps;
  }

  /** The windows that packet `p` closes in its own flow after the packets `ps`. */
  function ClosedBy(l: Limits, ps: seq<Packet>, p: Packet): seq<seq<Packet>> {
    var own := OfFlow(p.key, ps);
    ClosedGrows(l, own, p);
    Greedy(l, own + [p]).closed[|Greedy(l, own).closed|..]
  }

  /** Packet after packet, the windows that it closes. */
  function Closings(l: Limits, ps: seq<Packet>): seq<Window> {
    if ps == [] then []
    else
      var n := |ps| - 1;
      Closings(l, ps[..n]) + Tagged(ps[n].key, ClosedBy(l, ps[..n], ps[n]))
  }

  /** The packet with which a flow last came to hold packets again. */
  function OpenSince(l: Limits, ps: seq<Packet>, k: Key): nat {
    if ps == [] then 0
    else
      var n := |ps| - 1;
      if ps[n].key == k && Greedy(l, OfFlow(k, ps[..n])).current == [] then n else OpenSince(l, ps[..n], k)
  }

  /** Every flow that still holds packets, with these, the longest open first. */
  ghost predicate IsFlush(l: Limits, ps: seq<Packet>, ws: seq<Window>) {
    && (forall i :: 0 <= i < |ws| ==> ws[i].packets == Greedy(l, OfFlow(ws[i].key, ps)).current != [])
    && (forall k :: Greedy(l, OfFlow(k, ps)).current != [] ==> exists i :: 0 <= i < |ws| && ws[i].key == k)
    && (forall i, j :: 0 <= i < j < |ws| ==> OpenSince(l, ps, ws[i].key) < OpenSince(l, ps, ws[j].key))
  }

  ghost predicate InOrderOfEmission(l: Limits, ps: seq<Packet>, ws: seq<Window>) {
    var closings := Closings(l, ps);
    closings <= ws && IsFlush(l, ps, ws[|closings|..])
  }

  lemma {:induction false} IngestCloses(l: Limits, ps: seq<Packet>, t: Table, p: Packet)
    requires Current(t, p.key) == Greedy(l, OfFlow(p.key, ps)).current
    ensures Ingest(l, t, p).emitted == Tagged(p.key, ClosedBy(l, ps, p))
  {
    ClosedGrows(l, OfFlow(p.key, ps), p);
  }

  lemma {:induction false} EmittedAreClosings(l: Limits, ps: seq<Packet>)
    ensures Run(l, EMPTY, ps).emitted == Closings(l, ps)
  {
    if ps != [] {
      var n := |ps| - 1;
      EmittedAreClosings(l, ps[..n]);
      RunIsGreedy(l, ps[..n], ps[n].key);
      IngestCloses(l, ps[..n], Run(l, EMPTY, ps[..n]).table, ps[n]);
    }
  }

  // ------------------------------------------------------------ the dictionary's order

  predicate Rising(f: Key -> int, order: seq<Key>) {
    forall i, j :: 0 <= i < j < |order| ==> f(order[i]) < f(order[j])
  }

  lemma {:induction false} WithoutRises(f: Key -> int, order: seq<Key>, k: Key)
    requires Rising(f, order)
    ensures Rising(f, Without(order, k))
  {
    if order != [] {
      var n := |order| - 1;
      WithoutRises(f, order[..n], k);
      WithoutKeeps(order[..n], k);
      forall x | x in Without(order[..n], k)
        ensures f(x) < f(order[n])
      {
        var i :| 0 <= i < n && order[i] == x;
      }
    }
  }

  lemma RisingAlike(f: Key -> int, g: Key -> int, order: seq<Key>)
    requires Rising(f, order) && forall x :: x in order ==> f(x) == g(x)
    ensures Rising(g, order)
  {
  }

  function Since(l: Limits, ps: seq<Packet>): Key -> int {
    k => OpenSince(l, ps, k)
  }

  lemma {:induction false} OpenBefore(l: Limits, ps: seq<Packet>, k: Key)
    requires ps != []
    ensures OpenSince(l, ps, k) < |ps|
  {
    var n := |ps| - 1;
    if n > 0 {
      OpenBefore(l, ps[..n], k);
    } else {
      assert OpenSince(l, ps[..n], k) == 0;
    }
  }

  lemma SinceElsewhere(l: Limits, ps: seq<Packet>, k: Key)
    requires ps != [] && ps[|ps| - 1].key != k
    ensures Since(l, ps)(k) == Since(l, ps[..|ps| - 1])(k)
  {
  }

  /** A packet leaves the order rising, whatever it does to its own flow's place. */
  lemma {:induction false} IngestRises(l: Limits, ps: seq<Packet>, t: Table, t': Table)
    requires ps != [] && Sound(l, t) && Changed(t, t', ps[|ps| - 1].key)
    requires Rising(Since(l, ps[..|ps| - 1]), t.order) && (|ps| == 1 ==> t.order == [])
    requires Current(t, ps[|ps| - 1].key) == Greedy(l, OfFlow(ps[|ps| - 1].key, ps[..|ps| - 1])).current
    ensures Rising(Since(l, ps), t'.order)
  {
    var n := |ps| - 1;
    var k := ps[n].key;
    forall x | x != k
      ensures Since(l, ps)(x) == Since(l, ps[..n])(x)
    {
      SinceElsewhere(l, ps, x);
    }
    if k in t.growing && k in t'.growing {
      RisingAlike(Since(l, ps[..n]), Since(l, ps), t.order);
    } else {
      WithoutRises(Since(l, ps[..n]), t.order, k);
      WithoutKeeps(t.order, k);
      RisingAlike(Since(l, ps[..n]), Since(l, ps), Without(t.order, k));
      if k in t'.growing {
        NewcomerLast(l, ps, t.order);
      }
    }
  }

  lemma {:induction false} NewcomerLast(l: Limits, ps: seq<Packet>, order: seq<Key>)
    requires ps != [] && (|ps| == 1 ==> order == []) && ps[|ps| - 1].key !in order
    requires Rising(Since(l, ps[..|ps| - 1]), order)
    requires Greedy(l, OfFlow(ps[|ps| - 1].key, ps[..|ps| - 1])).current == []
    ensures Rising(Since(l, ps), order + [ps[|ps| - 1].key])
  {
    var n := |ps| - 1;
    forall x | x in order
      ensures Since(l, ps)(x) == Since(l, ps[..n])(x) < n
    {
      SinceElsewhere(l, ps, x);
      OpenBefore(l, ps[..n], x);
    }
    assert Since(l, ps)(ps[n].key) == n;
  }

  lemma {:induction false} RunRises(l: Limits, ps: seq<Packet>)
    ensures Rising(Since(l, ps), Run(l, EMPTY, ps).table.order)
  {
    if ps != [] {
      var n := |ps| - 1;
      var t := Run(l, EMPTY, ps[..n]).table;
      RunRises(l, ps[..n]);
      RunKeepsSound(l, EMPTY, ps[..n]);
      RunIsGreedy(l, ps[..n], ps[n].key);
      IngestChanges(l, t, ps[n]);
      IngestRises(l, ps, t, Ingest(l, t, ps[n]).table);
    }
  }

  lemma {:induction false} HeldAt(t: Table, order: seq<Key>)
    ensures |Held(t, order)| == |order|
    ensures forall i :: 0 <= i < |order| ==> Held(t, order)[i] == Window(order[i], Current(t, order[i]))
  {
    if order != [] {
      HeldAt(t, order[..|order| - 1]);
    }
  }

  /** The table holds what the flows' own packets leave open. */
  ghost predicate HoldsOpen(l: Limits, ps: seq<Packet>, t: Table) {
    forall k :: Greedy(l, OfFlow(k, ps)).current == Current(t, k)
  }

  lemma {:induction false} RunHoldsOpen(l: Limits, ps: seq<Packet>)
    ensures HoldsOpen(l, ps, Run(l, EMPTY, ps).table)
  {
    forall k
      ensures Greedy(l, OfFlow(k, ps)).current == Current(Run(l, EMPTY, ps).table, k)
    {
      RunIsGreedy(l, ps, k);
    }
  }

  lemma {:induction false} HeldAreOpen(l: Limits, ps: seq<Packet>, t: Table, ws: seq<Window>, i: nat)
    requires Sound(l, t) && HoldsOpen(l, ps, t) && ws == Held(t, t.order) && i < |ws|
    ensures ws[i].packets == Greedy(l, OfFlow(ws[i].key, ps)).current != []
  {
    HeldAt(t, t.order);
    assert t.order[i] in t.growing;
  }

  lemma {:induction false} OpenAreHeld(l: Limits, ps: seq<Packet>, t: Table, ws: seq<Window>, k: Key)
    requires Sound(l, t) && HoldsOpen(l, ps, t) && ws == Held(t, t.order)
    requires Greedy(l, OfFlow(k, ps)).current != []
    ensures exists i :: 0 <= i < |ws| && ws[i].key == k
  {
    HeldAt(t, t.order);
    assert Current(t, k) != [];
    var i :| 0 <= i < |t.order| && t.order[i] == k;
    assert ws[i].key == k;
  }

  lemma {:induction false} HeldRise(l: Limits, ps: seq<Packet>, t: Table, ws: seq<Window>, i: nat, j: nat)
    requires Rising(Since(l, ps), t.order) && ws == Held(t, t.order) && i < j < |ws|
    ensures OpenSince(l, ps, ws[i].key) < OpenSince(l, ps, ws[j].key)
  {
    HeldAt(t, t.order);
    assert Since(l, ps)(t.order[i]) < Since(l, ps)(t.order[j]);
  }

  lemma {:induction false} HeldIsFlush(l: Limits, ps: seq<Packet>, t: Table, ws: seq<Window>)
    requires Sound(l, t) && HoldsOpen(l, ps, t) && Rising(Since(l, ps), t.order) && ws == Held(t, t.order)
    ensures IsFlush(l, ps, ws)
  {
    forall i | 0 <= i < |ws|
      ensures ws[i].packets == Greedy(l, OfFlow(ws[i].key, ps)).current != []
    {
      HeldAreOpen(l, ps, t, ws, i);
    }
    forall k | Greedy(l, OfFlow(k, ps)).current != []
      ensures exists i :: 0 <= i < |ws| && ws[i].key == k
    {
      OpenAreHeld(l, ps, t, ws, k);
    }
    forall i, j | 0 <= i < j < |ws|
      ensures OpenSince(l, ps, ws[i].key) < OpenSince(l, ps, ws[j].key)
    {
      HeldRise(l, ps, t, ws, i, j);
    }
  }

  // ------------------------------------------------------------------- uniqueness

  predicate Ascending(f: Window -> int, ws: seq<Window>) {
    forall i, j :: 0 <= i < j < |ws| ==> f(ws[i]) < f(ws[j])
  }

  lemma LastIsLast(f: Window -> int, v: seq<Window>, w: seq<Window>)
    requires Ascending(f, v) && Ascending(f, w) && v != [] && w != []
    requires (forall x :: x in v <==> x in w)
    ensures v[|v| - 1] == w[|w| - 1]
  {
    var m, n := |v| - 1, |w| - 1;
    assert v[m] in w && w[n] in v;
    var j :| 0 <= j <= n && w[j] == v[m];
    var i :| 0 <= i <= m && v[i] == w[n];
  }

  lemma EmptyTogether(v: seq<Window>, w: seq<Window>)
    requires forall x :: x in v <==> x in w
    ensures v == [] <==> w == []
  {
    if v != [] {
      assert v[0] in w;
    }
    if w != [] {
      assert w[0] in v;
    }
  }

  lemma InitMembers(f: Window -> int, v: seq<Window>, x: Window)
    requires Ascending(f, v) && v != []
    ensures x in v[..|v| - 1] <==> x in v && x != v[|v| - 1]
  {
    var m := |v| - 1;
    if x in v && x != v[m] {
      var i :| 0 <= i <= m && v[i] == x;
      assert v[..m][i] == x;
    }
  }

  /** Two ascending lists with the same members are the same list. */
  lemma AscendingUnique(f: Window -> int, v: seq<Window>, w: seq<Window>)
    requires Ascending(f, v) && Ascending(f, w) && (forall x :: x in v <==> x in w)
    ensures v == w
  {
    EmptyTogether(v, w);
    if v != [] {
      var m, n := |v| - 1, |w| - 1;
      LastIsLast(f, v, w);
      forall x
        ensures x in v[..m] <==> x in w[..n]
      {
        InitMembers(f, v, x);
        InitMembers(f, w, x);
      }
      AscendingUnique(f, v[..m], w[..n]);
      assert v == v[..m] + [v[m]] && w == w[..n] + [w[n]];
    }
  }

  lemma {:induction false} FlushMembers(l: Limits, ps: seq<Packet>, v: seq<Window>, x: Window)
    requires IsFlush(l, ps, v)
    ensures x in v <==> x.packets == Greedy(l, OfFlow(x.key, ps)).current != []
  {
    if x.packets == Greedy(l, OfFlow(x.key, ps)).current != [] {
      var i :| 0 <= i < |v| && v[i].key == x.key;
      assert v[i] == x;
    }
  }

  /** For every stream exactly one list of windows is in the order of emission, the one
      that a whole capture emits. */
  lemma EmittedIsTheOrder(l: Limits, ps: seq<Packet>, ws: seq<Window>)
    ensures InOrderOfEmission(l, ps, ws) <==> ws == Emitted(l, EMPTY, ps)
  {
    var t, n := Run(l, EMPTY, ps).table, |Closings(l, ps)|;
    EmittedAreClosings(l, ps);
    RunKeepsSound(l, EMPTY, ps);
    RunHoldsOpen(l, ps);
    RunRises(l, ps);
    HeldIsFlush(l, ps, t, Flushed(t));
    assert Emitted(l, EMPTY, ps)[n..] == Flushed(t);
    if InOrderOfEmission(l, ps, ws) {
      FlushUnique(l, ps, ws[n..], Flushed(t));
      assert ws == ws[..n] + ws[n..];
    }
  }

  lemma FlushUnique(l: Limits, ps: seq<Packet>, v: seq<Window>, w: seq<Window>)
    requires IsFlush(l, ps, v) && IsFlush(l, ps, w)
    ensures v == w
  {
    forall x
      ensures x in v <==> x in w
    {
      FlushMembers(l, ps, v, x);
      FlushMembers(l, ps, w, x);
    }
    AscendingUnique((x: Window) => OpenSince(l, ps, x.key), v, w);
  }
}

/** How one flow's packets are cut into windows: the greedy rule, and the declarative
    segmentation that it computes and that is unique. */
module FlowSegmentation {
  import Entropy

  datatype Key = Key(srcIp: string, dstIp: string, srcPort: int, dstPort: int, protocol: string)

  datatype Packet = Packet(timestamp: real, key: Key, size: nat, ttl: int, payload: seq<Entropy.Byte>)

  datatype Limits = Limits(timeout: real, maxPackets: int)

  /** A window always takes its first packet, however small the limit. */
  function Cap(l: Limits): nat {
    if l.maxPackets < 1 then 1 else l.maxPackets
  }

  function LastTime(w: seq<Packet>): real
    requires w != []
  {
    w[|w| - 1].timestamp
  }

  predicate Expired(l: Limits, w: seq<Packet>, p: Packet) {
    w != [] && p.timestamp - LastTime(w) > l.timeout
  }

  /** The windows closed so far and the one still growing. */
  datatype Cutting = Cutting(closed: seq<seq<Packet>>, current: seq<Packet>)

  function Cut(l: Limits, c: Cutting, p: Packet): Cutting {
    var kept := if Expired(l, c.current, p) then Cutting(c.closed + [c.current], []) else c;
    var w := kept.current + [p];
    if |w| >= l.maxPackets then Cutting(kept.closed + [w], []) else Cutting(kept.closed, w)
  }

  function Greedy(l: Limits, ps: seq<Packet>): Cutting {
    if ps == [] then Cutting([], []) else Cut(l, Greedy(l, ps[..|ps| - 1]), ps[|ps| - 1])
  }

  function Windows(c: Cutting): seq<seq<Packet>> {
    if c.current == [] then c.closed else c.closed + [c.current]
  }

  // ------------------------------------------------------ the declarative reading

  function Flatten(ws: seq<seq<Packet>>): seq<Packet> {
    if ws == [] then [] else Flatten(ws[..|ws| - 1]) + ws[|ws| - 1]
  }

  predicate Unbroken(l: Limits, w: seq<Packet>) {
    forall i :: 0 < i < |w| ==> w[i].timestamp - w[i - 1].timestamp <= l.timeout
  }

  predicate IsWindow(l: Limits, w: seq<Packet>) {
    w != [] && |w| <= Cap(l) && Unbroken(l, w)
  }

  /** A window may end only because it is full or because the next packet is late. */
  predicate EndsBefore(l: Limits, w: seq<Packet>, next: Packet)
    requires w != []
  {
    |w| == Cap(l) || next.timestamp - LastTime(w) > l.timeout
  }

  predicate AllWindows(l: Limits, ws: seq<seq<Packet>>) {
    forall i :: 0 <= i < |ws| ==> IsWindow(l, ws[i])
  }

  predicate EndsJustified(l: Limits, ws: seq<seq<Packet>>)
    requires AllWindows(l, ws)
  {
    forall i :: 0 < i < |ws| ==> EndsBefore(l, ws[i - 1], ws[i][0])
  }

  predicate IsSegmentation(l: Limits, ws: seq<seq<Packet>>, ps: seq<Packet>) {
    Flatten(ws) == ps && AllWindows(l, ws) && EndsJustified(l, ws)
  }

  // --------------------------------------------------- the greedy rule achieves it

  lemma NewWindow(l: Limits, ws: seq<seq<Packet>>, ps: seq<Packet>, p: Packet)
    requires IsSegmentation(l, ws, ps)
    requires ws != [] ==> EndsBefore(l, ws[|ws| - 1], p)
    ensures IsSegmentation(l, ws + [[p]], ps + [p])
  {
  }

  lemma LongerWindow(l: Limits, ws: seq<seq<Packet>>, w: seq<Packet>, ps: seq<Packet>, p: Packet)
    requires IsSegmentation(l, ws + [w], ps)
    requires |w| < Cap(l) && !Expired(l, w, p)
    ensures IsSegmentation(l, ws + [w + [p]], ps + [p])
  {
  }

  /** What holds between packets: the current window has room, and when there is none
      the last closed one is full. */
  predicate Ready(l: Limits, c: Cutting, ps: seq<Packet>) {
    && IsSegmentation(l, Windows(c), ps)
    && |c.current| < Cap(l)
    && (c.current == [] && c.closed != [] ==> |c.closed[|c.closed| - 1]| == Cap(l))
  }

  lemma CutStaysReady(l: Limits, c: Cutting, ps: seq<Packet>, p: Packet)
    requires Ready(l, c, ps)
    ensures Ready(l, Cut(l, c, p), ps + [p])
  {
    var ws := Windows(c);
    if c.current != [] && !Expired(l, c.current, p) {
      LongerWindow(l, c.closed, c.current, ps, p);
      assert Windows(Cut(l, c, p)) == c.closed + [c.current + [p]];
    } else {
      NewWindow(l, ws, ps, p);
      assert [] + [p] == [p];
      assert Windows(Cut(l, c, p)) == ws + [[p]];
    }
  }

  lemma {:induction false} GreedyIsReady(l: Limits, ps: seq<Packet>)
    ensures Ready(l, Greedy(l, ps), ps)
  {
    if ps != [] {
      var n := |ps| - 1;
      GreedyIsReady(l, ps[..n]);
      CutStaysReady(l, Greedy(l, ps[..n]), ps[..n], ps[n]);
      assert ps == ps[..n] + [ps[n]];
    }
  }

  // ------------------------------------------------------------------ uniqueness

  lemma {:induction false} FlattenHead(ws: seq<seq<Packet>>)
    requires ws != []
    ensures Flatten(ws) == ws[0] + Flatten(ws[1..])
  {
    var n := |ws| - 1;
    if n > 0 {
      FlattenHead(ws[..n]);
      assert ws[..n][1..] == ws[1..][..n - 1];
    } else {
      assert Flatten(ws[..0]) == [] && Flatten(ws[1..]) == [];
    }
  }

  lemma TailIsSegmentation(l: Limits, ws: seq<seq<Packet>>, ps: seq<Packet>)
    requires IsSegmentation(l, ws, ps) && ws != []
    ensures |ws[0]| <= |ps| && ws[0] == ps[..|ws[0]|] && ws[0] != []
    ensures IsSegmentation(l, ws[1..], ps[|ws[0]|..])
  {
    FlattenHead(ws);
    assert IsWindow(l, ws[0]);
    var tail := ws[1..];
    forall i | 0 <= i < |tail|
      ensures IsWindow(l, tail[i])
    {
      assert tail[i] == ws[i + 1];
    }
    forall i | 0 < i < |tail|
      ensures EndsBefore(l, tail[i - 1], tail[i][0])
    {
      assert EndsBefore(l, ws[i], ws[i + 1][0]);
    }
  }

  /** Between packet n - 1 and packet n a first window of n packets may end. */
  predicate MayEndAt(l: Limits, ps: seq<Packet>, n: nat)
    requires 0 < n < |ps|
  {
    n == Cap(l) || ps[n].timestamp - ps[n - 1].timestamp > l.timeout
  }

  lemma FirstWindowEnds(l: Limits, ws: seq<seq<Packet>>, ps: seq<Packet>)
    requires IsSegmentation(l, ws, ps) && ws != [] && |ws[0]| < |ps|
    ensures 0 < |ws[0]| && MayEndAt(l, ps, |ws[0]|)
  {
    TailIsSegmentation(l, ws, ps);
    var n := |ws[0]|;
    assert ws[1..] != [];
    FlattenHead(ws[1..]);
    assert IsWindow(l, ws[1]) && EndsBefore(l, ws[0], ws[1][0]);
    assert ps[n..][0] == ws[1][0];
  }

  lemma FirstWindowGoesOn(l: Limits, ws: seq<seq<Packet>>, ps: seq<Packet>, n: nat)
    requires IsSegmentation(l, ws, ps) && ws != [] && 0 < n < |ws[0]|
    ensures n < |ps| && !MayEndAt(l, ps, n)
  {
    TailIsSegmentation(l, ws, ps);
    assert IsWindow(l, ws[0]);
    assert ps[n] == ws[0][n] && ps[n - 1] == ws[0][n - 1];
  }

  /** No segmentation ends its first window before another one does. */
  lemma FirstWindowMaximal(l: Limits, a: seq<seq<Packet>>, b: seq<seq<Packet>>, ps: seq<Packet>)
    requires IsSegmentation(l, a, ps) && IsSegmentation(l, b, ps) && a != [] && b != []
    ensures |b[0]| <= |a[0]|
  {
    TailIsSegmentation(l, a, ps);
    TailIsSegmentation(l, b, ps);
    if |a[0]| < |b[0]| {
      FirstWindowEnds(l, a, ps);
      FirstWindowGoesOn(l, b, ps, |a[0]|);
    }
  }

  lemma SegmentationUnique(l: Limits, a: seq<seq<Packet>>, b: seq<seq<Packet>>,
                                              ps: seq<Packet>)
    requires IsSegmentation(l, a, ps) && IsSegmentation(l, b, ps)
    ensures a == b
    decreases |a|
  {
    if a != [] {
      TailIsSegmentation(l, a, ps);
    }
    if b != [] {
      TailIsSegmentation(l, b, ps);
    }
    if a != [] && b != [] {
      FirstWindowMaximal(l, a, b, ps);
      FirstWindowMaximal(l, b, a, ps);
      SegmentationUnique(l, a[1..], b[1..], ps[|a[0]|..]);
      assert a == [a[0]] + a[1..] && b == [b[0]] + b[1..];
    }
  }

  /** The greedy windows, with the unfinished one last, are the one and only segmentation. */
  lemma {:induction false} GreedyIsTheSegmentation(l: Limits, ps: seq<Packet>, ws: seq<seq<Packet>>)
    ensures IsSegmentation(l, ws, ps) <==> ws == Windows(Greedy(l, ps))
  {
    GreedyIsReady(l, ps);
    if IsSegmentation(l, ws, ps) {
      SegmentationUnique(l, ws, Windows(Greedy(l, ps)), ps);
    }
  }
}

/** Answers computed one after another over a state that every one of them changes. */
module Threading {

  /** The state after all inputs. */
  function Folded<W, S>(step: (S, W) -> S, s: S, ws: seq<W>): S {
    if ws == [] then s else step(Folded(step, s, ws[..|ws| - 1]), ws[|ws| - 1])
  }

  /** Each input is answered in the state that all inputs before it have left. */
  function Answers<W, S, R>(step: (S, W) -> S, answer: (S, W) -> R, s: S, ws: seq<W>): (rs: seq<R>)
    ensures |rs| == |ws|
    ensures forall i :: 0 <= i < |rs| ==> rs[i] == answer(Folded(step, s, ws[..i]), ws[i])
  {
    seq(|ws|, i requires 0 <= i < |ws| => answer(Folded(step, s, ws[..i]), ws[i]))
  }

  lemma {:induction false} FoldedSnoc<W, S>(step: (S, W) -> S, s: S, ws: seq<W>, w: W)
    ensures Folded(step, s, ws + [w]) == step(Folded(step, s, ws), w)
  {
  }

  lemma {:induction false} AnswersSnoc<W, S, R>(step: (S, W) -> S, answer: (S, W) -> R, s: S, ws: seq<W>, w: W)
    ensures Answers(step, answer, s, ws + [w])
         == Answers(step, answer, s, ws) + [answer(Folded(step, s, ws), w)]
  {
    forall i | 0 <= i <= |ws|
      ensures (ws + [w])[..i] == ws[..i]
    {
    }
    assert ws[..|ws|] == ws;
  }

  /** A second list of inputs starts in the state the first has left. */
  lemma {:induction false} FoldedSum<W, S>(step: (S, W) -> S, s: S, v: seq<W>, w: seq<W>)
    ensures Folded(step, s, v + w) == Folded(step, Folded(step, s, v), w)
  {
    if w == [] {
      assert v + w == v;
    } else {
      var n := |w| - 1;
      FoldedSum(step, s, v, w[..n]);
      assert v + w == (v + w[..n]) + [w[n]];
      FoldedSnoc(step, s, v + w[..n], w[n]);
    }
  }

  lemma {:induction false} AnswersSum<W, S, R>(step: (S, W) -> S, answer: (S, W) -> R, s: S,
                                               v: seq<W>, w: seq<W>)
    ensures Answers(step, answer, s, v + w)
         == Answers(step, answer, s, v) + Answers(step, answer, Folded(step, s, v), w)
  {
    var both := v + w;
    forall i | 0 <= i < |both|
      ensures Folded(step, s, both[..i])
           == if i < |v| then Folded(step, s, v[..i]) else Folded(step, Folded(step, s, v), w[..i - |v|])
    {
      if i < |v| {
        assert both[..i] == v[..i];
      } else {
        assert both[..i] == v + w[..i - |v|];
        FoldedSum(step, s, v, w[..i - |v|]);
      }
    }
  }
}

/** The two ledgers of a run, told from the list of its steps alone: which rows and
    lines there are, and in what order. */
module LedgerHistory {
  import opened LedgerRecord
  import opened LedgerChain
  import opened LedgerProtocol

  /** The record of an event that follows the rows seen. */
  function Entered(h: HashFn, seen: seq<Record>, e: Event): Record {
    var r := Record(|seen| + 1, e.timestamp, e.action, e.actor, Head(seen), e.payload, "");
    r.(recordHash := h(Preimage(r)))
  }

  /** The rows of the transactions that were committed, in the order of the commits. */
  function CommittedBy(h: HashFn, acts: seq<Action>): seq<Record> {
    if acts == [] then []
    else
      var init, a := acts[..|acts| - 1], acts[|acts| - 1];
      CommittedBy(h, init) + if a.Commit? then FlushedBy(h, init, a.t) else []
  }

  /** The rows that `t` has flushed since it last began. */
  function FlushedBy(h: HashFn, acts: seq<Action>, t: TxId): seq<Record> {
    if acts == [] then []
    else
      var init, a := acts[..|acts| - 1], acts[|acts| - 1];
      if a == Begin(t) then []
      else FlushedBy(h, init, t) + if a.Flush? && a.t == t then [Entered(h, SeenBy(h, init, t), a.event)] else []
  }

  /** The rows that `t` saw when it last read the head. */
  function SeenBy(h: HashFn, acts: seq<Action>, t: TxId): seq<Record> {
    if acts == [] then []
    else
      var init, a := acts[..|acts| - 1], acts[|acts| - 1];
      if a == ReadHead(t) then CommittedBy(h, init) + FlushedBy(h, init, t) else SeenBy(h, init, t)
  }

  /** The rows whose line was written, in the order of the writing. */
  function WrittenBy(h: HashFn, acts: seq<Action>): seq<Record> {
    if acts == [] then []
    else
      var init, a := acts[..|acts| - 1], acts[|acts| - 1];
      WrittenBy(h, init) + if a.WriteLine? && a.succeeds then LastOf(FlushedBy(h, init, a.t)) else []
  }

  function LastOf(rs: seq<Record>): seq<Record> {
    if rs == [] then [] else [rs[|rs| - 1]]
  }

  function FailedWrites(acts: seq<Action>): nat {
    if acts == [] then 0
    else
      var a := acts[|acts| - 1];
      FailedWrites(acts[..|acts| - 1]) + if a.WriteLine? && !a.succeeds then 1 else 0
  }

  /** An open transaction holds what it flushed, and knows the head it read. */
  ghost predicate TxTold(h: HashFn, acts: seq<Action>, t: TxId, tx: Transaction) {
    var seen := SeenBy(h, acts, t);
    && tx.rows == FlushedBy(h, acts, t)
    && (tx.phase.HeadKnown? ==> tx.phase == HeadKnown(|seen| + 1, Head(seen)))
    && (tx.phase.Flushed? ==> LastOf(tx.rows) == [tx.phase.record])
  }

  ghost predicate Told(h: HashFn, acts: seq<Action>, s: System) {
    && s.committed == CommittedBy(h, acts)
    && s.file == WrittenBy(h, acts)
    && s.lost == FailedWrites(acts)
    && forall t :: t in s.open ==> TxTold(h, acts, t, s.open[t])
  }

  /** A step by another transaction leaves a transaction's history alone. */
  lemma OthersTold(h: HashFn, acts: seq<Action>, a: Action, t: TxId, tx: Transaction)
    requires TxTold(h, acts, t, tx) && a.t != t
    ensures TxTold(h, acts + [a], t, tx)
  {
    assert (acts + [a])[..|acts|] == acts;
  }

  /** A step of its own that changes neither the rows nor what is known of the head. */
  lemma PhaseTold(h: HashFn, acts: seq<Action>, a: Action, t: TxId, tx: Transaction,
                                     tx': Transaction)
    requires TxTold(h, acts, t, tx) && tx'.rows == tx.rows && (tx'.phase.Ready? || tx'.phase.Serialized?)
    requires !a.Begin? && !a.Flush?
    ensures TxTold(h, acts + [a], t, tx')
  {
    assert (acts + [a])[..|acts|] == acts;
  }

  lemma HeadOfValid(h: HashFn, seen: seq<Record>)
    requires ValidChain(h, seen)
    ensures AfterLatest(seen) == HeadKnown(|seen| + 1, Head(seen))
  {
    LatestIsLast(h, seen);
  }

  lemma ReadTold(h: HashFn, acts: seq<Action>, s: System, t: TxId)
    requires Told(h, acts, s) && ChainInv(h, s) && ReadStep(s, t).Some?
    ensures TxTold(h, acts + [ReadHead(t)], t, ReadStep(s, t).value.open[t])
  {
    var seen := s.committed + s.open[t].rows;
    assert (acts + [ReadHead(t)])[..|acts|] == acts;
    assert TxTold(h, acts, t, s.open[t]) && TxInv(h, s.committed, s.open[t]);
    HeadOfValid(h, seen);
    assert SeenBy(h, acts + [ReadHead(t)], t) == seen;
  }

  lemma FlushTold(h: HashFn, acts: seq<Action>, t: TxId, e: Event, tx: Transaction, r: Record)
    requires TxTold(h, acts, t, tx) && tx.phase.HeadKnown?
    requires r == Sealed(h, tx.phase.next, tx.phase.previous, e)
    ensures TxTold(h, acts + [Flush(t, e)], t, tx.(rows := tx.rows + [r], phase := Flushed(r)))
  {
    assert (acts + [Flush(t, e)])[..|acts|] == acts;
    assert r == Entered(h, SeenBy(h, acts, t), e);
  }

  lemma {:induction false} HistorySnoc(h: HashFn, acts: seq<Action>, a: Action)
    ensures CommittedBy(h, acts + [a]) == CommittedBy(h, acts) + if a.Commit? then FlushedBy(h, acts, a.t) else []
    ensures WrittenBy(h, acts + [a])
         == WrittenBy(h, acts) + if a.WriteLine? && a.succeeds then LastOf(FlushedBy(h, acts, a.t)) else []
    ensures FailedWrites(acts + [a]) == FailedWrites(acts) + if a.WriteLine? && !a.succeeds then 1 else 0
  {
    assert (acts + [a])[..|acts|] == acts;
  }

  /** What one step does to the ledgers. */
  lemma StepOnLedgers(h: HashFn, s: System, a: Action)
    requires Next(h, s, a).Some?
    ensures a.Commit? ==> a.t in s.open
    ensures a.WriteLine? ==> a.t in s.open && s.open[a.t].phase.Flushed?
    ensures var s' := Next(h, s, a).value;
            && s'.committed == s.committed + (if a.Commit? then s.open[a.t].rows else [])
            && s'.file == s.file + (if a.WriteLine? && a.succeeds then [s.open[a.t].phase.record] else [])
            && s'.lost == s.lost + if a.WriteLine? && !a.succeeds then 1 else 0
  {
    assert s.committed + [] == s.committed && s.file + [] == s.file;
  }

  lemma {:induction false} LedgersTold(h: HashFn, acts: seq<Action>, s: System, a: Action)
    requires Told(h, acts, s) && ChainInv(h, s) && Next(h, s, a).Some?
    ensures var s' := Next(h, s, a).value;
            && s'.committed == CommittedBy(h, acts + [a])
            && s'.file == WrittenBy(h, acts + [a])
            && s'.lost == FailedWrites(acts + [a])
  {
    HistorySnoc(h, acts, a);
    StepOnLedgers(h, s, a);
    if a.t in s.open {
      assert TxTold(h, acts, a.t, s.open[a.t]);
    }
  }

  /** The transaction that made the step, if it is still open. */
  lemma ActorTold(h: HashFn, acts: seq<Action>, s: System, a: Action)
    requires Told(h, acts, s) && ChainInv(h, s) && Next(h, s, a).Some?
    ensures var s' := Next(h, s, a).value;
            a.t in s'.open ==> TxTold(h, acts + [a], a.t, s'.open[a.t])
  {
    var s' := Next(h, s, a).value;
    if !a.Begin? && a.t in s'.open {
      var tx := s.open[a.t];
      assert TxTold(h, acts, a.t, tx);
      if a.ReadHead? {
        ReadTold(h, acts, s, a.t);
      } else if a.Flush? {
        FlushTold(h, acts, a.t, a.event, tx, Sealed(h, tx.phase.next, tx.phase.previous, a.event));
      } else {
        PhaseTold(h, acts, a, a.t, tx, s'.open[a.t]);
      }
    }
  }

  lemma StepTold(h: HashFn, acts: seq<Action>, s: System, a: Action)
    requires Told(h, acts, s) && ChainInv(h, s) && Next(h, s, a).Some?
    ensures Told(h, acts + [a], Next(h, s, a).value)
  {
    var s' := Next(h, s, a).value;
    LedgersTold(h, acts, s, a);
    ActorTold(h, acts, s, a);
    forall u | u in s'.open && u != a.t
      ensures TxTold(h, acts + [a], u, s'.open[u])
    {
      assert s'.open[u] == s.open[u];
      OthersTold(h, acts, a, u, s.open[u]);
    }
  }

  lemma {:induction false} RunTold(h: HashFn, acts: seq<Action>)
    requires Run(h, acts).Some?
    ensures Told(h, acts, Run(h, acts).value)
  {
    if acts != [] {
      var init, a := acts[..|acts| - 1], acts[|acts| - 1];
      RunTold(h, init);
      RunKeepsChain(h, init);
      StepTold(h, init, Run(h, init).value, a);
      assert acts == init + [a];
    }
  }

  /** After every run, with rollbacks, refused flushes and failed writes in any place, the
      database holds exactly the rows of the transactions that committed, in the order of
      the commits, and the file the rows whose line was written, in the order of writing;
      an open transaction holds what it flushed since it began. */
  lemma {:induction false} LedgersHoldTheHistory(h: HashFn, acts: seq<Action>)
    requires Run(h, acts).Some?
    ensures var s := Run(h, acts).value;
            && s.committed == CommittedBy(h, acts)
            && s.file == WrittenBy(h, acts)
            && s.lost == FailedWrites(acts)
            && forall t :: t in s.open ==> s.open[t].rows == FlushedBy(h, acts, t)
  {
    RunTold(h, acts);
    var s := Run(h, acts).value;
    assert forall t :: t in s.open ==> TxTold(h, acts, t, s.open[t]);
  }
}

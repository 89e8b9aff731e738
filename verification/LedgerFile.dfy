/** The flat file beside the database in the same runs: what it holds when every
    write succeeded, and exactly when the two ledgers agree. */
module LedgerFile {
  import opened LedgerRecord
  import opened LedgerVerifiers
  import opened LedgerProtocol

  /** `a` can be obtained from `b` by leaving elements out. */
  predicate Subsequence(a: seq<Record>, b: seq<Record>) {
    a == []
    || (b != [] && a[|a| - 1] == b[|b| - 1] && Subsequence(a[..|a| - 1], b[..|b| - 1]))
    || (b != [] && Subsequence(a, b[..|b| - 1]))
  }

  lemma {:induction false} SubsequenceOfLonger(a: seq<Record>, b: seq<Record>, last: Record)
    requires Subsequence(a, b)
    ensures Subsequence(a, b + [last]) && Subsequence(a + [last], b + [last])
  {
  }

  lemma {:induction false} SubsequenceLength(a: seq<Record>, b: seq<Record>)
    requires Subsequence(a, b)
    ensures |a| <= |b| && (|a| == |b| ==> a == b)
    decreases |b|
  {
    if a != [] {
      var ai, bi := a[..|a| - 1], b[..|b| - 1];
      if a[|a| - 1] == b[|b| - 1] && Subsequence(ai, bi) {
        SubsequenceLength(ai, bi);
        assert a == ai + [a[|a| - 1]] && b == bi + [b[|b| - 1]];
      } else {
        SubsequenceLength(a, bi);
      }
    }
  }

  /** The rows of a transaction whose line has been attempted. */
  function Logged(tx: Transaction): seq<Record> {
    if tx.phase.Flushed? && tx.rows != [] then tx.rows[..|tx.rows| - 1] else tx.rows
  }

  ghost predicate Quiescent(s: System) {
    forall t :: t in s.open ==> s.open[t].rows == []
  }

  ghost predicate TxFileInv(s: System, tx: Transaction) {
    && tx.lines == |Logged(tx)|
    && Subsequence(s.committed + Logged(tx), s.file)
    && (tx.rows != [] ==> |s.file| == |s.committed| + tx.lines + s.orphans)
  }

  ghost predicate FileInv(s: System) {
    && Subsequence(s.committed, s.file)
    && (forall t :: t in s.open ==> TxFileInv(s, s.open[t]))
    && (Quiescent(s) ==> |s.file| == |s.committed| + s.orphans)
  }

  /** A change to one transaction alone. */
  lemma UpdateKeepsFile(s: System, s': System, t: TxId, tx: Transaction)
    requires FileInv(s) && s'.open == s.open[t := tx] && TxFileInv(s', tx)
    requires s'.committed == s.committed && s'.file == s.file && s'.orphans == s.orphans
    requires tx.rows != [] || t !in s.open || s.open[t].rows == []
    ensures FileInv(s')
  {
    forall u | u in s'.open
      ensures TxFileInv(s', s'.open[u])
    {
      if u != t {
        assert s'.open[u] == s.open[u];
      }
    }
    if Quiescent(s') {
      assert s'.open[t] == tx;
      forall u | u in s.open
        ensures s.open[u].rows == []
      {
        assert u in s'.open;
      }
    }
  }

  lemma FlushKeepsFile(s: System, tx: Transaction, r: Record, s': System)
    requires TxFileInv(s, tx) && !tx.phase.Flushed?
    requires s'.committed == s.committed && s'.file == s.file && s'.orphans == s.orphans
    requires tx.rows == [] ==> |s.file| == |s.committed| + s.orphans
    ensures TxFileInv(s', tx.(rows := tx.rows + [r], phase := Flushed(r)))
  {
  }

  lemma LineKeepsWriter(s: System, tx: Transaction, s': System)
    requires TxFileInv(s, tx) && tx.phase.Flushed? && tx.rows != []
    requires tx.rows[|tx.rows| - 1] == tx.phase.record
    requires s'.committed == s.committed && s'.orphans == s.orphans
    requires s'.file == s.file + [tx.phase.record]
    ensures TxFileInv(s', tx.(lines := tx.lines + 1, phase := Ready))
  {
    var r := tx.phase.record;
    SubsequenceOfLonger(s.committed + Logged(tx), s.file, r);
    assert (s.committed + Logged(tx)) + [r] == s.committed + tx.rows;
  }

  lemma LineKeepsOthers(s: System, tx: Transaction, s': System, r: Record)
    requires TxFileInv(s, tx) && tx.rows == []
    requires s'.committed == s.committed && s'.file == s.file + [r]
    ensures TxFileInv(s', tx)
  {
  }

  lemma WriteKeepsFile(s: System, s': System, t: TxId)
    requires FileInv(s) && OneWriter(s) && t in s.open && s.open[t].phase.Flushed?
    requires var tx := s.open[t];
             && tx.rows != [] && tx.rows[|tx.rows| - 1] == tx.phase.record
             && s'.committed == s.committed && s'.orphans == s.orphans
             && s'.file == s.file + [tx.phase.record]
             && s'.open == s.open[t := tx.(lines := tx.lines + 1, phase := Ready)]
    ensures FileInv(s')
  {
    var tx := s.open[t];
    SubsequenceOfLonger(s.committed, s.file, tx.phase.record);
    LineKeepsWriter(s, tx, s');
    forall u | u in s'.open && u != t
      ensures TxFileInv(s', s'.open[u])
    {
      LineKeepsOthers(s, s.open[u], s', tx.phase.record);
    }
    assert s'.open[t].rows != [];
  }

  lemma QuiescentWithout(s: System, s': System, t: TxId)
    requires t in s.open && s.open[t].rows == [] && s'.open == s.open - {t}
    ensures Quiescent(s') ==> Quiescent(s)
  {
    forall u | u in s.open && Quiescent(s')
      ensures s.open[u].rows == []
    {
      assert u == t || u in s'.open;
    }
  }

  lemma CommitKeepsFile(s: System, s': System, t: TxId)
    requires FileInv(s) && OneWriter(s) && t in s.open && s.open[t].phase.Ready?
    requires s'.committed == s.committed + s.open[t].rows && s'.open == s.open - {t}
    requires s'.file == s.file && s'.orphans == s.orphans
    ensures FileInv(s')
  {
    if s.open[t].rows == [] {
      assert s'.committed == s.committed;
      assert forall u :: u in s'.open ==> TxFileInv(s, s'.open[u]);
      QuiescentWithout(s, s', t);
    } else {
      assert Logged(s.open[t]) == s.open[t].rows;
      assert s'.committed + [] == s'.committed;
      forall u | u in s'.open
        ensures TxFileInv(s', s'.open[u])
      {
        assert TxFileInv(s, s.open[u]) && s.open[u].rows == [];
      }
    }
  }

  lemma AbortKeepsFile(s: System, t: TxId)
    requires FileInv(s) && OneWriter(s) && t in s.open
    ensures FileInv(Abort(s, t))
  {
    var s' := Abort(s, t);
    assert TxFileInv(s, s.open[t]);
    if s.open[t].rows == [] {
      assert s'.orphans == s.orphans;
      assert forall u :: u in s'.open ==> TxFileInv(s, s'.open[u]);
      QuiescentWithout(s, s', t);
    } else {
      forall u | u in s'.open
        ensures TxFileInv(s', s'.open[u])
      {
        assert TxFileInv(s, s.open[u]) && s.open[u].rows == [];
      }
    }
  }

  lemma FlushStepKeepsFile(h: HashFn, s: System, t: TxId, e: Event)
    requires ChainInv(h, s) && FileInv(s) && FlushStep(h, s, t, e).Some?
    ensures FileInv(FlushStep(h, s, t, e).value)
  {
    var s' := FlushStep(h, s, t, e).value;
    if s' == Abort(s, t) {
      AbortKeepsFile(s, t);
    } else {
      AppendedRowExtends(h, s, t, e);
      FlushKeepsFile(s, s.open[t], s'.open[t].phase.record, s');
      UpdateKeepsFile(s, s', t, s'.open[t]);
    }
  }

  lemma PhaseKeepsFile(s: System, t: TxId, p: Phase, s': System)
    requires FileInv(s) && t in s.open && !s.open[t].phase.Flushed? && !p.Flushed?
    requires s'.committed == s.committed && s'.file == s.file && s'.orphans == s.orphans
    requires s'.open == s.open[t := s.open[t].(phase := p)]
    ensures FileInv(s')
  {
    assert TxFileInv(s, s.open[t]) && Logged(s'.open[t]) == Logged(s.open[t]);
    UpdateKeepsFile(s, s', t, s'.open[t]);
  }

  lemma BeginKeepsFile(s: System, t: TxId)
    requires FileInv(s) && BeginStep(s, t).Some?
    ensures FileInv(BeginStep(s, t).value)
  {
    assert s.committed + [] == s.committed;
    UpdateKeepsFile(s, BeginStep(s, t).value, t, Transaction([], 0, Ready));
  }

  lemma LockKeepsFile(s: System, t: TxId)
    requires FileInv(s)
    ensures LockStep(s, t).Some? ==> FileInv(LockStep(s, t).value)
    ensures SkipStep(s, t).Some? ==> FileInv(SkipStep(s, t).value)
  {
    if LockStep(s, t).Some? {
      PhaseKeepsFile(s, t, Serialized, LockStep(s, t).value);
    }
    if SkipStep(s, t).Some? {
      PhaseKeepsFile(s, t, Serialized, SkipStep(s, t).value);
    }
  }

  lemma ReadKeepsFile(s: System, t: TxId)
    requires FileInv(s) && ReadStep(s, t).Some?
    ensures FileInv(ReadStep(s, t).value)
  {
    PhaseKeepsFile(s, t, AfterLatest(s.committed + s.open[t].rows), ReadStep(s, t).value);
  }

  lemma WriteStepKeepsFile(h: HashFn, s: System, t: TxId, succeeds: bool)
    requires ChainInv(h, s) && FileInv(s) && WriteStep(s, t, succeeds).Some?
    requires WriteStep(s, t, succeeds).value.lost == s.lost
    ensures FileInv(WriteStep(s, t, succeeds).value)
  {
    assert succeeds && TxInv(h, s.committed, s.open[t]);
    WriteKeepsFile(s, WriteStep(s, t, true).value, t);
  }

  lemma CommitStepKeepsFile(s: System, t: TxId)
    requires OneWriter(s) && FileInv(s) && CommitStep(s, t).Some?
    ensures FileInv(CommitStep(s, t).value)
  {
    CommitKeepsFile(s, CommitStep(s, t).value, t);
  }

  /** The steps that only change where a transaction stands. */
  predicate IsQuiet(a: Action) {
    a.Begin? || a.TakeLock? || a.SkipLock? || a.ReadHead?
  }

  lemma QuietStepKeepsFile(h: HashFn, s: System, a: Action)
    requires FileInv(s) && IsQuiet(a) && Next(h, s, a).Some?
    ensures FileInv(Next(h, s, a).value)
  {
    match a {
      case Begin(t) => BeginKeepsFile(s, t);
      case TakeLock(t) => LockKeepsFile(s, t);
      case SkipLock(t) => LockKeepsFile(s, t);
      case ReadHead(t) => ReadKeepsFile(s, t);
    }
  }

  lemma StepKeepsFile(h: HashFn, s: System, a: Action)
    requires ChainInv(h, s) && FileInv(s) && Next(h, s, a).Some?
    requires Next(h, s, a).value.lost == s.lost
    ensures FileInv(Next(h, s, a).value)
  {
    if IsQuiet(a) {
      QuietStepKeepsFile(h, s, a);
    } else {
      match a {
        case Flush(t, e) => FlushStepKeepsFile(h, s, t, e);
        case WriteLine(t, succeeds) => WriteStepKeepsFile(h, s, t, succeeds);
        case Commit(t) => CommitStepKeepsFile(s, t);
        case Rollback(t) => AbortKeepsFile(s, t);
      }
    }
  }

  lemma {:induction false} RunKeepsFile(h: HashFn, acts: seq<Action>)
    requires Run(h, acts).Some? && Run(h, acts).value.lost == 0
    ensures FileInv(Run(h, acts).value)
  {
    if acts != [] {
      var init, a := acts[..|acts| - 1], acts[|acts| - 1];
      var s := Run(h, init).value;
      LedgersOnlyGrow(h, s, a);
      RunKeepsFile(h, init);
      RunKeepsChain(h, init);
      StepKeepsFile(h, s, a);
    }
  }

  /** In every run without a failed write, the file holds every committed record, in
      chain order, between whatever lines rolled-back appends have left there. */
  lemma {:induction false} FileHoldsCommittedChain(h: HashFn, acts: seq<Action>)
    requires Run(h, acts).Some? && Run(h, acts).value.lost == 0
    ensures Subsequence(Run(h, acts).value.committed, Run(h, acts).value.file)
  {
    RunKeepsFile(h, acts);
  }

  lemma MatchingLists(a: seq<Record>, b: seq<Record>)
    ensures CrossConsistent(a, LinesOf(b)) ==> |a| == |b|
    ensures CrossConsistent(a, LinesOf(a))
  {
    CrossConsistentIff(a, LinesOf(b));
    CrossConsistentIff(a, LinesOf(a));
    WrittenLinesReadBack(a);
    WrittenLinesReadBack(b);
    assert AllMatch(a, Entries(LinesOf(a)));
  }

  /** In every run without a failed write, once no appended row is pending: the
      ledgers pass the cross-check, or are equal, exactly when no line was ever
      orphaned by a rollback. An orphaned line is never forgiven. */
  lemma {:induction false} LedgersAgreeIffNoOrphans(h: HashFn, acts: seq<Action>)
    requires Run(h, acts).Some? && Run(h, acts).value.lost == 0 && Quiescent(Run(h, acts).value)
    ensures var s := Run(h, acts).value;
            && (CrossConsistent(s.committed, LinesOf(s.file)) <==> s.orphans == 0)
            && (s.file == s.committed <==> s.orphans == 0)
  {
    var s := Run(h, acts).value;
    RunKeepsFile(h, acts);
    SubsequenceLength(s.committed, s.file);
    MatchingLists(s.committed, s.file);
    MatchingLists(s.file, s.file);
  }

  /** The three verifications taken together. */
  predicate FullyVerified(h: HashFn, db: seq<Record>, lines: seq<Line>) {
    ChainVerdict(h, db).valid && FileVerifies(h, lines) && CrossConsistent(db, lines)
  }

  /** So the dual verification of a quiescent run without failed writes succeeds
      exactly when no line was orphaned, and then database and file verifier give
      one and the same answer. */
  lemma {:induction false} DualVerificationIffNoOrphans(h: HashFn, acts: seq<Action>)
    requires Run(h, acts).Some? && Run(h, acts).value.lost == 0 && Quiescent(Run(h, acts).value)
    ensures var s := Run(h, acts).value;
            && (FullyVerified(h, s.committed, LinesOf(s.file)) <==> s.orphans == 0)
            && (s.orphans == 0 ==>
                  FileVerdict(h, LinesOf(s.file)) == Returned(ChainVerdict(h, s.committed)))
  {
    var s := Run(h, acts).value;
    LedgersAgreeIffNoOrphans(h, acts);
    EveryRunKeepsTheChain(h, acts);
    WrittenLinesReadBack(s.file);
    VerifiersAgree(h, s.file, LinesOf(s.file));
  }
}

/** Appends that run without interleaving: what their steps amount to, the method a
    session carries out, and a run that parts the two ledgers. */
module LedgerAppend {
  import opened Wrappers
  import opened LedgerRecord
  import opened LedgerChain
  import opened LedgerVerifiers
  import opened LedgerProtocol
  import opened LedgerFile

  /** An append up to and including its flush, with nothing in between. */
  function UpToFlush(h: HashFn, s: System, t: TxId, e: Event, lockGranted: bool): Option<System> {
    var s1 := if lockGranted then LockStep(s, t) else SkipStep(s, t);
    var s2 := if s1.None? then None else ReadStep(s1.value, t);
    if s2.None? then None else FlushStep(h, s2.value, t, e)
  }

  /** The record an append makes of the rows it sees. */
  function Draft(h: HashFn, seen: seq<Record>, e: Event): Record {
    var link := AfterLatest(seen);
    Sealed(h, link.next, link.previous, e)
  }

  lemma LatestNext(rs: seq<Record>, i: nat)
    requires i < |rs|
    ensures var m := Latest(rs[..i]);
            Latest(rs[..i + 1])
            == if m.Some? && rs[i].sequenceNumber <= m.value.sequenceNumber then m else Some(rs[i])
  {
    assert rs[..i + 1][..i] == rs[..i] && rs[..i + 1][i] == rs[i];
  }

  /** Whatever rows are seen, in whatever order: the draft takes number and link from one
      with the greatest number, from genesis when there is none, and the rest from the event. */
  lemma DraftFollowsLatest(h: HashFn, seen: seq<Record>, e: Event, latest: Record)
    requires latest in seen && forall r :: r in seen && r != latest ==> r.sequenceNumber < latest.sequenceNumber
    ensures var d := Draft(h, seen, e);
            && d.sequenceNumber == latest.sequenceNumber + 1 && d.previousHash == latest.recordHash
            && d.timestamp == e.timestamp && d.action == e.action && d.actor == e.actor
            && d.payload == e.payload && d.recordHash == h(Preimage(d))
    ensures var d := Draft(h, [], e); d.sequenceNumber == 1 && d.previousHash == GENESIS_HASH
  {
    SealedHash(h, AfterLatest(seen).next, AfterLatest(seen).previous, e);
  }

  /** On a valid chain the drafted record is the one that extends it. */
  lemma DraftExtends(h: HashFn, seen: seq<Record>, e: Event)
    requires ValidChain(h, seen)
    ensures Extends(h, seen, Draft(h, seen, e))
  {
    LatestIsLast(h, seen);
    SealedHash(h, AfterLatest(seen).next, AfterLatest(seen).previous, e);
  }

  /** The state after `r` has been flushed and its line attempted. */
  function AfterStore(s: System, t: TxId, tx: Transaction, r: Record, writable: bool): System {
    s.(open := map[t := Transaction(tx.rows + [r], tx.lines + (if writable then 1 else 0), Ready)],
       file := s.file + (if writable then [r] else []),
       lost := s.lost + if writable then 0 else 1)
  }

  /** The state after the lock has been tried. */
  function AfterLock(s: System, t: TxId, granted: bool): System {
    s.(lock := if granted then Some(t) else s.lock)
  }

  /** The state after a refused flush: the transaction is gone, its lines are not. */
  function AfterRefusal(s: System, tx: Transaction): System {
    s.(open := map[], lock := None, orphans := s.orphans + tx.lines)
  }

  /** The state after the flush of `r`. */
  function AfterFlush(s: System, t: TxId, tx: Transaction, r: Record): System {
    s.(open := map[t := tx.(rows := tx.rows + [r], phase := Flushed(r))])
  }

  lemma LockIs(s: System, t: TxId, tx: Transaction, granted: bool)
    requires s.open == map[t := tx] && tx.phase.Ready? && (s.lock == None || s.lock == Some(t))
    ensures (if granted then LockStep(s, t) else SkipStep(s, t))
            == Some(AfterLock(s, t, granted).(open := map[t := tx.(phase := Serialized)]))
  {
    assert s.open[t := tx.(phase := Serialized)] == map[t := tx.(phase := Serialized)];
  }

  lemma ReadIs(s: System, t: TxId, tx: Transaction)
    requires s.open == map[t := tx] && tx.phase.Serialized?
    ensures ReadStep(s, t) == Some(s.(open := map[t := tx.(phase := AfterLatest(s.committed + tx.rows))]))
  {
    var tx' := tx.(phase := AfterLatest(s.committed + tx.rows));
    assert s.open[t := tx'] == map[t := tx'];
  }

  lemma FlushIs(h: HashFn, s: System, t: TxId, tx: Transaction, e: Event, r: Record)
    requires s.open == map[t := tx] && tx.phase.HeadKnown? && (s.lock == None || s.lock == Some(t))
    requires r == Sealed(h, tx.phase.next, tx.phase.previous, e)
    ensures FlushStep(h, s, t, e) ==
            Some(if Clashes(r, s.committed + tx.rows) then AfterRefusal(s, tx) else AfterFlush(s, t, tx, r))
  {
    var tx' := tx.(rows := tx.rows + [r], phase := Flushed(r));
    assert !Waits(s, t, r);
    assert s.open - {t} == map[] && s.open[t := tx'] == map[t := tx'];
  }

  lemma ReadAfterLockIs(s: System, t: TxId, tx: Transaction, lockGranted: bool, read: Transaction)
    requires s.open == map[t := tx] && tx.phase.Ready? && (s.lock == None || s.lock == Some(t))
    requires read == tx.(phase := AfterLatest(s.committed + tx.rows))
    ensures var s1 := if lockGranted then LockStep(s, t) else SkipStep(s, t);
            s1.Some? && ReadStep(s1.value, t) == Some(AfterLock(s, t, lockGranted).(open := map[t := read]))
  {
    var tx1 := tx.(phase := Serialized);
    LockIs(s, t, tx, lockGranted);
    ReadIs(AfterLock(s, t, lockGranted).(open := map[t := tx1]), t, tx1);
  }

  lemma SameAfterRead(s: System, t: TxId, tx: Transaction, lockGranted: bool, read: Transaction, r: Record)
    requires read == tx.(phase := read.phase)
    ensures var s2 := AfterLock(s, t, lockGranted).(open := map[t := read]);
            && AfterRefusal(s2, read) == AfterRefusal(s, tx)
            && AfterFlush(s2, t, read, r) == AfterFlush(AfterLock(s, t, lockGranted), t, tx, r)
  {
  }

  /** What the first three steps come to when no other transaction is open. */
  lemma UpToFlushIs(h: HashFn, s: System, t: TxId, tx: Transaction, e: Event, lockGranted: bool,
                    r: Record)
    requires s.open == map[t := tx] && tx.phase.Ready? && (s.lock == None || s.lock == Some(t))
    requires r == Draft(h, s.committed + tx.rows, e)
    ensures UpToFlush(h, s, t, e, lockGranted) ==
            Some(if Clashes(r, s.committed + tx.rows) then AfterRefusal(s, tx)
                 else AfterFlush(AfterLock(s, t, lockGranted), t, tx, r))
  {
    var read := tx.(phase := AfterLatest(s.committed + tx.rows));
    var s2 := AfterLock(s, t, lockGranted).(open := map[t := read]);
    ReadAfterLockIs(s, t, tx, lockGranted, read);
    assert UpToFlush(h, s, t, e, lockGranted) == FlushStep(h, s2, t, e);
    FlushIs(h, s2, t, read, e, r);
    SameAfterRead(s, t, tx, lockGranted, read, r);
  }

  lemma WriteStepIs(s: System, t: TxId, tx: Transaction, r: Record, succeeds: bool)
    requires tx.phase.Ready?
    ensures WriteStep(AfterFlush(s, t, tx, r), t, succeeds) == Some(AfterStore(s, t, tx, r, succeeds))
  {
    var flushed := AfterFlush(s, t, tx, r);
    var tx' := Transaction(tx.rows + [r], tx.lines + (if succeeds then 1 else 0), Ready);
    assert flushed.open[t := tx'] == map[t := tx'];
    assert s.file + [] == s.file;
  }

  function Then(h: HashFn, s: Option<System>, a: Action): Option<System> {
    if s.None? then None else Next(h, s.value, a)
  }

  lemma {:induction false} RunSnoc(h: HashFn, acts: seq<Action>, a: Action)
    ensures Run(h, acts + [a]) == Then(h, Run(h, acts), a)
  {
    assert (acts + [a])[..|acts|] == acts;
  }

  lemma {:induction false} RunThree(h: HashFn, acts: seq<Action>, a: Action, b: Action, c: Action)
    ensures Run(h, acts + [a, b, c]) == Then(h, Then(h, Then(h, Run(h, acts), a), b), c)
  {
    RunSnoc(h, acts, a);
    RunSnoc(h, acts + [a], b);
    RunSnoc(h, acts + [a] + [b], c);
    assert acts + [a] + [b] + [c] == acts + [a, b, c];
  }

  /** One transaction that appends a single record and then ends. */
  function OneAppend(t: TxId, e: Event, end: Action): seq<Action> {
    [Begin(t), TakeLock(t), ReadHead(t)] + [Flush(t, e), WriteLine(t, true), end]
  }

  lemma StepsUpToFlush(h: HashFn, s: System, t: TxId, e: Event)
    ensures Then(h, Then(h, Then(h, Some(s), TakeLock(t)), ReadHead(t)), Flush(t, e)) == UpToFlush(h, s, t, e, true)
  {
  }

  lemma {:induction false} RunOpening(h: HashFn, acts: seq<Action>, s: System, t: TxId)
    requires Then(h, Run(h, acts), Begin(t)) == Some(s)
    ensures Run(h, acts + [Begin(t), TakeLock(t), ReadHead(t)])
            == Then(h, Then(h, Some(s), TakeLock(t)), ReadHead(t))
  {
    RunThree(h, acts, Begin(t), TakeLock(t), ReadHead(t));
  }

  lemma {:induction false} RunOneAppend(h: HashFn, acts: seq<Action>, s: System, t: TxId, e: Event, end: Action)
    requires Then(h, Run(h, acts), Begin(t)) == Some(s)
    ensures Run(h, acts + OneAppend(t, e, end))
            == Then(h, Then(h, UpToFlush(h, s, t, e, true), WriteLine(t, true)), end)
  {
    var opening := acts + [Begin(t), TakeLock(t), ReadHead(t)];
    RunOpening(h, acts, s, t);
    StepsUpToFlush(h, s, t, e);
    RunThree(h, opening, Flush(t, e), WriteLine(t, true), end);
    assert opening + [Flush(t, e), WriteLine(t, true), end] == acts + OneAppend(t, e, end);
  }

  lemma DraftOnEmpty(h: HashFn, e: Event)
    ensures Draft(h, [], e).sequenceNumber == 1
  {
  }

  /** An append on empty ledgers, whatever its record `r` holds beside the number 1. */
  lemma AppendOnEmpty(h: HashFn, s: System, t: TxId, e: Event) returns (r: Record)
    requires s.committed == [] && s.open == map[t := Transaction([], 0, Ready)] && s.lock == None
    ensures r.sequenceNumber == 1
    ensures Then(h, UpToFlush(h, s, t, e, true), WriteLine(t, true))
            == Some(s.(open := map[t := Transaction([r], 1, Ready)], lock := Some(t), file := s.file + [r]))
  {
    var tx := Transaction([], 0, Ready);
    r := Draft(h, [], e);
    DraftOnEmpty(h, e);
    assert s.committed + tx.rows == [] && tx.rows + [r] == [r];
    UpToFlushIs(h, s, t, tx, e, true, r);
    WriteStepIs(AfterLock(s, t, true), t, tx, r, true);
  }

  /** The state after the end of such a transaction. */
  function Ended(s: System, r: Record, commits: bool): System {
    s.(committed := if commits then [r] else [], file := s.file + [r],
       orphans := s.orphans + if commits then 0 else 1)
  }

  lemma EndStep(h: HashFn, s: System, t: TxId, r: Record, commits: bool)
    requires s.committed == [] && s.open == map[] && s.lock == None
    ensures Next(h, s.(open := map[t := Transaction([r], 1, Ready)], lock := Some(t), file := s.file + [r]),
                 if commits then Commit(t) else Rollback(t))
            == Some(Ended(s, r, commits))
  {
    var full := s.(open := map[t := Transaction([r], 1, Ready)], lock := Some(t), file := s.file + [r]);
    assert full.open - {t} == map[] && [] + [r] == [r];
  }

  lemma OneAppendRuns(h: HashFn, acts: seq<Action>, s: System, t: TxId, e: Event, commits: bool)
    returns (r: Record)
    requires Run(h, acts) == Some(s) && s.committed == [] && s.open == map[] && s.lock == None
    ensures r.sequenceNumber == 1
    ensures Run(h, acts + OneAppend(t, e, if commits then Commit(t) else Rollback(t)))
            == Some(Ended(s, r, commits))
  {
    var begun := s.(open := map[t := Transaction([], 0, Ready)]);
    assert BeginStep(s, t) == Some(begun);
    r := AppendOnEmpty(h, begun, t, e);
    RunOneAppend(h, acts, begun, t, e, if commits then Commit(t) else Rollback(t));
    EndStep(h, s, t, r, commits);
  }

  lemma RollbackThenCommit(h: HashFn, e1: Event, e2: Event)
    returns (acts: seq<Action>, r1: Record, r2: Record)
    ensures AlwaysLocks(acts) && r1.sequenceNumber == r2.sequenceNumber == 1
    ensures Run(h, acts) == Some(System([r2], [r1, r2], map[], None, 1, 0))
  {
    var first := [] + OneAppend(0, e1, Rollback(0));
    r1 := OneAppendRuns(h, [], INITIAL, 0, e1, false);
    r2 := OneAppendRuns(h, first, Ended(INITIAL, r1, false), 1, e2, true);
    acts := first + OneAppend(1, e2, Commit(1));
    assert [] + [r1] + [r2] == [r1, r2];
  }

  /** The ledgers do part ways, even under the lock: one rolled-back append and one
      committed one leave two lines with the same number in the file, while the
      database chain stays valid. */
  lemma RollbackDesynchronises(h: HashFn, e1: Event, e2: Event) returns (acts: seq<Action>)
    ensures AlwaysLocks(acts) && Run(h, acts).Some?
    ensures var s := Run(h, acts).value;
            && s.lost == 0 && Quiescent(s) && ChainVerdict(h, s.committed).valid
            && |s.committed| == 1 && |s.file| == 2
            && s.file[0].sequenceNumber == s.file[1].sequenceNumber == 1
            && !FileVerifies(h, LinesOf(s.file)) && !CrossConsistent(s.committed, LinesOf(s.file))
  {
    var r1, r2;
    acts, r1, r2 := RollbackThenCommit(h, e1, e2);
    EveryRunKeepsTheChain(h, acts);
    LedgersAgreeIffNoOrphans(h, acts);
    DoubledNumberFails(h, [r1, r2]);
  }

  lemma DoubledNumberFails(h: HashFn, rs: seq<Record>)
    requires |rs| == 2 && rs[0].sequenceNumber == rs[1].sequenceNumber
    ensures !FileVerifies(h, LinesOf(rs))
  {
    WrittenLinesReadBack(rs);
    VerifiersAgree(h, rs, LinesOf(rs));
    ChainVerdictValidIff(h, rs);
    assert Extends(h, rs[..0], rs[0]) ==> !Extends(h, rs[..1], rs[1]);
  }

  /** What the method does when left alone is what the transition system does in four
      steps (three, when the flush is refused). */
  lemma AppendIsFourSteps(h: HashFn, s: System, t: TxId, tx: Transaction, e: Event,
                          lockGranted: bool, writable: bool)
    requires s.open == map[t := tx] && tx.phase.Ready? && (s.lock == None || s.lock == Some(t))
    ensures var r := Draft(h, s.committed + tx.rows, e);
            var flushed := UpToFlush(h, s, t, e, lockGranted);
            flushed.Some?
            && if Clashes(r, s.committed + tx.rows)
               then flushed.value == AfterRefusal(s, tx)
               else WriteStep(flushed.value, t, writable)
                    == Some(AfterStore(AfterLock(s, t, lockGranted), t, tx, r, writable))
  {
    var r := Draft(h, s.committed + tx.rows, e);
    UpToFlushIs(h, s, t, tx, e, lockGranted, r);
    WriteStepIs(AfterLock(s, t, lockGranted), t, tx, r, writable);
  }

  /** The two ends of an append, as steps of the transition system. */
  lemma AppendEnds(h: HashFn, s: System, t: TxId, tx: Transaction, e: Event,
                   lockGranted: bool, writable: bool, r: Record, stored: bool, s': System)
    requires s.open == map[t := tx] && tx.phase.Ready? && (s.lock == None || s.lock == Some(t))
    requires r == Draft(h, s.committed + tx.rows, e) && stored == !Clashes(r, s.committed + tx.rows)
    requires s' == if stored then AfterStore(AfterLock(s, t, lockGranted), t, tx, r, writable)
                   else AfterRefusal(AfterLock(s, t, lockGranted), tx)
    ensures var flushed := UpToFlush(h, s, t, e, lockGranted);
            flushed.Some? && Some(s') == if stored then WriteStep(flushed.value, t, writable) else flushed
  {
    AppendIsFourSteps(h, s, t, tx, e, lockGranted, writable);
  }

  /** A database session together with the stores it writes to. */
  class AuditSession {
    const id: TxId
    var committed: seq<Record>
    var rows: seq<Record>
    var file: seq<Record>
    var active: bool
    var locked: bool
    ghost var lines: nat
    ghost var orphans: nat
    ghost var lost: nat

    ghost predicate Valid()
      reads this
    {
      !active ==> rows == [] && !locked && lines == 0
    }

    /** The state of the transition system this session stands for. */
    ghost function View(): System
      reads this
    {
      System(committed, file,
             if active then map[id := Transaction(rows, lines, Ready)] else map[],
             if locked then Some(id) else None, orphans, lost)
    }

    constructor (id: TxId, committed: seq<Record>, file: seq<Record>)
      ensures Valid() && this.id == id
      ensures View() == System(committed, file, map[], None, 0, 0)
    {
      this.id, this.committed, this.file := id, committed, file;
      rows, active, locked := [], false, false;
      lines, orphans, lost := 0, 0, 0;
    }

    method BeginTransaction(ghost h: HashFn)
      requires Valid() && !active
      modifies this
      ensures Valid() && active && Some(View()) == Next(h, old(View()), Begin(id))
      ensures rows == [] && committed == old(committed) && file == old(file)
    {
      active := true;
      assert View().open == old(View()).open[id := Transaction([], 0, Ready)];
    }

    /** Reads the row with the greatest sequence number this session can see. */
    method LatestRecord() returns (latest: Option<Record>)
      ensures latest == Latest(committed + rows)
    {
      var visible := committed + rows;
      latest := None;
      for i := 0 to |visible|
        invariant latest == Latest(visible[..i])
      {
        LatestNext(visible, i);
        if latest.None? || latest.value.sequenceNumber < visible[i].sequenceNumber {
          latest := Some(visible[i]);
        }
      }
      assert visible[..|visible|] == visible;
    }

    /** Builds the next record on the latest visible one, or on genesis. */
    method DraftRecord(h: HashFn, e: Event) returns (r: Record)
      ensures r == Draft(h, committed + rows, e)
    {
      var latest := LatestRecord();
      var sequenceNumber, previousHash := 1, GENESIS_HASH;
      if latest.Some? {
        sequenceNumber, previousHash := latest.value.sequenceNumber + 1, latest.value.recordHash;
      }
      r := Sealed(h, sequenceNumber, previousHash, e);
    }

    /** Writes one line; a failing write is logged and otherwise ignored. */
    method AppendEntryToFile(entry: Record, writable: bool)
      requires active
      modifies this`file, this`lines, this`lost
      ensures View() == old(View()).(
                open := map[id := Transaction(rows, old(lines) + (if writable then 1 else 0), Ready)],
                file := old(file) + (if writable then [entry] else []),
                lost := old(lost) + if writable then 0 else 1)
    {
      if writable {
        file := file + [entry];
        lines := lines + 1;
      } else {
        lost := lost + 1;
      }
    }

    /** Adds the row; false is the error of a violated unique key, which rolls the
        transaction back. */
    method FlushRow(r: Record) returns (added: bool)
      requires Valid() && active
      modifies this
      ensures Valid() && added == !Clashes(r, old(committed + rows)) && active == added
      ensures added <==> forall x :: x in old(committed + rows) ==>
                x.sequenceNumber != r.sequenceNumber && x.recordHash != r.recordHash
      ensures committed == old(committed) && file == old(file)
      ensures rows == (if added then old(rows) + [r] else []) && (added ==> lines == old(lines))
      ensures added ==>
                View() == old(View()).(open := map[id := Transaction(old(rows) + [r], old(lines), Ready)])
      ensures !added ==>
                View() == old(View()).(open := map[], lock := None, orphans := old(orphans) + old(lines))
    {
      added := !Clashes(r, committed + rows);
      if added {
        rows := rows + [r];
      } else {
        orphans := orphans + lines;
        rows, active, locked, lines := [], false, false, 0;
      }
    }

    /** A lock that is not granted is an error that is swallowed. */
    method TakeLock(granted: bool)
      requires Valid() && active
      modifies this`locked
      ensures Valid() && View() == AfterLock(old(View()), id, granted)
    {
      if granted {
        locked := true;
      }
    }

    /** Flushes the row and, when that goes through, writes its line. */
    method StoreRecord(r: Record, writable: bool) returns (stored: bool)
      requires Valid() && active
      modifies this
      ensures Valid() && active == stored == !Clashes(r, old(committed + rows))
      ensures committed == old(committed) && rows == (if stored then old(rows) + [r] else [])
      ensures file == old(file) + if stored && writable then [r] else []
      ensures stored ==>
                View() == AfterStore(old(View()), id, Transaction(old(rows), old(lines), Ready), r, writable)
      ensures !stored ==> View() == AfterRefusal(old(View()), Transaction(old(rows), old(lines), Ready))
    {
      stored := FlushRow(r);
      if stored {
        AppendEntryToFile(r, writable);
      }
    }

    /** Appends one record to both ledgers; None is the flush error. The session moves as
        the transition system does in lock, read and flush, and in writing the line. */
    method Append(h: HashFn, e: Event, lockGranted: bool, writable: bool) returns (entry: Option<Record>)
      requires Valid() && active
      modifies this
      ensures Valid() && active == entry.Some?
      ensures var r := Draft(h, old(committed + rows), e);
              entry == if Clashes(r, old(committed + rows)) then None else Some(r)
      ensures var flushed := UpToFlush(h, old(View()), id, e, lockGranted);
              && flushed.Some?
              && Some(View()) == if entry.Some? then WriteStep(flushed.value, id, writable) else flushed
      ensures committed == old(committed)
      ensures rows == if entry.Some? then old(rows) + [entry.value] else []
      ensures file == old(file) + if entry.Some? && writable then [entry.value] else []
    {
      ghost var s, tx := View(), Transaction(rows, lines, Ready);
      TakeLock(lockGranted);
      var r := DraftRecord(h, e);
      var stored := StoreRecord(r, writable);
      ghost var s' := View();
      assert s' == if stored then AfterStore(AfterLock(s, id, lockGranted), id, tx, r, writable)
                   else AfterRefusal(AfterLock(s, id, lockGranted), tx);
      AppendEnds(h, s, id, tx, e, lockGranted, writable, r, stored, s');
      if !stored {
        return None;
      }
      return Some(r);
    }

    method CommitTransaction(ghost h: HashFn)
      requires Valid() && active
      modifies this
      ensures Valid() && !active && Some(View()) == Next(h, old(View()), Commit(id))
      ensures committed == old(committed + rows) && file == old(file) && rows == []
    {
      committed := committed + rows;
      rows, active, locked, lines := [], false, false, 0;
      assert View().open == map[] == old(View()).open - {id};
    }

    method RollbackTransaction(ghost h: HashFn)
      requires Valid() && active
      modifies this
      ensures Valid() && !active && Some(View()) == Next(h, old(View()), Rollback(id))
      ensures committed == old(committed) && file == old(file) && rows == []
    {
      orphans := orphans + lines;
      rows, active, locked, lines := [], false, false, 0;
      assert View().open == map[] == old(View()).open - {id};
    }
  }
}

/** Interleaved append transactions over the two ledgers, as a transition system.

    A transaction sees the committed rows and its own. Rows become visible to others
    at commit and vanish at rollback; lines already written to the file stay. The
    lock step may be skipped, because its failure is swallowed; the unique keys on
    sequence number and record hash are always enforced, and a flush that meets an
    uncommitted row with the same key waits for the other transaction to end. */
module LedgerProtocol {
  import opened Wrappers
  import opened LedgerRecord
  import opened LedgerChain
  import opened LedgerVerifiers

  type TxId = nat

  /** Where a transaction stands within an append. */
  datatype Phase =
    | Ready
    | Serialized
    | HeadKnown(next: int, previous: string)
    | Flushed(record: Record)

  /** `lines` counts the lines this transaction has written to the file. */
  datatype Transaction = Transaction(rows: seq<Record>, lines: nat, phase: Phase)

  /** `orphans` and `lost` are history: lines whose rows were rolled back, and writes
      to the file that failed. */
  datatype System = System(
    committed: seq<Record>,
    file: seq<Record>,
    open: map<TxId, Transaction>,
    lock: Option<TxId>,
    orphans: nat,
    lost: nat)

  const INITIAL := System([], [], map[], None, 0, 0)

  /** What the caller and the clock contribute to a record. */
  datatype Event = Event(timestamp: string, action: string, actor: string, payload: Payload)

  datatype Action =
    | Begin(t: TxId)
    | TakeLock(t: TxId)
    | SkipLock(t: TxId)
    | ReadHead(t: TxId)
    | Flush(t: TxId, event: Event)
    | WriteLine(t: TxId, succeeds: bool)
    | Commit(t: TxId)
    | Rollback(t: TxId)

  /** The row with the greatest sequence number. */
  function Latest(rs: seq<Record>): (latest: Option<Record>)
    ensures latest.None? <==> rs == []
    ensures latest.Some? ==> latest.value in rs
    ensures latest.Some? ==> forall r :: r in rs ==> r.sequenceNumber <= latest.value.sequenceNumber
  {
    if rs == [] then None
    else
      var last := rs[|rs| - 1];
      var m := Latest(rs[..|rs| - 1]);
      if m.Some? && last.sequenceNumber <= m.value.sequenceNumber then m else Some(last)
  }

  /** The record an append builds on the head it has read. */
  function Sealed(h: HashFn, next: int, previous: string, e: Event): Record {
    var r := Record(next, e.timestamp, e.action, e.actor, previous, e.payload, "");
    r.(recordHash := h(Preimage(r)))
  }

  predicate SameKey(a: Record, b: Record) {
    a.sequenceNumber == b.sequenceNumber || a.recordHash == b.recordHash
  }

  predicate Clashes(r: Record, rows: seq<Record>) {
    exists i :: 0 <= i < |rows| && SameKey(r, rows[i])
  }

  predicate Waits(s: System, t: TxId, r: Record) {
    exists u :: u in s.open && u != t && Clashes(r, s.open[u].rows)
  }

  function Unlocked(s: System, t: TxId): Option<TxId> {
    if s.lock == Some(t) then None else s.lock
  }

  /** The end of a transaction without effect on the rows; its lines stay behind. */
  function Abort(s: System, t: TxId): System
    requires t in s.open
  {
    s.(open := s.open - {t}, lock := Unlocked(s, t), orphans := s.orphans + s.open[t].lines)
  }

  function Update(s: System, t: TxId, tx: Transaction): System {
    s.(open := s.open[t := tx])
  }

  // Each step is None when it is not possible in the given state.

  function BeginStep(s: System, t: TxId): Option<System> {
    if t in s.open then None else Some(Update(s, t, Transaction([], 0, Ready)))
  }

  function LockStep(s: System, t: TxId): Option<System> {
    if t in s.open && s.open[t].phase.Ready? && (s.lock == None || s.lock == Some(t))
    then Some(Update(s, t, s.open[t].(phase := Serialized)).(lock := Some(t)))
    else None
  }

  function SkipStep(s: System, t: TxId): Option<System> {
    if t in s.open && s.open[t].phase.Ready?
    then Some(Update(s, t, s.open[t].(phase := Serialized)))
    else None
  }

  /** Number and link for the record that follows the latest of the visible rows. */
  function AfterLatest(seen: seq<Record>): Phase {
    var latest := Latest(seen);
    if latest.None? then HeadKnown(1, GENESIS_HASH)
    else HeadKnown(latest.value.sequenceNumber + 1, latest.value.recordHash)
  }

  function ReadStep(s: System, t: TxId): Option<System> {
    if t in s.open && s.open[t].phase.Serialized?
    then Some(Update(s, t, s.open[t].(phase := AfterLatest(s.committed + s.open[t].rows))))
    else None
  }

  function FlushStep(h: HashFn, s: System, t: TxId, e: Event): Option<System> {
    if t in s.open && s.open[t].phase.HeadKnown? then
      var tx := s.open[t];
      var r := Sealed(h, tx.phase.next, tx.phase.previous, e);
      if Waits(s, t, r) then None
      else if Clashes(r, s.committed + tx.rows) then Some(Abort(s, t))
      else Some(Update(s, t, tx.(rows := tx.rows + [r], phase := Flushed(r))))
    else None
  }

  function WriteStep(s: System, t: TxId, succeeds: bool): Option<System> {
    if t in s.open && s.open[t].phase.Flushed? then
      var tx := s.open[t];
      if succeeds then
        Some(Update(s, t, tx.(lines := tx.lines + 1, phase := Ready))
             .(file := s.file + [tx.phase.record]))
      else Some(Update(s, t, tx.(phase := Ready)).(lost := s.lost + 1))
    else None
  }

  function CommitStep(s: System, t: TxId): Option<System> {
    if t in s.open && s.open[t].phase.Ready?
    then Some(s.(committed := s.committed + s.open[t].rows, open := s.open - {t}, lock := Unlocked(s, t)))
    else None
  }

  function Next(h: HashFn, s: System, a: Action): Option<System> {
    match a
    case Begin(t) => BeginStep(s, t)
    case TakeLock(t) => LockStep(s, t)
    case SkipLock(t) => SkipStep(s, t)
    case ReadHead(t) => ReadStep(s, t)
    case Flush(t, e) => FlushStep(h, s, t, e)
    case WriteLine(t, succeeds) => WriteStep(s, t, succeeds)
    case Commit(t) => CommitStep(s, t)
    case Rollback(t) => if t in s.open then Some(Abort(s, t)) else None
  }

  /** The state after a run from the empty ledgers; None when some step is impossible. */
  function Run(h: HashFn, acts: seq<Action>): Option<System> {
    if acts == [] then Some(INITIAL)
    else
      var before := Run(h, acts[..|acts| - 1]);
      if before.None? then None else Next(h, before.value, acts[|acts| - 1])
  }

  // ------------------------------------------------------------- chain invariant

  ghost predicate TxInv(h: HashFn, committed: seq<Record>, tx: Transaction) {
    var seen := committed + tx.rows;
    && ValidChain(h, seen)
    && (tx.phase.HeadKnown? ==>
          && 1 <= tx.phase.next <= |seen| + 1
          && (tx.phase.next == |seen| + 1 ==> tx.phase.previous == Head(seen)))
    && (tx.phase.Flushed? ==> tx.rows != [] && tx.rows[|tx.rows| - 1] == tx.phase.record)
  }

  ghost predicate OneWriter(s: System) {
    forall t, u :: t in s.open && u in s.open && t != u ==>
      s.open[t].rows == [] || s.open[u].rows == []
  }

  ghost predicate ChainInv(h: HashFn, s: System) {
    && ValidChain(h, s.committed)
    && (forall t :: t in s.open ==> TxInv(h, s.committed, s.open[t]))
    && OneWriter(s)
  }

  /** In a valid chain the row with the greatest number is the last one. */
  lemma {:induction false} LatestIsLast(h: HashFn, rs: seq<Record>)
    requires ValidChain(h, rs)
    ensures rs != [] ==> Latest(rs) == Some(rs[|rs| - 1]) && rs[|rs| - 1].sequenceNumber == |rs|
  {
    if rs != [] {
      LinkAndHash(h, rs, |rs| - 1);
      if |rs| > 1 {
        TruncationVerifies(h, rs, |rs| - 1);
        LatestIsLast(h, rs[..|rs| - 1]);
      }
    }
  }

  lemma NumberTaken(h: HashFn, rs: seq<Record>, r: Record)
    requires ValidChain(h, rs) && 1 <= r.sequenceNumber <= |rs|
    ensures Clashes(r, rs)
  {
    var i := r.sequenceNumber - 1;
    assert Extends(h, rs[..i], rs[i]);
    assert SameKey(r, rs[i]);
  }

  /** A row that clashes with a chain it extends by number has a hash of another text. */
  lemma FreshNumberClash(h: HashFn, rs: seq<Record>, r: Record) returns (x: string, y: string)
    requires ValidChain(h, rs) && r.sequenceNumber > |rs| && r.recordHash == h(Preimage(r))
    ensures Clashes(r, rs) ==> Collision(h, x, y)
  {
    x, y := "", "";
    if Clashes(r, rs) {
      var i :| 0 <= i < |rs| && SameKey(r, rs[i]);
      assert Extends(h, rs[..i], rs[i]);
      x, y := Preimage(r), Preimage(rs[i]);
      if x == y {
        PreimageFixesSequence(r, rs[i]);
      }
    }
  }

  lemma SealedHash(h: HashFn, next: int, previous: string, e: Event)
    ensures var r := Sealed(h, next, previous, e); r.recordHash == h(Preimage(r))
  {
  }

  ghost predicate OtherWriter(s: System, t: TxId) {
    exists u :: u in s.open && u != t && s.open[u].rows != []
  }

  /** The first pending row of a writer carries the number after the committed ones. */
  lemma WriterHoldsNextNumber(h: HashFn, s: System, u: TxId, r: Record)
    requires ChainInv(h, s) && u in s.open && s.open[u].rows != []
    requires r.sequenceNumber == |s.committed| + 1
    ensures Clashes(r, s.open[u].rows)
  {
    var seen, n := s.committed + s.open[u].rows, |s.committed|;
    assert Extends(h, seen[..n], seen[n]);
    assert SameKey(r, s.open[u].rows[0]);
  }

  /** A flush can only append at the very end of what has been written so far. */
  lemma AppendedRowExtends(h: HashFn, s: System, t: TxId, e: Event)
    requires ChainInv(h, s) && t in s.open && s.open[t].phase.HeadKnown?
    requires var r := Sealed(h, s.open[t].phase.next, s.open[t].phase.previous, e);
             !Waits(s, t, r) && !Clashes(r, s.committed + s.open[t].rows)
    ensures var tx := s.open[t];
            ValidChain(h, s.committed + (tx.rows + [Sealed(h, tx.phase.next, tx.phase.previous, e)]))
    ensures !OtherWriter(s, t)
  {
    var tx := s.open[t];
    var seen := s.committed + tx.rows;
    var r := Sealed(h, tx.phase.next, tx.phase.previous, e);
    SealedHash(h, tx.phase.next, tx.phase.previous, e);
    if r.sequenceNumber <= |seen| {
      NumberTaken(h, seen, r);
    }
    assert r.sequenceNumber == |seen| + 1;
    ValidChainSnoc(h, seen, r);
    assert seen + [r] == s.committed + (tx.rows + [r]);
    forall u | u in s.open && u != t
      ensures s.open[u].rows == []
    {
      if s.open[u].rows != [] {
        WriterHoldsNextNumber(h, s, u, r);
      }
    }
  }

  lemma UpdateKeepsChain(h: HashFn, s: System, s': System, t: TxId, tx: Transaction)
    requires ChainInv(h, s) && TxInv(h, s.committed, tx)
    requires s'.committed == s.committed && s'.open == s.open[t := tx]
    requires tx.rows == [] || (t in s.open && tx.rows == s.open[t].rows) || !OtherWriter(s, t)
    ensures ChainInv(h, s')
  {
  }

  lemma CommitKeepsChain(h: HashFn, s: System, s': System, t: TxId)
    requires ChainInv(h, s) && t in s.open
    requires s'.committed == s.committed + s.open[t].rows && s'.open == s.open - {t}
    ensures ChainInv(h, s')
  {
    forall u | u in s'.open
      ensures TxInv(h, s'.committed, s'.open[u])
    {
      if s.open[t].rows == [] {
        assert s'.committed == s.committed;
      } else {
        assert s.open[u].rows == [];
        assert s'.committed + [] == s'.committed && s.committed + [] == s.committed;
      }
    }
  }

  lemma FlushKeepsChain(h: HashFn, s: System, t: TxId, e: Event)
    requires ChainInv(h, s) && FlushStep(h, s, t, e).Some?
    ensures ChainInv(h, FlushStep(h, s, t, e).value)
  {
    var s' := FlushStep(h, s, t, e).value;
    if s' != Abort(s, t) {
      AppendedRowExtends(h, s, t, e);
      UpdateKeepsChain(h, s, s', t, s'.open[t]);
    }
  }

  lemma ReadKeepsChain(h: HashFn, s: System, t: TxId)
    requires ChainInv(h, s) && ReadStep(s, t).Some?
    ensures ChainInv(h, ReadStep(s, t).value)
  {
    LatestIsLast(h, s.committed + s.open[t].rows);
    UpdateKeepsChain(h, s, ReadStep(s, t).value, t, ReadStep(s, t).value.open[t]);
  }

  lemma StepKeepsChain(h: HashFn, s: System, a: Action)
    requires ChainInv(h, s) && Next(h, s, a).Some?
    ensures ChainInv(h, Next(h, s, a).value)
  {
    var s' := Next(h, s, a).value;
    match a {
      case Begin(t) =>
        assert s.committed + [] == s.committed;
        UpdateKeepsChain(h, s, s', t, s'.open[t]);
      case TakeLock(t) =>
        UpdateKeepsChain(h, s, s', t, s'.open[t]);
      case SkipLock(t) =>
        UpdateKeepsChain(h, s, s', t, s'.open[t]);
      case ReadHead(t) =>
        ReadKeepsChain(h, s, t);
      case Flush(t, e) =>
        FlushKeepsChain(h, s, t, e);
      case WriteLine(t, _) =>
        UpdateKeepsChain(h, s, s', t, s'.open[t]);
      case Commit(t) =>
        CommitKeepsChain(h, s, s', t);
      case Rollback(_) =>
    }
  }

  /** Rows are only ever added behind the committed ones, and lines behind the lines. */
  lemma LedgersOnlyGrow(h: HashFn, s: System, a: Action)
    requires Next(h, s, a).Some?
    ensures s.committed <= Next(h, s, a).value.committed && s.file <= Next(h, s, a).value.file
    ensures s.orphans <= Next(h, s, a).value.orphans && s.lost <= Next(h, s, a).value.lost
  {
  }

  lemma {:induction false} RunKeepsChain(h: HashFn, acts: seq<Action>)
    requires Run(h, acts).Some?
    ensures ChainInv(h, Run(h, acts).value)
  {
    if acts != [] {
      RunKeepsChain(h, acts[..|acts| - 1]);
      StepKeepsChain(h, Run(h, acts[..|acts| - 1]).value, acts[|acts| - 1]);
    }
  }

  /** In every run, with or without the lock, the committed rows pass the chain
      verification, no two transactions hold pending rows, and the pending rows
      of the one that does would pass it too if they were committed now. */
  lemma {:induction false} EveryRunKeepsTheChain(h: HashFn, acts: seq<Action>)
    requires Run(h, acts).Some?
    ensures var s := Run(h, acts).value;
            && ChainVerdict(h, s.committed).valid
            && OneWriter(s)
            && forall t :: t in s.open ==> ChainVerdict(h, s.committed + s.open[t].rows).valid
  {
    RunKeepsChain(h, acts);
    var s := Run(h, acts).value;
    ChainVerdictValidIff(h, s.committed);
    forall t | t in s.open
      ensures ChainVerdict(h, s.committed + s.open[t].rows).valid
    {
      ChainVerdictValidIff(h, s.committed + s.open[t].rows);
    }
  }

  /** What a flush comes to when no two texts share a digest. */
  ghost function ExpectedFlush(h: HashFn, s: System, t: TxId, e: Event): Option<System>
    requires t in s.open && s.open[t].phase.HeadKnown?
  {
    var tx := s.open[t];
    var r := Sealed(h, tx.phase.next, tx.phase.previous, e);
    if tx.phase.next <= |s.committed + tx.rows| then Some(Abort(s, t))
    else if OtherWriter(s, t) then None
    else Some(Update(s, t, tx.(rows := tx.rows + [r], phase := Flushed(r))))
  }

  /** In every reachable state a flush aborts when the head it was built on is no
      longer the last row, waits when it is but another transaction holds pending
      rows, and appends otherwise; or `x` and `y` are two texts with one digest. */
  lemma FlushOutcome(h: HashFn, acts: seq<Action>, t: TxId, e: Event) returns (x: string, y: string)
    requires Run(h, acts).Some?
    requires var s := Run(h, acts).value; t in s.open && s.open[t].phase.HeadKnown?
    ensures var s := Run(h, acts).value;
            Collision(h, x, y) || Next(h, s, Flush(t, e)) == ExpectedFlush(h, s, t, e)
  {
    RunKeepsChain(h, acts);
    var s := Run(h, acts).value;
    if s.open[t].phase.next <= |s.committed + s.open[t].rows| {
      x, y := StaleFlush(h, s, t, e);
    } else {
      x, y := CurrentFlush(h, s, t, e);
    }
  }

  lemma StaleFlush(h: HashFn, s: System, t: TxId, e: Event) returns (x: string, y: string)
    requires ChainInv(h, s) && t in s.open && s.open[t].phase.HeadKnown?
    requires s.open[t].phase.next <= |s.committed + s.open[t].rows|
    ensures Collision(h, x, y) || FlushStep(h, s, t, e) == Some(Abort(s, t))
  {
    var tx := s.open[t];
    var r := Sealed(h, tx.phase.next, tx.phase.previous, e);
    SealedHash(h, tx.phase.next, tx.phase.previous, e);
    NumberTaken(h, s.committed + tx.rows, r);
    x, y := "", "";
    if Waits(s, t, r) {
      x, y := StaleFlushDoesNotWait(h, s, t, r);
    }
  }

  lemma CurrentFlush(h: HashFn, s: System, t: TxId, e: Event) returns (x: string, y: string)
    requires ChainInv(h, s) && t in s.open && s.open[t].phase.HeadKnown?
    requires s.open[t].phase.next > |s.committed + s.open[t].rows|
    ensures Collision(h, x, y) || FlushStep(h, s, t, e) == ExpectedFlush(h, s, t, e)
  {
    var tx := s.open[t];
    var r := Sealed(h, tx.phase.next, tx.phase.previous, e);
    SealedHash(h, tx.phase.next, tx.phase.previous, e);
    x, y := FreshNumberClash(h, s.committed + tx.rows, r);
    if u :| u in s.open && u != t && s.open[u].rows != [] {
      assert tx.rows == [];
      WriterHoldsNextNumber(h, s, u, r);
    }
  }

  lemma StaleFlushDoesNotWait(h: HashFn, s: System, t: TxId, r: Record)
    returns (x: string, y: string)
    requires ChainInv(h, s) && t in s.open
    requires r.sequenceNumber <= |s.committed + s.open[t].rows| && r.recordHash == h(Preimage(r))
    requires Waits(s, t, r)
    ensures Collision(h, x, y)
  {
    var u :| u in s.open && u != t && Clashes(r, s.open[u].rows);
    var i :| 0 <= i < |s.open[u].rows| && SameKey(r, s.open[u].rows[i]);
    var other, n := s.committed + s.open[u].rows, |s.committed| + i;
    assert s.open[t].rows == [];
    assert other[n] == s.open[u].rows[i];
    assert Extends(h, other[..n], other[n]);
    x, y := Preimage(r), Preimage(other[n]);
    if x == y {
      PreimageFixesSequence(r, other[n]);
    }
  }

  // -------------------------------------------------------------- with the lock

  predicate AlwaysLocks(acts: seq<Action>) {
    forall i :: 0 <= i < |acts| ==> !acts[i].SkipLock?
  }

  ghost predicate TxLockInv(s: System, t: TxId, tx: Transaction) {
    && (tx.rows != [] || !tx.phase.Ready? ==> s.lock == Some(t))
    && (tx.phase.HeadKnown? ==> tx.phase.next == |s.committed| + |tx.rows| + 1)
  }

  ghost predicate LockInv(s: System) {
    && (s.lock.Some? ==> s.lock.value in s.open)
    && forall t :: t in s.open ==> TxLockInv(s, t, s.open[t])
  }

  lemma {:induction false} RunKeepsLock(h: HashFn, acts: seq<Action>)
    requires Run(h, acts).Some? && AlwaysLocks(acts)
    ensures LockInv(Run(h, acts).value)
  {
    if acts != [] {
      var init, a := acts[..|acts| - 1], acts[|acts| - 1];
      assert forall i :: 0 <= i < |init| ==> init[i] == acts[i];
      RunKeepsLock(h, init);
      RunKeepsChain(h, init);
      StepKeepsLock(h, Run(h, init).value, a);
    }
  }

  lemma UpdateKeepsLock(s: System, s': System, t: TxId, tx: Transaction)
    requires LockInv(s) && s'.committed == s.committed && s'.open == s.open[t := tx]
    requires s'.lock == s.lock || (s.lock == None && s'.lock == Some(t))
    requires TxLockInv(s', t, tx)
    ensures LockInv(s')
  {
  }

  lemma CloseKeepsLock(s: System, s': System, t: TxId)
    requires LockInv(s) && t in s.open && s'.open == s.open - {t} && s'.lock == Unlocked(s, t)
    requires s'.committed == s.committed || (s'.committed == s.committed + s.open[t].rows)
    ensures LockInv(s')
  {
  }

  lemma ReadKeepsLock(h: HashFn, s: System, t: TxId)
    requires ChainInv(h, s) && LockInv(s) && ReadStep(s, t).Some?
    ensures LockInv(ReadStep(s, t).value)
  {
    LatestIsLast(h, s.committed + s.open[t].rows);
    UpdateKeepsLock(s, ReadStep(s, t).value, t, ReadStep(s, t).value.open[t]);
  }

  lemma FlushKeepsLock(h: HashFn, s: System, t: TxId, e: Event)
    requires LockInv(s) && FlushStep(h, s, t, e).Some?
    ensures LockInv(FlushStep(h, s, t, e).value)
  {
  }

  lemma StepKeepsLock(h: HashFn, s: System, a: Action)
    requires ChainInv(h, s) && LockInv(s) && Next(h, s, a).Some? && !a.SkipLock?
    ensures LockInv(Next(h, s, a).value)
  {
    var s' := Next(h, s, a).value;
    match a {
      case Begin(t) =>
        UpdateKeepsLock(s, s', t, s'.open[t]);
      case TakeLock(t) =>
        UpdateKeepsLock(s, s', t, s'.open[t]);
      case SkipLock(_) =>
      case ReadHead(t) =>
        ReadKeepsLock(h, s, t);
      case Flush(t, e) =>
        FlushKeepsLock(h, s, t, e);
      case WriteLine(t, _) =>
        UpdateKeepsLock(s, s', t, s'.open[t]);
      case Commit(t) =>
        CloseKeepsLock(s, s', t);
      case Rollback(t) =>
        CloseKeepsLock(s, s', t);
    }
  }

  /** What the lock adds: when every append takes it, no flush ever waits or aborts,
      unless two texts share a digest. */
  lemma LockedFlushAppends(h: HashFn, acts: seq<Action>, t: TxId, e: Event)
    returns (x: string, y: string)
    requires Run(h, acts).Some? && AlwaysLocks(acts)
    requires var s := Run(h, acts).value; t in s.open && s.open[t].phase.HeadKnown?
    ensures var s := Run(h, acts).value;
            var tx := s.open[t];
            var r := Sealed(h, tx.phase.next, tx.phase.previous, e);
            Collision(h, x, y)
            || Next(h, s, Flush(t, e))
               == Some(Update(s, t, tx.(rows := tx.rows + [r], phase := Flushed(r))))
  {
    RunKeepsLock(h, acts);
    x, y := FlushOutcome(h, acts, t, e);
  }

  // ------------------------------------------------------------------- progress

  /** The step a transaction takes next when it appends at most one more record. */
  function Onward(t: TxId, phase: Phase, e: Event): Action {
    match phase
    case Ready => Commit(t)
    case Serialized => ReadHead(t)
    case HeadKnown(_, _) => Flush(t, e)
    case Flushed(_) => WriteLine(t, true)
  }

  /** A transaction is only ever held up at its flush, by another one's pending rows. */
  lemma OnlyFlushesWait(h: HashFn, acts: seq<Action>, t: TxId, e: Event) returns (x: string, y: string)
    requires Run(h, acts).Some? && t in Run(h, acts).value.open
    ensures var s := Run(h, acts).value;
            || Collision(h, x, y)
            || Next(h, s, Onward(t, s.open[t].phase, e)).Some?
            || (s.open[t].phase.HeadKnown? && OtherWriter(s, t))
  {
    x, y := "", "";
    if Run(h, acts).value.open[t].phase.HeadKnown? {
      x, y := FlushOutcome(h, acts, t, e);
    }
  }

  /** Nothing ever comes to a halt: in every reachable state with open transactions one of
      them can go on without being rolled back from outside, or two texts share a digest. */
  lemma NoDeadlock(h: HashFn, acts: seq<Action>, e: Event) returns (t: TxId, x: string, y: string)
    requires Run(h, acts).Some? && Run(h, acts).value.open != map[]
    ensures var s := Run(h, acts).value;
            Collision(h, x, y) || (t in s.open && Next(h, s, Onward(t, s.open[t].phase, e)).Some?)
  {
    var s := Run(h, acts).value;
    RunKeepsChain(h, acts);
    t :| t in s.open;
    if u :| u in s.open && s.open[u].rows != [] {
      t := u;
      assert !OtherWriter(s, t);
    }
    x, y := OnlyFlushesWait(h, acts, t, e);
  }
}

/** The verifiers of the two ledgers: the database chain, the flat file, the
    periodic task, the cross-check and the cheap synchronisation test. */
module LedgerVerifiers {
  import opened Wrappers
  import opened LedgerRecord
  import opened LedgerChain
  import opened LedgerDoubles
  import opened LedgerHead

  // ------------------------------------------------------------ the file's lines

  /** A JSON scalar under some key of a line, or the key's absence. */
  datatype Json = Absent | Null | Number(n: int) | Text(text: string)

  /** The `timestamp` key: missing or empty, unreadable, or an instant (as UTC ISO text). */
  datatype Stamp = NoStamp | BadStamp | Stamp(iso: string)

  datatype Entry = Entry(
    sequenceNumber: Json,
    timestamp: Stamp,
    action: Option<string>,
    actor: Option<string>,
    previousHash: Json,
    payload: Option<Payload>,
    recordHash: Json)

  datatype Line = Blank | Corrupt | Parsed(entry: Entry)

  /** A dictionary lookup that yields null for a missing key. */
  function Get(field: Json): Json {
    if field.Absent? then Null else field
  }

  function GetOr<T>(field: Option<T>, default: T): T {
    if field.Some? then field.value else default
  }

  /** The entry an append writes for a record. */
  function EntryOf(r: Record): Entry {
    Entry(Number(r.sequenceNumber), Stamp(r.timestamp), Some(r.action), Some(r.actor),
          Text(r.previousHash), Some(r.payload), Text(r.recordHash))
  }

  /** The record an entry stands for, when its fields have the types the check needs. */
  function RecordOf(e: Entry): Option<Record> {
    if e.sequenceNumber.Number? && e.timestamp.Stamp? && e.previousHash.Text? && e.recordHash.Text?
    then Some(Record(e.sequenceNumber.n, e.timestamp.iso, GetOr(e.action, ""), GetOr(e.actor, ""),
                     e.previousHash.text, GetOr(e.payload, EMPTY_PAYLOAD), e.recordHash.text))
    else None
  }

  /** The entries up to the first corrupt line. */
  function Entries(lines: seq<Line>): seq<Entry> {
    if lines == [] || lines[0].Corrupt? then []
    else (if lines[0].Parsed? then [lines[0].entry] else []) + Entries(lines[1..])
  }

  predicate HasCorrupt(lines: seq<Line>) {
    exists i :: 0 <= i < |lines| && lines[i].Corrupt?
  }

  function LinesOf(rs: seq<Record>): (lines: seq<Line>)
    ensures |lines| == |rs|
  {
    seq(|rs|, i requires 0 <= i < |rs| => Parsed(EntryOf(rs[i])))
  }

  /** Reading back what was written gives the records again. */
  lemma WrittenLinesReadBack(rs: seq<Record>)
    ensures !HasCorrupt(LinesOf(rs))
    ensures Entries(LinesOf(rs)) == seq(|rs|, i requires 0 <= i < |rs| => EntryOf(rs[i]))
  {
    if rs != [] {
      WrittenLinesReadBack(rs[1..]);
      assert LinesOf(rs)[1..] == LinesOf(rs[1..]);
    }
  }

  // ------------------------------------------------------------------- verdicts

  datatype Note =
    | EmptyLedger | Verified | SequenceBroken | LinkBroken | HashMismatch
    | MissingTimestamp | CorruptLine

  /** What a verifier answers; `headHash` is null where the source answers None. */
  datatype Verdict = Verdict(
    valid: bool, total: nat, tamperedSequence: Option<int>, headHash: Json, note: Note)

  /** A call either returns or lets an exception escape. */
  datatype Outcome<T> = Returned(value: T) | Raised

  function Fault(prefix: seq<Record>, r: Record): Note {
    if r.sequenceNumber != |prefix| + 1 then SequenceBroken
    else if r.previousHash != Head(prefix) then LinkBroken
    else HashMismatch
  }

  /** The fault of a record that does not extend the chain before it. */
  function FaultVerdict(prefix: seq<Record>, r: Record, total: nat): Verdict {
    Verdict(false, total, Some(r.sequenceNumber), Text(r.recordHash), Fault(prefix, r))
  }

  /** The verdict on a list of records, told by the first record that fails to
      extend a valid chain. */
  function ChainVerdict(h: HashFn, rs: seq<Record>): Verdict {
    var k := FirstBreak(h, rs);
    if rs == [] then Verdict(true, 0, None, Null, EmptyLedger)
    else if k == |rs| then Verdict(true, |rs|, None, Text(Head(rs)), Verified)
    else FaultVerdict(rs[..k], rs[k], |rs|)
  }

  lemma ChainVerdictValidIff(h: HashFn, rs: seq<Record>)
    ensures ChainVerdict(h, rs).valid <==> ValidChain(h, rs)
  {
    ValidIffNoBreak(h, rs);
  }

  /** The records of the longest well-typed initial stretch of the entries. */
  function TypedPrefix(es: seq<Entry>): (rs: seq<Record>)
    ensures |rs| <= |es|
    ensures forall i :: 0 <= i < |rs| ==> RecordOf(es[i]) == Some(rs[i])
    ensures |rs| < |es| ==> RecordOf(es[|rs|]) == None
  {
    if es == [] || RecordOf(es[0]) == None then []
    else [RecordOf(es[0]).value] + TypedPrefix(es[1..])
  }

  /** What happens at an entry that is not well typed and has `prefix` before it. */
  function IllTypedOutcome(prefix: seq<Record>, e: Entry, total: nat): Outcome<Verdict> {
    var hash := Get(e.recordHash);
    if !e.sequenceNumber.Number? then Returned(Verdict(false, total, None, hash, SequenceBroken))
    else
      var n := e.sequenceNumber.n;
      if n != |prefix| + 1 then Returned(Verdict(false, total, Some(n), hash, SequenceBroken))
      else if e.previousHash != Text(Head(prefix)) then
        Returned(Verdict(false, total, Some(n), hash, LinkBroken))
      else if e.timestamp.NoStamp? then
        Returned(Verdict(false, total, Some(n), hash, MissingTimestamp))
      else if e.timestamp.BadStamp? then Raised
      else Returned(Verdict(false, total, Some(n), hash, HashMismatch))
  }

  function EntriesVerdict(h: HashFn, es: seq<Entry>): Outcome<Verdict> {
    var rs := TypedPrefix(es);
    var k := FirstBreak(h, rs);
    if |rs| == |es| then Returned(ChainVerdict(h, rs))
    else if k == |rs| then IllTypedOutcome(rs, es[k], |es|)
    else Returned(ChainVerdict(h, rs).(total := |es|))
  }

  /** The verdict on the file. */
  function FileVerdict(h: HashFn, lines: seq<Line>): Outcome<Verdict> {
    var es := Entries(lines);
    if HasCorrupt(lines) then Returned(Verdict(false, |es|, None, Null, CorruptLine))
    else EntriesVerdict(h, es)
  }

  predicate FileVerifies(h: HashFn, lines: seq<Line>) {
    FileVerdict(h, lines).Returned? && FileVerdict(h, lines).value.valid
  }

  /** The records the file holds, when all its lines are well-typed entries. */
  function FileRecords(lines: seq<Line>): seq<Record> {
    TypedPrefix(Entries(lines))
  }

  predicate AllTyped(lines: seq<Line>) {
    !HasCorrupt(lines) && |FileRecords(lines)| == |Entries(lines)|
  }

  lemma {:induction false} EntriesVerifyIff(h: HashFn, es: seq<Entry>)
    ensures var o, rs := EntriesVerdict(h, es), TypedPrefix(es);
            o.Returned? && o.value.valid <==> |rs| == |es| && FirstBreak(h, rs) == |rs|
  {
  }

  /** The file verifies exactly when no line is corrupt, every entry is well typed
      and the records read from it form a valid chain. */
  lemma FileVerifiesIff(h: HashFn, lines: seq<Line>)
    ensures FileVerifies(h, lines) <==> AllTyped(lines) && ValidChain(h, FileRecords(lines))
  {
    EntriesVerifyIff(h, Entries(lines));
    ValidIffNoBreak(h, FileRecords(lines));
  }

  // -------------------------------------------------------------- the verifiers

  /** A record that passes its checks moves the scan on. */
  lemma ScanOn(h: HashFn, rs: seq<Record>, idx: nat)
    requires idx < |rs| && Extends(h, rs[..idx], rs[idx])
    ensures FirstBreakFrom(h, rs, idx) == FirstBreakFrom(h, rs, idx + 1)
    ensures Head(rs[..idx + 1]) == rs[idx].recordHash
  {
  }

  /** A record that does not ends it. */
  lemma {:induction false} ScanEnds(h: HashFn, rs: seq<Record>, idx: nat)
    requires idx < |rs| && !Extends(h, rs[..idx], rs[idx])
    requires FirstBreak(h, rs) == FirstBreakFrom(h, rs, idx)
    ensures FirstBreak(h, rs) == idx && ChainVerdict(h, rs) == FaultVerdict(rs[..idx], rs[idx], |rs|)
  {
  }

  lemma {:induction false} ScanDone(h: HashFn, rs: seq<Record>)
    requires rs != [] && FirstBreak(h, rs) == FirstBreakFrom(h, rs, |rs|)
    ensures ChainVerdict(h, rs) == Verdict(true, |rs|, None, Text(rs[|rs| - 1].recordHash), Verified)
  {
  }

  /** Walks the rows from genesis to head. */
  method VerifyChain(h: HashFn, records: seq<Record>) returns (v: Verdict)
    ensures v == ChainVerdict(h, records)
  {
    var total := |records|;
    if total == 0 {
      return Verdict(true, 0, None, Null, EmptyLedger);
    }
    var expectedPrevHash := GENESIS_HASH;
    for idx := 0 to total
      invariant expectedPrevHash == Head(records[..idx])
      invariant FirstBreak(h, records) == FirstBreakFrom(h, records, idx)
    {
      var record := records[idx];
      if !Extends(h, records[..idx], record) {
        ScanEnds(h, records, idx);
      }
      if record.sequenceNumber != idx + 1 {
        return Verdict(false, total, Some(record.sequenceNumber), Text(record.recordHash), SequenceBroken);
      }
      if record.previousHash != expectedPrevHash {
        return Verdict(false, total, Some(record.sequenceNumber), Text(record.recordHash), LinkBroken);
      }
      if h(Preimage(record)) != record.recordHash {
        return Verdict(false, total, Some(record.sequenceNumber), Text(record.recordHash), HashMismatch);
      }
      ScanOn(h, records, idx);
      expectedPrevHash := record.recordHash;
    }
    ScanDone(h, records);
    v := Verdict(true, total, None, Text(records[total - 1].recordHash), Verified);
  }

  /** What the periodic task reports; it leaves out the head of a broken chain. */
  datatype TaskReport = TaskReport(
    verified: bool, tamperedSequence: Option<int>, total: nat, headHash: Option<string>)

  function TaskReportOf(v: Verdict): TaskReport {
    TaskReport(v.valid, v.tamperedSequence, v.total,
               if v.valid && v.headHash.Text? then Some(v.headHash.text) else None)
  }

  /** The periodic task repeats the walk with its own loop and its own report. */
  method VerifyChainTask(h: HashFn, records: seq<Record>) returns (report: TaskReport)
    ensures report == TaskReportOf(ChainVerdict(h, records))
  {
    var total := |records|;
    if total == 0 {
      return TaskReport(true, None, 0, None);
    }
    var expectedPrevHash := GENESIS_HASH;
    for idx := 0 to total
      invariant expectedPrevHash == Head(records[..idx])
      invariant FirstBreak(h, records) == FirstBreakFrom(h, records, idx)
    {
      var record := records[idx];
      if !Extends(h, records[..idx], record) {
        ScanEnds(h, records, idx);
      }
      if record.sequenceNumber != idx + 1 || record.previousHash != expectedPrevHash {
        return TaskReport(false, Some(record.sequenceNumber), total, None);
      }
      if h(Preimage(record)) != record.recordHash {
        return TaskReport(false, Some(record.sequenceNumber), total, None);
      }
      ScanOn(h, records, idx);
      expectedPrevHash := record.recordHash;
    }
    ScanDone(h, records);
    report := TaskReport(true, None, total, Some(records[total - 1].recordHash));
  }

  /** Collects the entries of the file; stops at a line that is not JSON. */
  method ReadEntries(lines: seq<Line>) returns (records: seq<Entry>, corrupt: bool)
    ensures records == Entries(lines) && corrupt == HasCorrupt(lines)
  {
    records := [];
    for i := 0 to |lines|
      invariant records + Entries(lines[i..]) == Entries(lines)
      invariant forall k :: 0 <= k < i ==> !lines[k].Corrupt?
    {
      assert lines[i..][1..] == lines[i + 1..];
      match lines[i] {
        case Blank =>
        case Parsed(entry) => records := records + [entry];
        case Corrupt => return records, true;
      }
    }
    corrupt := false;
  }

  /** The checks on one entry; None when it passes. */
  method CheckEntry(h: HashFn, rec: Entry, idx: nat, expectedPrevHash: string, total: nat, ghost prefix: seq<Record>)
    returns (fault: Option<Outcome<Verdict>>)
    requires idx == |prefix| && expectedPrevHash == Head(prefix)
    ensures RecordOf(rec).None? ==> fault == Some(IllTypedOutcome(prefix, rec, total))
    ensures RecordOf(rec).Some? ==>
              var r := RecordOf(rec).value;
              fault == if Extends(h, prefix, r) then None else Some(Returned(FaultVerdict(prefix, r, total)))
  {
    var recHash := Get(rec.recordHash);
    if !rec.sequenceNumber.Number? {
      return Some(Returned(Verdict(false, total, None, recHash, SequenceBroken)));
    }
    var n := rec.sequenceNumber.n;
    if n != idx + 1 {
      return Some(Returned(Verdict(false, total, Some(n), recHash, SequenceBroken)));
    }
    if rec.previousHash != Text(expectedPrevHash) {
      return Some(Returned(Verdict(false, total, Some(n), recHash, LinkBroken)));
    }
    if rec.timestamp.NoStamp? {
      return Some(Returned(Verdict(false, total, Some(n), recHash, MissingTimestamp)));
    }
    if rec.timestamp.BadStamp? {
      return Some(Raised);
    }
    var hashed := Record(n, rec.timestamp.iso, GetOr(rec.action, ""), GetOr(rec.actor, ""),
                         expectedPrevHash, GetOr(rec.payload, EMPTY_PAYLOAD), "");
    if RecordOf(rec).Some? {
      SamePreimage(hashed, RecordOf(rec).value);
    }
    if Text(h(Preimage(hashed))) != rec.recordHash {
      return Some(Returned(Verdict(false, total, Some(n), recHash, HashMismatch)));
    }
    fault := None;
  }

  /** The stored hash is not part of the hashed text. */
  lemma SamePreimage(a: Record, b: Record)
    requires a == b.(recordHash := a.recordHash)
    ensures Preimage(a) == Preimage(b)
  {
    assert Fields(a) == Fields(b);
  }

  /** The verdict on entries whose first fault is a record. */
  lemma {:induction false} TypedFault(h: HashFn, es: seq<Entry>, idx: nat)
    requires idx < |TypedPrefix(es)|
    requires FirstBreak(h, TypedPrefix(es)) == FirstBreakFrom(h, TypedPrefix(es), idx)
    requires !Extends(h, TypedPrefix(es)[..idx], TypedPrefix(es)[idx])
    ensures var rs := TypedPrefix(es);
            EntriesVerdict(h, es) == Returned(FaultVerdict(rs[..idx], rs[idx], |es|))
  {
    ScanEnds(h, TypedPrefix(es), idx);
  }

  /** The verdict on entries whose first fault is an entry that is no record. */
  lemma {:induction false} IllTypedFault(h: HashFn, es: seq<Entry>, idx: nat)
    requires idx == |TypedPrefix(es)| < |es|
    requires FirstBreak(h, TypedPrefix(es)) == FirstBreakFrom(h, TypedPrefix(es), idx)
    ensures EntriesVerdict(h, es) == IllTypedOutcome(TypedPrefix(es), es[idx], |es|)
  {
  }

  lemma {:induction false} NoFault(h: HashFn, es: seq<Entry>)
    requires es != [] && |TypedPrefix(es)| == |es|
    requires FirstBreak(h, TypedPrefix(es)) == FirstBreakFrom(h, TypedPrefix(es), |es|)
    ensures EntriesVerdict(h, es)
         == Returned(Verdict(true, |es|, None, Get(es[|es| - 1].recordHash), Verified))
  {
    var rs := TypedPrefix(es);
    assert RecordOf(es[|es| - 1]) == Some(rs[|rs| - 1]);
  }

  /** Walks the lines of the flat file. */
  method VerifyFileLedger(h: HashFn, lines: seq<Line>) returns (o: Outcome<Verdict>)
    ensures o == FileVerdict(h, lines)
  {
    var records, corrupt := ReadEntries(lines);
    if corrupt {
      return Returned(Verdict(false, |records|, None, Null, CorruptLine));
    }
    var total := |records|;
    if total == 0 {
      return Returned(Verdict(true, 0, None, Null, EmptyLedger));
    }
    ghost var rs := TypedPrefix(records);
    var expectedPrevHash := GENESIS_HASH;
    var idx := 0;
    while idx < total
      invariant idx <= |rs| && expectedPrevHash == Head(rs[..idx])
      invariant FirstBreak(h, rs) == FirstBreakFrom(h, rs, idx)
    {
      ghost var prefix := rs[..idx];
      var fault := CheckEntry(h, records[idx], idx, expectedPrevHash, total, prefix);
      if idx == |rs| {
        IllTypedFault(h, records, idx);
        assert prefix == rs;
      } else if fault.Some? {
        TypedFault(h, records, idx);
      } else {
        ScanOn(h, rs, idx);
      }
      if fault.Some? {
        return fault.value;
      }
      expectedPrevHash := records[idx].recordHash.text;
      idx := idx + 1;
    }
    NoFault(h, records);
    o := Returned(Verdict(true, total, None, Get(records[total - 1].recordHash), Verified));
  }

  /** Database, file and periodic verifier agree on every list of records stored in
      both places: one verdict, and a report of the task with the same validity, count,
      reported record and, when valid, head. */
  lemma {:induction false} VerifiersAgree(h: HashFn, rs: seq<Record>, lines: seq<Line>)
    requires !HasCorrupt(lines)
    requires Entries(lines) == seq(|rs|, i requires 0 <= i < |rs| => EntryOf(rs[i]))
    ensures FileRecords(lines) == rs
    ensures FileVerdict(h, lines) == Returned(ChainVerdict(h, rs))
    ensures var v, t := ChainVerdict(h, rs), TaskReportOf(ChainVerdict(h, rs));
            && t.verified == v.valid && t.total == v.total && t.tamperedSequence == v.tamperedSequence
            && (v.valid && rs != [] ==> t.headHash == Some(Head(rs)) && v.headHash == Text(Head(rs)))
  {
    var es := Entries(lines);
    assert forall i :: 0 <= i < |es| ==> RecordOf(es[i]) == Some(rs[i]);
    assert |TypedPrefix(es)| == |es|;
    assert TypedPrefix(es) == rs;
  }

  // -------------------------------------------------------------- cross-check

  datatype CrossNote = LengthMismatch | SequenceMismatch | HashDivergence | Consistent

  datatype CrossReport = CrossReport(consistent: bool, matched: nat, note: CrossNote)

  predicate EntryMatches(r: Record, e: Entry) {
    e.sequenceNumber == Number(r.sequenceNumber) && e.recordHash == Text(r.recordHash)
  }

  predicate AllMatch(db: seq<Record>, es: seq<Entry>) {
    |db| == |es| && forall i :: 0 <= i < |db| ==> EntryMatches(db[i], es[i])
  }

  function FirstMismatchFrom(db: seq<Record>, es: seq<Entry>, i: nat): (k: nat)
    requires i <= |db| == |es|
    ensures i <= k <= |db|
    ensures forall j :: i <= j < k ==> EntryMatches(db[j], es[j])
    ensures k < |db| ==> !EntryMatches(db[k], es[k])
    decreases |db| - i
  {
    if i < |db| && EntryMatches(db[i], es[i]) then FirstMismatchFrom(db, es, i + 1) else i
  }

  /** The outcome of the comparison, told by the first pair that does not match. A
      corrupt line, or a differing hash that cannot be abbreviated for the message
      (null or a number), makes the call raise. */
  function CrossOutcome(db: seq<Record>, lines: seq<Line>): Outcome<CrossReport> {
    var es := Entries(lines);
    if HasCorrupt(lines) then Raised
    else if |db| != |es| then
      Returned(CrossReport(false, if |db| < |es| then |db| else |es|, LengthMismatch))
    else
      var k := FirstMismatchFrom(db, es, 0);
      if k == |db| then Returned(CrossReport(true, |db|, Consistent))
      else if es[k].sequenceNumber != Number(db[k].sequenceNumber) then
        Returned(CrossReport(false, k + 1, SequenceMismatch))
      else if es[k].recordHash.Null? || es[k].recordHash.Number? then Raised
      else Returned(CrossReport(false, k + 1, HashDivergence))
  }

  predicate CrossConsistent(db: seq<Record>, lines: seq<Line>) {
    CrossOutcome(db, lines).Returned? && CrossOutcome(db, lines).value.consistent
  }

  lemma {:induction false} CrossConsistentIff(db: seq<Record>, lines: seq<Line>)
    ensures CrossConsistent(db, lines) <==> !HasCorrupt(lines) && AllMatch(db, Entries(lines))
  {
  }

  /** Compares the two ledgers pairwise. */
  method VerifyCrossConsistency(db: seq<Record>, lines: seq<Line>) returns (o: Outcome<CrossReport>)
    ensures o == CrossOutcome(db, lines)
  {
    var fileRecords, corrupt := ReadEntries(lines);
    if corrupt {
      return Raised;
    }
    if |db| != |fileRecords| {
      var fewer := if |db| < |fileRecords| then |db| else |fileRecords|;
      return Returned(CrossReport(false, fewer, LengthMismatch));
    }
    for idx := 0 to |db|
      invariant FirstMismatchFrom(db, fileRecords, 0) == FirstMismatchFrom(db, fileRecords, idx)
    {
      var dbRec, fRec := db[idx], fileRecords[idx];
      if Number(dbRec.sequenceNumber) != Get(fRec.sequenceNumber) {
        return Returned(CrossReport(false, idx + 1, SequenceMismatch));
      }
      if Text(dbRec.recordHash) != Get(fRec.recordHash) {
        if fRec.recordHash.Null? || fRec.recordHash.Number? {
          return Raised;
        }
        return Returned(CrossReport(false, idx + 1, HashDivergence));
      }
    }
    o := Returned(CrossReport(true, |db|, Consistent));
  }

  // ------------------------------------------------------------ synchronisation

  /** Python's `value or default` on a JSON scalar. */
  function OrElse(value: Json, default: string): Json {
    match value
    case Text(t) => if t == "" then Text(default) else value
    case Number(n) => if n == 0 then Text(default) else value
    case _ => Text(default)
  }

  function CountLines(lines: seq<Line>): nat {
    if lines == [] then 0
    else CountLines(lines[..|lines| - 1]) + (if lines[|lines| - 1].Blank? then 0 else 1)
  }

  function LatestHash(lines: seq<Line>): Json {
    if lines == [] then Null
    else
      var last := lines[|lines| - 1];
      if last.Parsed? then Get(last.entry.recordHash) else LatestHash(lines[..|lines| - 1])
  }

  predicate InSync(db: seq<Record>, lines: seq<Line>) {
    |db| == CountLines(lines) && Text(Head(db)) == OrElse(LatestHash(lines), GENESIS_HASH)
  }

  /** The summary's test: equal counts and equal head hashes. */
  method LedgersInSync(db: seq<Record>, lines: seq<Line>) returns (inSync: bool)
    ensures inSync == InSync(db, lines)
  {
    var count := 0;
    var latest := Null;
    for i := 0 to |lines|
      invariant count == CountLines(lines[..i]) && latest == LatestHash(lines[..i])
    {
      assert lines[..i + 1][..i] == lines[..i];
      match lines[i] {
        case Blank =>
        case Corrupt => count := count + 1;
        case Parsed(entry) => count, latest := count + 1, Get(entry.recordHash);
      }
    }
    assert lines[..|lines|] == lines;
    var latestDb := if db == [] then GENESIS_HASH else db[|db| - 1].recordHash;
    inSync := |db| == count && Text(latestDb) == OrElse(latest, GENESIS_HASH);
  }

  function LastHash(es: seq<Entry>): Json {
    if es == [] then Null else Get(es[|es| - 1].recordHash)
  }

  lemma {:induction false} SummaryOfCleanFile(lines: seq<Line>)
    requires !HasCorrupt(lines)
    ensures CountLines(lines) == |Entries(lines)|
    ensures LatestHash(lines) == LastHash(Entries(lines))
  {
    if lines != [] {
      var init, last := lines[..|lines| - 1], lines[|lines| - 1];
      assert forall i :: 0 <= i < |init| ==> init[i] == lines[i];
      SummaryOfCleanFile(init);
      EntriesAppend(init, [last]);
      assert lines == init + [last];
    }
  }

  lemma CleanTail(lines: seq<Line>)
    requires !HasCorrupt(lines) && lines != []
    ensures !lines[0].Corrupt? && !HasCorrupt(lines[1..])
  {
    assert forall i :: 0 <= i < |lines[1..]| ==> lines[1..][i] == lines[i + 1];
  }

  lemma {:induction false} EntriesCons(a: seq<Line>, t: seq<Line>, b: seq<Line>)
    requires a != [] && !a[0].Corrupt? && t == a + b
    requires Entries(a[1..] + b) == Entries(a[1..]) + Entries(b)
    ensures Entries(t) == Entries(a) + Entries(b)
  {
    assert t[1..] == a[1..] + b && t[0] == a[0];
  }

  lemma {:induction false} EntriesAppend(a: seq<Line>, b: seq<Line>)
    requires !HasCorrupt(a)
    ensures Entries(a + b) == Entries(a) + Entries(b)
  {
    if a == [] {
      assert a + b == b;
    } else {
      CleanTail(a);
      EntriesAppend(a[1..], b);
      EntriesCons(a, a + b, b);
    }
  }

  lemma {:induction false} TypedHead(lines: seq<Line>)
    requires AllTyped(lines)
    ensures CountLines(lines) == |FileRecords(lines)|
    ensures LatestHash(lines)
         == if FileRecords(lines) == [] then Null else Text(Head(FileRecords(lines)))
  {
    SummaryOfCleanFile(lines);
  }

  lemma {:induction false} MatchingHeads(db: seq<Record>, es: seq<Entry>)
    requires AllMatch(db, es) && TypedPrefix(es) != [] && |TypedPrefix(es)| == |es|
    ensures Head(db) == Head(TypedPrefix(es))
  {
    assert EntryMatches(db[|db| - 1], es[|db| - 1]);
  }

  lemma HeadIsDigest(h: HashFn, rs: seq<Record>)
    requires IsDigest(h) && ValidChain(h, rs)
    ensures Head(rs) != ""
  {
    if rs != [] {
      assert Extends(h, rs[..|rs| - 1], rs[|rs| - 1]);
      assert |h(Preimage(rs[|rs| - 1]))| == 64;
    }
  }

  lemma OneTextMatches(h: HashFn, db: seq<Record>, rs: seq<Record>, es: seq<Entry>)
    requires ValidChain(h, db) && ValidChain(h, rs) && OneText(db, rs)
    requires |rs| == |es| && forall i :: 0 <= i < |rs| ==> RecordOf(es[i]) == Some(rs[i])
    ensures AllMatch(db, es)
  {
    forall i | 0 <= i < |db|
      ensures EntryMatches(db[i], es[i])
    {
      SameHash(h, db, rs, i);
      PreimageFixesSequence(rs[i], db[i]);
      assert RecordOf(es[i]) == Some(rs[i]);
    }
  }

  /** When both ledgers verify, whatever they hold, the cheap test and the pairwise loop
      agree, and when one of them holds no bar in its events both mean that all fields of
      all records are equal; otherwise `x` and `y` are texts of theirs with one digest. */
  lemma SyncTestAgreesWithCrossCheck(h: HashFn, db: seq<Record>, lines: seq<Line>)
      returns (x: string, y: string)
    requires IsDigest(h)
    requires ChainVerdict(h, db).valid && FileVerifies(h, lines)
    ensures TextsCollide(h, db, x, FileRecords(lines), y)
            || ((InSync(db, lines) <==> CrossConsistent(db, lines))
                && (InSync(db, lines) <==> OneText(db, FileRecords(lines)))
                && (BarFreeEvents(db) || BarFreeEvents(FileRecords(lines)) ==>
                      (InSync(db, lines) <==> FileRecords(lines) == db)))
  {
    x, y := "", "";
    var rs, es := FileRecords(lines), Entries(lines);
    ChainVerdictValidIff(h, db);
    FileVerifiesIff(h, lines);
    SyncTestIs(h, db, lines);
    if |db| == |rs| && Head(db) == Head(rs) {
      x, y := SharedHeadIsOneText(h, db, rs);
    }
    if OneText(db, rs) {
      SameHead(h, db, rs);
      OneTextMatches(h, db, rs, es);
      OneTextBarFree(h, db, rs);
    }
  }

  /** The two tests, in terms of the records that a verified file holds. */
  lemma {:induction false} SyncTestIs(h: HashFn, db: seq<Record>, lines: seq<Line>)
    requires IsDigest(h) && AllTyped(lines) && ValidChain(h, FileRecords(lines))
    ensures var rs := FileRecords(lines);
            && (InSync(db, lines) <==> |db| == |rs| && Head(db) == Head(rs))
            && (CrossConsistent(db, lines) <==> AllMatch(db, Entries(lines)))
            && (CrossConsistent(db, lines) ==> InSync(db, lines))
  {
    var rs, es := FileRecords(lines), Entries(lines);
    TypedHead(lines);
    HeadIsDigest(h, rs);
    CrossConsistentIff(db, lines);
    if AllMatch(db, es) && es != [] {
      MatchingHeads(db, es);
    }
  }

  lemma OneTextBarFree(h: HashFn, a: seq<Record>, b: seq<Record>)
    requires ValidChain(h, a) && ValidChain(h, b) && OneText(a, b)
    ensures BarFreeEvents(a) || BarFreeEvents(b) ==> a == b
  {
    if a != b {
      assert ChainDoubles(h, a, b) && ChainDoubles(h, b, a);
      ChainDoubleIff(h, a);
      ChainDoubleIff(h, b);
    }
  }
}

/** What the verifiers report, read off the lists they are given: the number, hash and
    kind of the first fault, the count, and the same for the comparisons of the ledgers. */
module LedgerVerdicts {
  import opened Wrappers
  import opened LedgerRecord
  import opened LedgerChain
  import opened LedgerVerifiers
  import CanonicalValues

  /** The first record to fail a check is the one reported, with the number and the hash
      that are stored in it, and the kind of the fault is the first check it fails. */
  lemma BrokenChainReport(h: HashFn, rs: seq<Record>, k: nat)
    requires k < |rs| && ValidChain(h, rs[..k]) && !Extends(h, rs[..k], rs[k])
    ensures var v, r := ChainVerdict(h, rs), rs[k];
            && !v.valid && v.total == |rs|
            && v.tamperedSequence == Some(r.sequenceNumber) && v.headHash == Text(r.recordHash)
            && (v.note == SequenceBroken <==> r.sequenceNumber != k + 1)
            && (v.note == LinkBroken <==> r.sequenceNumber == k + 1 && r.previousHash != Head(rs[..k]))
            && (v.note == HashMismatch <==> r.sequenceNumber == k + 1 && r.previousHash == Head(rs[..k])
                                            && r.recordHash != h(Preimage(r)))
  {
    FirstBreakIs(h, rs, k);
  }

  /** A valid chain is reported with its length and the hash of its last record. */
  lemma ValidChainReport(h: HashFn, rs: seq<Record>)
    requires ValidChain(h, rs)
    ensures var v := ChainVerdict(h, rs);
            && v.valid && v.total == |rs| && v.tamperedSequence == None
            && v.headHash == (if rs == [] then Null else Text(rs[|rs| - 1].recordHash))
            && v.note == if rs == [] then EmptyLedger else Verified
  {
    ValidIffNoBreak(h, rs);
  }

  /** The periodic task reports the same record, and a head only of a valid chain. */
  lemma TaskReportIs(h: HashFn, rs: seq<Record>)
    ensures var v, t := ChainVerdict(h, rs), TaskReportOf(ChainVerdict(h, rs));
            && (t.verified <==> ValidChain(h, rs)) && t.total == |rs|
            && t.tamperedSequence == v.tamperedSequence
            && t.headHash == if rs != [] && ValidChain(h, rs) then Some(rs[|rs| - 1].recordHash) else None
  {
    ChainVerdictValidIff(h, rs);
    if ValidChain(h, rs) {
      ValidChainReport(h, rs);
    } else {
      BrokenChainReport(h, rs, FirstBreak(h, rs));
    }
  }

  // ----------------------------------------------------------- tampering, reported

  /** A deleted record: the report names the one behind it, by its own number. */
  lemma DeletionReport(h: HashFn, rs: seq<Record>, i: nat)
    requires ValidChain(h, rs) && i + 1 < |rs|
    ensures var v := ChainVerdict(h, rs[..i] + rs[i + 1..]);
            && v.tamperedSequence == Some(i + 2) && v.headHash == Text(rs[i + 1].recordHash)
            && v.note == SequenceBroken && v.total == |rs| - 1
  {
    var t := rs[..i] + rs[i + 1..];
    DeletionBreaksAt(h, rs, i);
    assert t[i] == rs[i + 1];
    BrokenChainReport(h, t, i);
  }

  /** An inserted record is reported by whatever number it carries; one that fits where it
      stands brings the record behind it into the report. */
  lemma InsertionReport(h: HashFn, rs: seq<Record>, i: nat, r: Record)
    requires ValidChain(h, rs) && i < |rs|
    ensures var v := ChainVerdict(h, rs[..i] + [r] + rs[i..]);
            && v.total == |rs| + 1
            && v.tamperedSequence == Some(if Extends(h, rs[..i], r) then i + 1 else r.sequenceNumber)
            && v.headHash == Text(if Extends(h, rs[..i], r) then rs[i].recordHash else r.recordHash)
  {
    var t := rs[..i] + [r] + rs[i..];
    InsertionBreaksAt(h, rs, i, r);
    LinkAndHash(h, rs, i);
    assert t[i] == r && t[i + 1] == rs[i];
    BrokenChainReport(h, t, FirstBreak(h, t));
  }

  /** Deleted, repeated or reordered records: the first one out of place is reported by the
      number it had before, and always as a broken sequence. */
  lemma SelectionReport(h: HashFn, rs: seq<Record>, idx: seq<nat>, g: nat)
    requires ValidChain(h, rs)
    requires forall j :: 0 <= j < |idx| ==> idx[j] < |rs|
    requires g < |idx| && (forall j :: 0 <= j < g ==> idx[j] == j) && idx[g] != g
    ensures var v := ChainVerdict(h, Select(rs, idx));
            && v.tamperedSequence == Some(idx[g] + 1) && v.headHash == Text(rs[idx[g]].recordHash)
            && v.note == SequenceBroken && v.total == |idx|
  {
    SelectionBreaksAt(h, rs, idx, g);
    LinkAndHash(h, rs, idx[g]);
    BrokenChainReport(h, Select(rs, idx), g);
  }

  /** A replaced record that keeps number and link: reported where it stands when its hash
      is not its digest, through its successor when it is another one, else not at all. */
  lemma ReplacementReport(h: HashFn, rs: seq<Record>, i: nat, r: Record)
    requires ValidChain(h, rs) && i < |rs|
    requires r.sequenceNumber == rs[i].sequenceNumber && r.previousHash == rs[i].previousHash
    ensures var v := ChainVerdict(h, rs[i := r]);
            if r.recordHash != h(Preimage(r)) then
              v.tamperedSequence == Some(i + 1) && v.headHash == Text(r.recordHash) && v.note == HashMismatch
            else if r.recordHash != rs[i].recordHash && i + 1 < |rs| then
              v.tamperedSequence == Some(i + 2) && v.headHash == Text(rs[i + 1].recordHash) && v.note == LinkBroken
            else v.valid && v.tamperedSequence == None
  {
    var t := rs[i := r];
    ReplacementBreaksAt(h, rs, i, r);
    LinkAndHash(h, rs, i);
    ReplacedHeads(rs, i, r, i);
    var k := FirstBreak(h, t);
    if k < |t| {
      LinkAndHash(h, rs, k);
      ReplacedHeads(rs, i, r, k);
      BrokenChainReport(h, t, k);
    } else {
      ValidIffNoBreak(h, t);
      ValidChainReport(h, t);
    }
  }

  /** An edited payload is reported by its record's number, or two texts have one digest. */
  lemma EditedPayloadReport(h: HashFn, rs: seq<Record>, i: nat, payload: Payload)
    requires ValidChain(h, rs) && i < |rs| && payload != rs[i].payload
    ensures var r := rs[i].(payload := payload);
            var v := ChainVerdict(h, rs[i := r]);
            || Collision(h, Preimage(r), Preimage(rs[i]))
            || (v.tamperedSequence == Some(i + 1) && v.headHash == Text(rs[i].recordHash)
                && v.note == HashMismatch && v.total == |rs|)
  {
    var r := rs[i].(payload := payload);
    EditedPayloadDetected(h, rs, i, payload);
    LinkAndHash(h, rs, i);
    ReplacedHeads(rs, i, r, i);
    if !Collision(h, Preimage(r), Preimage(rs[i])) {
      BrokenChainReport(h, rs[i := r], i);
    }
  }

  /** So is every payload that is another JSON value, whatever the two are. */
  lemma {:induction false} EditedValueReport(h: HashFn, rs: seq<Record>, i: nat,
                                             was: CanonicalJson.Json, now: CanonicalJson.Json)
    requires ValidChain(h, rs) && i < |rs| && rs[i].payload == CanonicalJson.Write(was) && now != was
    ensures var text := CanonicalJson.Write(now);
            && CanonicalJson.Run(CanonicalJson.Outside, text) == CanonicalJson.Outside
            && var r := rs[i].(payload := text);
               var v := ChainVerdict(h, rs[i := r]);
               || Collision(h, Preimage(r), Preimage(rs[i]))
               || (v.tamperedSequence == Some(i + 1) && v.note == HashMismatch)
  {
    CanonicalJson.WriteIsJsonText(now);
    if CanonicalJson.Write(now) == CanonicalJson.Write(was) {
      CanonicalValues.WriteInjective(now, was);
    }
    EditedPayloadReport(h, rs, i, CanonicalJson.Write(now));
  }

  // ------------------------------------------------------------------- the file

  /** The text that an entry at position `k` behind the hash `link` is hashed from: absent
      actions and actors are empty, an absent payload is the empty object. */
  function HashedText(k: nat, iso: string, link: string, e: Entry): string {
    Decimal(k + 1) + "|" + iso + "|" + GetOr(e.action, "") + "|" + GetOr(e.actor, "") + "|" + link + "|"
    + GetOr(e.payload, "{}")
  }

  /** The hashed text of a record, spelled out. */
  lemma PreimageText(r: Record)
    ensures Preimage(r) == Decimal(r.sequenceNumber) + "|" + r.timestamp + "|" + r.action + "|" + r.actor + "|"
                           + r.previousHash + "|" + r.payload
  {
    var f := Fields(r);
    assert f[1..][0] == f[1] && f[1..][1..] == f[2..] && f[2..][0] == f[2] && f[2..][1..] == f[3..];
    assert f[3..][0] == f[3] && f[3..][1..] == f[4..] && f[4..][0] == f[4] && f[4..][1..] == f[5..];
    assert JoinBars(f[5..]) == f[5];
    assert JoinBars(f[4..]) == f[4] + "|" + f[5];
    assert JoinBars(f[3..]) == f[3] + "|" + (f[4] + "|" + f[5]);
    assert JoinBars(f[2..]) == f[2] + "|" + (f[3] + "|" + (f[4] + "|" + f[5]));
    assert JoinBars(f[1..]) == f[1] + "|" + (f[2] + "|" + (f[3] + "|" + (f[4] + "|" + f[5])));
  }

  /** An entry with its number, link, hash and a readable time stamp in place. */
  predicate Passes(h: HashFn, k: nat, link: string, e: Entry) {
    && e.sequenceNumber == Number(k + 1)
    && e.previousHash == Text(link)
    && e.timestamp.Stamp?
    && e.recordHash == Text(h(HashedText(k, e.timestamp.iso, link, e)))
  }

  /** Those are the entries that read as records which extend the chain before them. */
  lemma PassesIff(h: HashFn, prefix: seq<Record>, e: Entry)
    ensures Passes(h, |prefix|, Head(prefix), e)
            <==> RecordOf(e).Some? && Extends(h, prefix, RecordOf(e).value)
  {
    if RecordOf(e).Some? {
      PreimageText(RecordOf(e).value);
    }
  }

  /** The hash that an entry at position `k` has to be linked to. */
  function EntryLinkAt(es: seq<Entry>, k: nat): Json
    requires k <= |es|
  {
    if k == 0 then Text(GENESIS_HASH) else es[k - 1].recordHash
  }

  /** All entries before position `k` pass. */
  ghost predicate PassUpTo(h: HashFn, es: seq<Entry>, k: nat)
    requires k <= |es|
  {
    forall i :: 0 <= i < k ==> EntryLinkAt(es, i).Text? && Passes(h, i, EntryLinkAt(es, i).text, es[i])
  }

  /** One more entry that passes. */
  lemma PassedSnoc(h: HashFn, es: seq<Entry>, rs: seq<Record>, k: nat)
    requires k < |es| && k <= |rs| <= |es|
    requires k < |rs| ==> RecordOf(es[k]) == Some(rs[k])
    requires k == |rs| ==> RecordOf(es[k]) == None
    requires ValidChain(h, rs[..k]) && Passes(h, k, Head(rs[..k]), es[k])
    ensures k < |rs| && ValidChain(h, rs[..k + 1]) && es[k].recordHash == Text(Head(rs[..k + 1]))
  {
    PassesIff(h, rs[..k], es[k]);
    ValidChainSnoc(h, rs[..k], rs[k]);
    assert rs[..k + 1] == rs[..k] + [rs[k]];
  }

  /** What passes is a valid chain. */
  lemma {:induction false} PassedIsChain(h: HashFn, es: seq<Entry>, rs: seq<Record>, k: nat)
    requires rs == TypedPrefix(es) && k <= |es| && PassUpTo(h, es, k)
    ensures k <= |rs| && ValidChain(h, rs[..k])
    ensures EntryLinkAt(es, k) == Text(Head(rs[..k]))
  {
    if k > 0 {
      PassedIsChain(h, es, rs, k - 1);
      assert Passes(h, k - 1, EntryLinkAt(es, k - 1).text, es[k - 1]);
      PassedSnoc(h, es, rs, k - 1);
    }
  }

  /** What is answered at entry `e` in position `k` behind the hash `link`, of `total`: the
      number it carries if it carries one, its hash, and the first check it fails. A time
      stamp that is reached and cannot be read is the one thing that makes the call raise. */
  ghost predicate ReportsEntry(o: Outcome<Verdict>, e: Entry, k: nat, link: Json, total: nat) {
    var placed := e.sequenceNumber == Number(k + 1);
    var linked := placed && e.previousHash == link;
    && (o.Raised? <==> linked && e.timestamp.BadStamp?)
    && (o.Returned? ==>
          var v := o.value;
          && !v.valid && v.total == total
          && v.tamperedSequence == (if e.sequenceNumber.Number? then Some(e.sequenceNumber.n) else None)
          && v.headHash == (if e.recordHash.Absent? then Null else e.recordHash)
          && (v.note == SequenceBroken <==> !placed)
          && (v.note == LinkBroken <==> placed && !linked)
          && (v.note == MissingTimestamp <==> linked && e.timestamp.NoStamp?)
          && (v.note == HashMismatch <==> linked && e.timestamp.Stamp?))
  }

  lemma IllTypedReport(prefix: seq<Record>, e: Entry, total: nat)
    requires RecordOf(e).None?
    ensures ReportsEntry(IllTypedOutcome(prefix, e, total), e, |prefix|, Text(Head(prefix)), total)
  {
  }

  lemma TypedReport(h: HashFn, prefix: seq<Record>, e: Entry, r: Record, total: nat)
    requires RecordOf(e) == Some(r)
    ensures ReportsEntry(Returned(FaultVerdict(prefix, r, total)), e, |prefix|, Text(Head(prefix)), total)
  {
  }

  lemma {:induction false} EntriesReport(h: HashFn, es: seq<Entry>, rs: seq<Record>, k: nat)
    requires rs == TypedPrefix(es) && k < |es| && k <= |rs| && ValidChain(h, rs[..k])
    requires !Passes(h, k, Head(rs[..k]), es[k])
    ensures ReportsEntry(EntriesVerdict(h, es), es[k], k, Text(Head(rs[..k])), |es|)
  {
    PassesIff(h, rs[..k], es[k]);
    FirstBreakIs(h, rs, k);
    if k < |rs| {
      ScanEnds(h, rs, k);
      TypedReport(h, rs[..k], es[k], rs[k], |es|);
    } else {
      assert rs[..k] == rs;
      IllTypedReport(rs, es[k], |es|);
    }
  }

  /** Behind entries that pass, the first that does not is the one reported. */
  lemma {:induction false} BrokenFileReport(h: HashFn, lines: seq<Line>, k: nat)
    requires !HasCorrupt(lines) && k < |Entries(lines)| && PassUpTo(h, Entries(lines), k)
    requires var link := EntryLinkAt(Entries(lines), k);
             link.Text? ==> !Passes(h, k, link.text, Entries(lines)[k])
    ensures var es := Entries(lines);
            ReportsEntry(FileVerdict(h, lines), es[k], k, EntryLinkAt(es, k), |es|)
  {
    PassedIsChain(h, Entries(lines), TypedPrefix(Entries(lines)), k);
    EntriesReport(h, Entries(lines), TypedPrefix(Entries(lines)), k);
  }

  /** A file whose entries all pass is reported with their number and the last hash. */
  lemma {:induction false} ValidFileReport(h: HashFn, lines: seq<Line>)
    requires !HasCorrupt(lines) && PassUpTo(h, Entries(lines), |Entries(lines)|)
    ensures var o, es := FileVerdict(h, lines), Entries(lines);
            && o.Returned? && o.value.valid && o.value.total == |es| && o.value.tamperedSequence == None
            && o.value.headHash == (if es == [] then Null else es[|es| - 1].recordHash)
            && o.value.note == if es == [] then EmptyLedger else Verified
  {
    var es, rs := Entries(lines), TypedPrefix(Entries(lines));
    PassedIsChain(h, es, rs, |es|);
    assert rs[..|es|] == rs;
    ValidChainReport(h, rs);
  }

  // ----------------------------------------------------------- lines and comparisons

  function Filled(lines: seq<Line>): set<nat> {
    set i: nat | i < |lines| && !lines[i].Blank?
  }

  /** The count of the lines is that of the lines that are not blank, corrupt or not. */
  lemma {:induction false} CountIsOfFilled(lines: seq<Line>)
    ensures CountLines(lines) == |Filled(lines)|
  {
    if lines != [] {
      var n := |lines| - 1;
      CountIsOfFilled(lines[..n]);
      assert Filled(lines) == Filled(lines[..n]) + if lines[n].Blank? then {} else {n};
    }
  }

  /** Up to the first corrupt line, every line that is not blank is an entry, in place. */
  lemma {:induction false} EntryOfLine(lines: seq<Line>, i: nat)
    requires i < |lines| && lines[i].Parsed? && !HasCorrupt(lines[..i])
    ensures |Filled(lines[..i])| < |Entries(lines)| && Entries(lines)[|Filled(lines[..i])|] == lines[i].entry
  {
    var rest := lines[i + 1..];
    EntriesAppend(lines[..i], [lines[i]] + rest);
    SummaryOfCleanFile(lines[..i]);
    CountIsOfFilled(lines[..i]);
    assert lines == lines[..i] + ([lines[i]] + rest);
    assert Entries([lines[i]] + rest) == [lines[i].entry] + Entries(rest);
  }

  /** A corrupt line is reported with the number of entries before it, and nothing else. */
  lemma CorruptFileReport(h: HashFn, lines: seq<Line>, i: nat)
    requires i < |lines| && lines[i].Corrupt? && !HasCorrupt(lines[..i])
    ensures FileVerdict(h, lines) == Returned(Verdict(false, |Filled(lines[..i])|, None, Null, CorruptLine))
  {
    EntriesAppend(lines[..i], lines[i..]);
    SummaryOfCleanFile(lines[..i]);
    CountIsOfFilled(lines[..i]);
    assert lines == lines[..i] + lines[i..];
  }

  /** The cross-check names the smaller length, or the place of the first pair that does not
      match and whether number or hash is at fault; it raises on a corrupt line, and on a
      differing hash that is null or a number. */
  lemma {:induction false} CrossReportIs(db: seq<Record>, lines: seq<Line>, k: nat)
    requires k <= |db| && k <= |Entries(lines)|
    requires forall j :: 0 <= j < k ==> EntryMatches(db[j], Entries(lines)[j])
    requires k < |db| && k < |Entries(lines)| ==> !EntryMatches(db[k], Entries(lines)[k])
    ensures var o, es := CrossOutcome(db, lines), Entries(lines);
            && (HasCorrupt(lines) ==> o == Raised)
            && (!HasCorrupt(lines) && |db| != |es| ==>
                  o == Returned(CrossReport(false, if |db| < |es| then |db| else |es|, LengthMismatch)))
            && (!HasCorrupt(lines) && |db| == |es| ==>
                  if k == |db| then o == Returned(CrossReport(true, |db|, Consistent))
                  else if es[k].sequenceNumber != Number(db[k].sequenceNumber) then
                    o == Returned(CrossReport(false, k + 1, SequenceMismatch))
                  else o == if es[k].recordHash.Null? || es[k].recordHash.Number? then Raised
                            else Returned(CrossReport(false, k + 1, HashDivergence)))
  {
  }

  /** The hash the summary shows for the file is that of the last line that could be read. */
  lemma {:induction false} LatestHashIs(lines: seq<Line>, k: nat)
    requires k < |lines| && lines[k].Parsed? && forall j :: k < j < |lines| ==> !lines[j].Parsed?
    ensures LatestHash(lines) == Get(lines[k].entry.recordHash)
  {
    if k < |lines| - 1 {
      LatestHashIs(lines[..|lines| - 1], k);
    }
  }

  lemma {:induction false} NoLatestHash(lines: seq<Line>)
    requires forall j :: 0 <= j < |lines| ==> !lines[j].Parsed?
    ensures LatestHash(lines) == Null
  {
    if lines != [] {
      NoLatestHash(lines[..|lines| - 1]);
    }
  }

  /** On every file: the summary says "in sync" when the filled lines are as many as the
      rows, and the last line that could be read carries the head hash of the database, an
      empty or missing hash or a zero standing for genesis. */
  lemma InSyncIff(db: seq<Record>, lines: seq<Line>, k: nat)
    requires k < |lines| && lines[k].Parsed? && forall j :: k < j < |lines| ==> !lines[j].Parsed?
    ensures var hash := lines[k].entry.recordHash;
            InSync(db, lines) <==>
            && |db| == |Filled(lines)|
            && (if hash.Text? && hash.text != "" then Head(db) == hash.text
                else (hash.Number? ==> hash.n == 0) && Head(db) == GENESIS_HASH)
  {
    LatestHashIs(lines, k);
    CountIsOfFilled(lines);
  }

  /** And when no line could be read the database must be at genesis. */
  lemma InSyncUnread(db: seq<Record>, lines: seq<Line>)
    requires forall j :: 0 <= j < |lines| ==> !lines[j].Parsed?
    ensures InSync(db, lines) <==> |db| == |Filled(lines)| && Head(db) == GENESIS_HASH
  {
    NoLatestHash(lines);
    CountIsOfFilled(lines);
  }
}

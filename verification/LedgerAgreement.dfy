/** What all verifications together say about the records of the two ledgers. */
module LedgerAgreement {
  import opened LedgerRecord
  import opened LedgerChain
  import opened LedgerDoubles
  import opened LedgerHead
  import opened LedgerVerifiers
  import opened LedgerFile

  lemma FullyVerifiedParts(h: HashFn, db: seq<Record>, lines: seq<Line>)
    requires FullyVerified(h, db, lines)
    ensures ValidChain(h, db) && AllTyped(lines) && ValidChain(h, FileRecords(lines))
    ensures |FileRecords(lines)| == |db|
    ensures forall i :: 0 <= i < |db| ==> FileRecords(lines)[i].recordHash == db[i].recordHash
  {
    var rs, es := FileRecords(lines), Entries(lines);
    ChainVerdictValidIff(h, db);
    FileVerifiesIff(h, lines);
    CrossConsistentIff(db, lines);
    forall i | 0 <= i < |db|
      ensures rs[i].recordHash == db[i].recordHash
    {
      assert EntryMatches(db[i], es[i]) && RecordOf(es[i]).value == rs[i];
    }
  }

  lemma OneTextOrCollision(h: HashFn, a: seq<Record>, b: seq<Record>) returns (x: string, y: string)
    requires ValidChain(h, a) && ValidChain(h, b) && |a| == |b|
    requires forall i :: 0 <= i < |a| ==> b[i].recordHash == a[i].recordHash
    ensures OneText(a, b) || TextsCollide(h, a, x, b, y)
  {
    x, y := "", "";
    if !OneText(a, b) {
      var i :| 0 <= i < |a| && Preimage(b[i]) != Preimage(a[i]);
      x, y := Preimage(a[i]), Preimage(b[i]);
      LinkAndHash(h, a, i);
      LinkAndHash(h, b, i);
    }
  }

  /** A file that passes all verifications beside the database holds records with the same
      hashed texts, and the same records when the events hold no bar. Otherwise `x` and `y`
      are texts of the two with one digest. */
  lemma VerifiedFileHasOneText(h: HashFn, db: seq<Record>, lines: seq<Line>) returns (x: string, y: string)
    requires FullyVerified(h, db, lines)
    ensures TextsCollide(h, db, x, FileRecords(lines), y)
            || (OneText(db, FileRecords(lines)) && (BarFreeEvents(db) ==> FileRecords(lines) == db))
  {
    var rs := FileRecords(lines);
    FullyVerifiedParts(h, db, lines);
    x, y := OneTextOrCollision(h, db, rs);
    if OneText(db, rs) {
      OneTextBarFree(h, db, rs);
    }
  }

  /** The lines of a double pass all verifications beside the chain. */
  lemma DoubleIsFullyVerified(h: HashFn, db: seq<Record>, b: seq<Record>)
    requires ValidChain(h, db) && ValidChain(h, b) && OneText(db, b)
    ensures FullyVerified(h, db, LinesOf(b)) && FileRecords(LinesOf(b)) == b
  {
    ChainVerdictValidIff(h, db);
    ChainVerdictValidIff(h, b);
    WrittenLinesReadBack(b);
    VerifiersAgree(h, b, LinesOf(b));
    OneTextMatches(h, db, b, Entries(LinesOf(b)));
    CrossConsistentIff(db, LinesOf(b));
  }

  /** Leaving collisions aside, passing all verifications means holding the same records
      exactly when no event of the database holds a bar: with one, some file passes over
      other records. */
  lemma FullyVerifiedMeansEqualIff(h: HashFn, db: seq<Record>)
    requires ValidChain(h, db)
    ensures (forall lines :: FullyVerified(h, db, lines) && OneText(db, FileRecords(lines)) ==>
               FileRecords(lines) == db)
            <==> BarFreeEvents(db)
  {
    forall lines | FullyVerified(h, db, lines) && OneText(db, FileRecords(lines)) && BarFreeEvents(db)
      ensures FileRecords(lines) == db
    {
      FullyVerifiedParts(h, db, lines);
      OneTextBarFree(h, db, FileRecords(lines));
    }
    if !BarFreeEvents(db) {
      var b := BarsDefeatTheHead(h, db);
      DoubleIsFullyVerified(h, db, b);
    }
  }
}

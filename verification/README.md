# Verification model of the unidirectional-network cyber defence backend

A Dafny model of the four parts of the backend that carry its hard properties, with
proofs. `dafny verify dfyconfig.toml` checks all of it.

* **The dual audit ledger** (`Ledger*.dfy`, `Canonical*.dfy`). Canonical JSON and its one
  reading, the hash preimage and its decoding, the hash chain and what it detects, how far
  the head hash fixes the history, the three verifiers and what they report of each kind of
  tampering, the cross-check and the cheap sync test, and interleaved transactions of any
  number of appends each over database and flat file as a transition system, whose ledgers
  are read off the list of its steps. The digest is an arbitrary function `h` from text to
  text: every result that needs it to be collision-free ends in "or here are two different
  texts with one digest".
* **The Sigma condition evaluator** (`Condition*.dfy`). Splitting, stripping,
  substituting and reassembling text, Python's Boolean grammar as a precedence parser
  (Python Language Reference, sections 6.11 and 6.17, with calls, because a primary
  followed by parentheses is one), the sentences of that grammar, the meaning of the
  conditions that are written in it, and the answer to every way of gluing or spacing their
  parentheses and of fusing their negations.
* **The flow aggregator** (`Flow*.dfy`, `Threading.dfy`). The segmentation of one flow,
  the table of all flows, the order in which their windows are emitted, what each field of
  a report says of its window and of the reports before it, and the objects themselves:
  windows that all refer to one shared tracker, created, replaced and deleted in a
  dictionary.
* **The statistics** (`Moments.dfy`, `Entropy.dfy`, `Ttl.dfy`, `Ewma.dfy`), over exact
  reals.

Dafny's automatic induction is switched off wherever it would apply, so that each proof
is the one that is written.

## What turned out false, and exactly when it holds

* The repository's README (lines 57-61, 269-276) promises that any omission or alteration
  invalidates the chain. Leaving out the tail does not (`LedgerChain.TruncationVerifies`);
  a selection of the records verifies exactly when it is a prefix
  (`LedgerChain.SelectionVerifiesIff`). An altered history whose hashes are recomputed
  verifies too (`LedgerRewriting.RewritingGoesUnnoticed`). What gives it away is the head
  hash: collisions aside, it changes from the first record on whose hashed text is another
  one, and only then (`LedgerHead.HeadsAgreeIff`, `LedgerRewriting.RewritingKeepsTheHeadIff`).
  A changed payload always does that; a changed event does in a history without bars in its
  events (`LedgerHead.DifferenceReachesTheHead`).
* The head hash does not fix the history when a bar stands in a time stamp, an action or an
  actor. Collisions aside, a verified list with the head hash of another, whatever the two
  hold, has the same hashed texts throughout (`LedgerHead.SharedHeadIsOneText`), and a
  verified list other than the given one has these texts exactly when an event of the given
  one holds such a bar (`LedgerDoubles.ChainDoubleIff`). So one list without bars in its
  events is fixed by its head hash against all others (`LedgerHead.HeadDeterminesChain`). The
  bars in payloads do no harm, because canonical JSON is hashed and what follows a bar in a
  JSON text is not a JSON text (`CanonicalJson.NoTextBehindBar`).
  `app/api/v1/endpoints/flows.py:183` puts a file name into the actor, so bars can occur there.
* Of two verified ledgers the cheap sync test and the pairwise cross-check say the same,
  collisions aside, whatever the ledgers hold (`LedgerVerifiers.SyncTestAgreesWithCrossCheck`).
  That database, file and cross-check verify does not mean that the two ledgers hold the same
  records: it does exactly when no event of the database holds a bar
  (`LedgerAgreement.FullyVerifiedMeansEqualIff`).
* File and database agree, once nothing is pending and no file write failed, exactly
  when no line already written was rolled back (`LedgerFile.LedgersAgreeIffNoOrphans`); one
  such rollback under the lock is enough to part them for good
  (`LedgerAppend.RollbackDesynchronises`, the two lines with sequence 3 in
  `logs/audit_ledger.jsonl`).
* Written-out conditions mean their value, for all outcomes of the selections and all
  spacings, exactly when no selection is called `and`, `or` or `not` and none is called like
  a compound expression, as a selection `not a` is (`ConditionNames.PlainNamesIff`). Names
  that are words without parentheses at their ends and not operators are enough
  (`ConditionNames.BareNamesStandApart`).
* A negation fused with its parenthesis, as in `x and not(a or b)`, and a parenthesis that
  stands alone, as in `( a and b ) or c`, are not read as what they look like. Every
  condition with a fused negation, a lone closing parenthesis, or a lone opening one before
  anything but another opening one, becomes a syntax error and asks whether all selections
  match. A lone opening parenthesis before another makes a call that raises if it is reached,
  so `b or ( (a))` is answered by `b` when `b` matches (`ConditionSpelling.WritingAnswers`).
  With parentheses and negations written in any of these ways, the answer is the value meant
  exactly when no such syntax error is written and no such call is reached, or when "do all
  selections match" happens to have that value (`ConditionSpelling.WritingRightIff`). For `not(a)` alone that is when `a` matches and
  another selection does not, for `( a )` alone when `a` does not match or all do
  (`ConditionSpelling.FusedNegationRightIff`,
  `ConditionSpelling.FreestandingParenthesisRightIff`, with the case of an unlisted `a`).
* An `and` or `or` fused with a parenthesis on one side, as in `x and(y)` or `(x)and y`,
  asks whether all selections match as well (`ConditionFusing.FusedBeforeFails`,
  `ConditionFusing.FusedBehindFails`). Fused on both sides it becomes part of a name:
  `(a)and(b)` asks for a selection called `a)and(b`, and where there is none it is right
  exactly when the value meant is false (`ConditionFusing.FusedBothSidesIsName`).
* A volume anomaly is always a rise over the sample before it exactly when the
  smoothing factor is at least 1/10 (`Ewma.FlagsOnlyRisesIff`), and then a level shift is
  flagged at most once (`Ewma.LevelFlaggedAtMostOnce`). The aggregator uses 1/10, the
  default is 0.15.
* The gaps between packets add up to the window's duration exactly when the packets are
  in order of time (`Moments.GapsAddUpIffOrdered`), because negative gaps count as zero.

## Model

| member | source | states |
|---|---|---|
| LedgerRecord.ReadDecimalInverts | app/services/audit_service.py:51 | The decimal form of a sequence number reads back as that number |
| LedgerRecord.PreimageDecodesIff | app/services/audit_service.py:33-52 | Cutting the preimage at its first five bars gives back the six fields exactly when the first five hold no bar |
| LedgerRecord.PreimageFixesSequence | app/services/audit_service.py:51 | Records with one preimage have one sequence number, whatever bars their other fields hold |
| LedgerRecord.PreimageInjective | app/services/audit_service.py:33-52 | Bar-free records with one preimage agree in every hashed field |
| LedgerChain.TruncationVerifies | app/services/audit_service.py:211-279 | Every prefix of a chain that verifies verifies: a cut tail goes unnoticed |
| LedgerChain.FirstBreakIs | app/services/audit_service.py:229-270 | The break position is the only one whose prefix is valid and whose record does not extend it |
| LedgerChain.ValidIffNoBreak | app/services/audit_service.py:229-279 | A list is a valid chain exactly when the scan finds no break |
| LedgerChain.ReplacementBreaksAt | app/services/audit_service.py:229-270 | Replacing one record of a valid chain breaks it at that record, at the next one, or nowhere, by which field differs |
| LedgerChain.EditedContentsDetected | app/services/audit_service.py:251-268 | Editing a record and keeping its stored hash is reported at that record, or gives a collision |
| LedgerChain.EditedPayloadDetected | app/services/audit_service.py:251-268 | Editing only the payload is always a different preimage, so it is reported at that record or gives a collision |
| LedgerChain.InsertionBreaksAt | app/services/audit_service.py:231-239 | An inserted record is reported where it stands or right behind it |
| LedgerChain.SelectionBreaksAt | app/services/audit_service.py:231-239 | A selection of a chain's records breaks at its first gap |
| LedgerChain.SelectionVerifiesIff | app/services/audit_service.py:211-279 | A selection of a chain's records verifies exactly when it is a prefix |
| LedgerChain.DeletionBreaksAt | app/services/audit_service.py:231-239 | Deleting any record but the last is reported at the position it left |
| CanonicalJson.WriteIsJsonText | app/services/audit_service.py:25-30 | Whatever is written canonically closes its string literals and has bars and backslashes only in them, the form that payloads have in the model |
| CanonicalJson.NoTextBehindBar | app/services/audit_service.py:45-51 | What follows a bar in a JSON text is not a JSON text |
| CanonicalValues.WriteDecodes | app/services/audit_service.py:25-30 | Of all values only one is read off the front of a text, whatever closing or separating character follows: nested lists and objects, escapes and surrogate pairs included |
| CanonicalValues.WriteInjective | app/services/audit_service.py:25-30 | Different payloads have different canonical texts |
| LedgerVerdicts.PreimageText | app/services/audit_service.py:51 | The hashed text is number, time stamp, action, actor, link and payload with bars between them, in this order |
| LedgerHead.SharedHeadIsOneText | app/services/audit_service.py:229-272 | Two verified lists with one head hash, of any lengths and contents, have the same hashed texts throughout, or two different texts hashed for them have one digest, or one of them is empty and a text hashed for the other has the genesis value |
| LedgerHead.HeadsAgreeIff | app/services/audit_service.py:229-272 | At every length, the head hashes of two verified lists agree exactly when all texts hashed up to there do, or two texts of theirs collide |
| LedgerDoubles.SameTextSameParts | app/services/audit_service.py:45-51 | Records without bars in their links have one hashed text exactly when number, link, payload and the joined time stamp, action and actor agree |
| LedgerHead.HeadDeterminesChain | app/services/audit_service.py:229-272 | A verified list without bars in its events is equal to every verified list with its head hash, of any length and contents, or two texts of theirs collide, or one of them is empty and a text of the other hashes to the genesis value |
| LedgerHead.DifferenceReachesTheHead | app/services/audit_service.py:229-272 | A verified list that differs from it at one position has another head hash at every length beyond it, or two texts of theirs collide |
| LedgerDoubles.DoubleWithLinkIff | app/services/audit_service.py:45-51 | A record shares its hashed text with another of the same link exactly when its time stamp, action or actor holds a bar, and then with one of the same payload |
| LedgerDoubles.DoubleIff | app/services/audit_service.py:45-51 | With another of any link and payload, exactly when one of these or the link holds a bar |
| LedgerDoubles.ChainDoubleIff | app/services/audit_service.py:229-272 | A verified chain has another verified list with all its hashed texts exactly when some event holds a bar, and then one with the same payloads; every such list has its head hash |
| LedgerDoubles.BarsDefeatTheHead | app/services/audit_service.py:45-51 | Every verified chain with such a bar has a verified double that ends in the same head hash |
| LedgerDoubles.BarredChainExists | app/api/v1/endpoints/flows.py:183 | For every digest there is a chain with a bar, and so a double of it |
| LedgerRewriting.ResealedHolds | app/services/audit_service.py:166-181 | A chain resealed behind a prefix holds the given events in order |
| LedgerRewriting.RewritingGoesUnnoticed | app/services/audit_service.py:211-383 | With any events in place of a suffix and all hashes recomputed, every verifier and the cross-check succeed |
| LedgerRewriting.RewritingChangesTheHead | app/services/audit_service.py:229-272 | Of a chain without bars in its events such a rewriting of the same length that changes an event, and of any chain one that changes a payload, ends in another head hash, or two texts of the two collide |
| LedgerRewriting.RewritingKeepsTheHeadIff | app/services/audit_service.py:229-272 | Of any chain, it keeps the head hash exactly when each event is hashed as the one in its place was, or two texts of the two collide |
| LedgerVerifiers.WrittenLinesReadBack | app/services/audit_service.py:129-138 | The lines written for records read back as those records, none corrupt |
| LedgerVerifiers.VerifyChain | app/services/audit_service.py:211-279 | The loop returns the verdict given by the first break: validity, count, reported sequence number, hash and kind of fault |
| LedgerVerifiers.VerifyChainTask | app/workers/tasks.py:369-417 | The third verifier reports the database verdict, with its two checks merged |
| LedgerVerifiers.ChainVerdictValidIff | app/services/audit_service.py:211-279 | The verdict is valid exactly for valid chains |
| LedgerVerdicts.BrokenChainReport | app/services/audit_service.py:229-270 | The first record that does not extend the valid ones before it is reported, by the number and hash it carries, with the count of all, and by the first of the three checks it fails |
| LedgerVerdicts.ValidChainReport | app/services/audit_service.py:218-279 | A valid chain is reported with its length and last hash, the empty one with none |
| LedgerVerdicts.TaskReportIs | app/workers/tasks.py:369-417 | The task reports the same number, and a head hash exactly for valid chains that are not empty |
| LedgerVerdicts.DeletionReport | app/services/audit_service.py:232-239 | A deleted record makes the report name the one behind it, by the number it had |
| LedgerVerdicts.InsertionReport | app/services/audit_service.py:229-270 | An inserted record is reported by the number it carries, or, if it fits, through the record behind it |
| LedgerVerdicts.SelectionReport | app/services/audit_service.py:232-239 | Deleted, repeated or reordered records make the report name the first one out of place by its own number, as a broken sequence |
| LedgerVerdicts.ReplacementReport | app/services/audit_service.py:241-270 | A replaced record is reported where it stands if its hash is not its digest, through its successor if it is another digest, else not at all |
| LedgerVerdicts.EditedPayloadReport | app/services/audit_service.py:251-268 | An edited payload is reported by its record's number and hash as a digest mismatch, or gives a collision |
| LedgerVerdicts.EditedValueReport | app/services/audit_service.py:25-52 | So is every payload that is another JSON value |
| LedgerVerifiers.ReadEntries | app/services/audit_service.py:291-299 | Blank lines are skipped, and the first corrupt line stops the reading |
| LedgerVerifiers.CheckEntry | app/services/audit_service.py:309-337 | One entry's checks pass exactly when it is a record that extends the chain before it; otherwise they return the fault it has, or raise |
| LedgerVerdicts.PassesIff | app/services/audit_service.py:309-337 | An entry stands for a record that extends the chain exactly when its number, link, time stamp and hash are in place, the hash that of the text with absent fields as empty |
| LedgerVerdicts.BrokenFileReport | app/services/audit_service.py:309-337 | Behind entries that pass, the first that does not is reported by the number and hash it carries, if any, and by the first check it fails; a time stamp that cannot be read raises |
| LedgerVerdicts.ValidFileReport | app/services/audit_service.py:304-342 | A file whose entries all pass is reported with their count and last hash |
| LedgerVerdicts.EntryOfLine | app/services/audit_service.py:291-299 | Up to the first corrupt line each line that is not blank is an entry, in its place |
| LedgerVerdicts.CorruptFileReport | app/services/audit_service.py:298-299 | A corrupt line is reported with the number of entries before it |
| LedgerVerifiers.VerifyFileLedger | app/services/audit_service.py:282-342 | The loop returns the file verdict, for mistyped and missing fields too, and raises exactly on a malformed time stamp reached |
| LedgerVerifiers.FileVerifiesIff | app/services/audit_service.py:282-342 | The file verifies exactly when no line is corrupt, every entry is complete and the records are a valid chain |
| LedgerVerifiers.VerifiersAgree | app/services/audit_service.py:211-342 | On lines that hold the same records, file and database give one verdict, and the task's report has its validity, count, reported number and, when valid, head |
| LedgerVerifiers.VerifyCrossConsistency | app/services/audit_service.py:345-383 | The pairwise loop returns the count, position and kind of the first mismatch |
| LedgerVerifiers.CrossConsistentIff | app/services/audit_service.py:366-383 | It succeeds exactly when the lists are of one length and match in number and hash everywhere |
| LedgerVerdicts.CrossReportIs | app/services/audit_service.py:369-383 | The report names the smaller length, or place and kind of the first pair that does not match; it raises on a corrupt line and on a differing hash that cannot be cut |
| LedgerVerifiers.LedgersInSync | app/services/audit_service.py:411-450 | The summary's sync test, with its treatment of corrupt lines and absent hashes |
| LedgerVerdicts.CountIsOfFilled | app/services/audit_service.py:424-427 | The count of the file is that of its lines that are not blank, corrupt ones included |
| LedgerVerdicts.LatestHashIs | app/services/audit_service.py:428-431 | The file's head is that of the last line that can be read |
| LedgerVerdicts.InSyncIff | app/services/audit_service.py:447-449 | On every file: in sync exactly when the filled lines are as many as the rows and that head is the database's, empty and missing ones standing for genesis |
| LedgerVerdicts.InSyncUnread | app/services/audit_service.py:447-449 | Without a readable line the database has to be at genesis |
| LedgerVerifiers.SyncTestAgreesWithCrossCheck | app/services/audit_service.py:345-450 | When both ledgers verify, whatever they hold, equal counts and heads hold exactly when the pairwise check succeeds and exactly when all hashed texts agree, and, if one of the two has no bar in its events, exactly when all records are equal; or two texts of theirs collide |
| LedgerAgreement.VerifiedFileHasOneText | app/api/v1/endpoints/audit.py:154-158 | A file that passes all three verifications beside the database holds records with the same hashed texts, and the same records if the events hold no bar, or two texts of the two collide |
| LedgerAgreement.FullyVerifiedMeansEqualIff | app/api/v1/endpoints/audit.py:154-158 | Every file of one text that passes them holds the database records exactly when no event of the database holds a bar: with one, some file passes over other records |
| LedgerProtocol.Latest | app/services/audit_service.py:93-103 | The latest row is one of the rows, and none has a greater number |
| LedgerProtocol.LatestIsLast | app/services/audit_service.py:93-103 | In a valid chain the latest row is the last and its number is the length |
| LedgerProtocol.AppendedRowExtends | app/services/audit_service.py:87-126 | A flush that goes through extends the chain, and no other transaction holds rows then; the unique number alone forces it |
| LedgerProtocol.StepKeepsChain | app/services/audit_service.py:87-140 | Each of the eight kinds of step keeps the chain invariant |
| LedgerProtocol.LedgersOnlyGrow | app/core/database.py:41-54 | No step removes a committed row or a line |
| LedgerProtocol.EveryRunKeepsTheChain | app/services/audit_service.py:87-126 | In every interleaved run, lock taken or not, the committed rows verify, at most one transaction holds rows, and they would verify if committed now |
| LedgerProtocol.FlushOutcome | app/models/audit.py:42-47 | A flush based on a stale head aborts, one based on the current head waits exactly for another writer and else appends, or a collision is exhibited |
| LedgerProtocol.LockedFlushAppends | app/services/audit_service.py:87-91 | If every append takes the lock, no flush ever waits or aborts, or a collision is exhibited |
| LedgerProtocol.OnlyFlushesWait | app/services/audit_service.py:87-140 | An open transaction can always take its next step, except for a flush while another one holds rows, or a collision is exhibited |
| LedgerProtocol.NoDeadlock | app/services/audit_service.py:87-140 | In every reachable state with open transactions one of them can go on by itself, or a collision is exhibited |
| LedgerHistory.LedgersHoldTheHistory | app/core/database.py:41-54 | After every run, rollbacks, refused flushes and failed writes included, the committed rows are exactly those flushed by transactions that ended in a commit, in the order of the commits, the lines those written, in that order, and an open transaction holds what it flushed since it began |
| LedgerFile.StepKeepsFile | app/services/audit_service.py:55-66 | Each step without a failed write keeps the file invariant |
| LedgerFile.FileHoldsCommittedChain | app/services/audit_service.py:125-138 | In every run without a failed write the committed chain is a subsequence of the file |
| LedgerFile.LedgersAgreeIffNoOrphans | app/core/database.py:41-54 | With nothing pending, file and rows are equal, and the cross-check succeeds, exactly when no line already written was orphaned by a rollback |
| LedgerFile.DualVerificationIffNoOrphans | app/api/v1/endpoints/audit.py:154-158 | The three verifications together succeed exactly then, and file and database verdict coincide |
| LedgerAppend.RollbackDesynchronises | logs/audit_ledger.jsonl:3-4 | A run under the lock with one rollback leaves two lines of one number: the database verifies, file and cross-check fail |
| LedgerAppend.AppendIsFourSteps | app/services/audit_service.py:76-140 | What an append does when left alone is what the transition system does in lock, read, flush and write |
| LedgerAppend.AuditSession.LatestRecord | app/services/audit_service.py:160-164 | The scan returns the row with the greatest number among committed and own rows |
| LedgerAppend.AuditSession.DraftRecord | app/services/audit_service.py:166-181 | The drafted record is the one that the seen rows determine |
| LedgerAppend.DraftExtends | app/services/audit_service.py:166-181 | A record drafted on a valid chain extends it |
| LedgerAppend.DraftFollowsLatest | app/services/audit_service.py:166-181 | On rows in any order the draft follows the one with the greatest number, and genesis on none, and holds the event |
| LedgerAppend.AuditSession.AppendEntryToFile | app/services/audit_service.py:55-66 | One line more, or on failure nothing but a lost write; the rows stay as they are |
| LedgerAppend.AuditSession.FlushRow | app/services/audit_service.py:193-194 | The row is added unless a unique key is violated, which ends the transaction and leaves its lines |
| LedgerAppend.AuditSession.StoreRecord | app/services/audit_service.py:193-206 | The state after flush and line, or after a refused flush |
| LedgerAppend.AuditSession.Append | app/services/audit_service.py:143-208 | The session moves as the transition system does in lock, read, flush and write, for lock and file failure and a refused flush too: one row and one line more, one row alone, or all pending rows gone, and the committed rows as they were |
| LedgerAppend.AuditSession.BeginTransaction | app/core/database.py:41-47 | The session's state moves as the transition system's begin step: nothing is pending, both ledgers stay |
| LedgerAppend.AuditSession.CommitTransaction | app/core/database.py:83-85 | The session's state moves as the transition system's commit step: the pending rows stand behind the committed ones, the file stays |
| LedgerAppend.AuditSession.RollbackTransaction | app/core/database.py:86-88 | The session's state moves as the transition system's rollback step: the pending rows are gone, the committed rows and the file stay |
| ConditionText.SplitJoin | app/rules/evaluator.py:158 | Splitting at white space undoes joining words with single blanks |
| ConditionText.SplitsAtSpace | app/rules/evaluator.py:158 | Every white space character splits a text into the words before and the words behind it |
| ConditionText.WordIsOne | app/rules/evaluator.py:158 | Nothing else splits |
| ConditionText.StripTakesAway | app/rules/evaluator.py:138 | Stripping takes away the characters to be stripped at both ends and nothing else |
| ConditionText.AnalyseText | app/rules/evaluator.py:160-163 | Parentheses glued to a bare word come apart again, in the same numbers |
| ConditionGrammar.LexChunks | app/rules/evaluator.py:174-179 | A reassembled text is read token by token |
| ConditionEvaluator.SubstituteTokens | app/rules/evaluator.py:158-174 | The loop builds the reassembled text of the rewritten tokens |
| ConditionEvaluator.EvaluateBooleanCondition | app/rules/evaluator.py:134-182 | The evaluation terminates with the specified answer on every condition, quantified, plain or malformed |
| ConditionEvaluator.RewrittenAlwaysLexes | app/rules/evaluator.py:159-179 | Whatever the condition, the text given to eval holds only the two truth values, three operators, parentheses and blanks |
| ConditionEvaluator.EmptyConditionAsksForAll | app/rules/evaluator.py:180-182 | An empty condition asks whether there are selections and all match |
| ConditionEvaluator.EvaluateSelection | app/rules/evaluator.py:123-131 | A selection matches exactly when all its filters do |
| ConditionEvaluator.ResultOfEachSelection | app/rules/evaluator.py:193-198 | The results hold every selection's outcome under its name, and nothing else |
| ConditionEvaluator.EvaluateRule | app/rules/evaluator.py:185-204 | A rule fires when it is enabled, has selections and its condition holds, and reports the matching names in order, each exactly when some selection of that name matches |
| ConditionEvaluator.ReportedSelections | app/rules/evaluator.py:193-200 | The reported names are those of the matching selections, one for each, in the rule's order |
| ConditionEvaluator.ReportedNames | app/rules/evaluator.py:193-200 | A name is reported exactly when some selection of that name has all its filters match, and once when names are distinct |
| ConditionParsing.StreamEvaluates | app/rules/evaluator.py:175-179 | Parsing and evaluating the tokens of a readable writing gives its outcome, an exception for a called truth value that is reached included |
| ConditionSentences.EvaluatesIff | app/rules/evaluator.py:175-179 | Tokens evaluate to a truth value exactly when they are a sentence of Python's grammar for `or`, `and`, `not`, parentheses and calls that means it, no call being reached: whatever is no sentence is a syntax error |
| ConditionSentences.GeneralPathIff | app/rules/evaluator.py:156-182 | So for every text and all results the general path answers what the rewritten words say, and the fallback exactly when they say nothing |
| ConditionWriting.RewordedIsStream | app/rules/evaluator.py:159-174 | Rewriting the words of a readable writing gives exactly those tokens |
| ConditionWriting.SpellSpells | app/rules/evaluator.py:156-158 | The canonical text of every writing, with parentheses glued or alone and negations spaced or fused, splits into its words |
| ConditionWriting.SubstitutionMeansOutcome | app/rules/evaluator.py:156-182 | For a readable writing, split, strip, substitute, reassemble and evaluate compute its outcome, or the fallback where that raises |
| ConditionMeaning.PrintWrites | app/rules/evaluator.py:156-163 | The printed text of an expression splits into the words of its writing |
| ConditionMeaning.WritingMeansValue | app/rules/evaluator.py:175-179 | The outcome of the writing that an expression is printed as is the value of the expression |
| ConditionMeaning.SubstitutionMeansValue | app/rules/evaluator.py:156-179 | Split, strip, substitute, reassemble and evaluate compute the value of the expression, unlisted names false |
| ConditionMeaning.ConditionMeansValue | app/rules/evaluator.py:134-182 | So does the whole function, for every spacing of the text; no expression is taken for a quantified condition |
| ConditionMeaning.PrintedConditionMeansValue | app/rules/evaluator.py:134-182 | In particular for the canonical text with glued parentheses and single blanks |
| ConditionMeaning.RuleFiresIff | app/rules/evaluator.py:185-204 | A rule written this way fires exactly when it is enabled, has selections and its expression is true of the matches |
| ConditionNames.PlainNamesIff | app/rules/evaluator.py:140-179 | Selections of the given names give every expression, however spaced, its value for all their outcomes exactly when no name is an operator or the text of a compound expression |
| ConditionNames.BareNamesStandApart | app/rules/parser.py:76-96 | Names that are words without parentheses at their ends, and no operators, meet that condition |
| ConditionQuantifiers.OneOfPattern | app/rules/evaluator.py:144-148 | `1 of p*` asks for a matching selection with the prefix |
| ConditionQuantifiers.AnyOfPattern | app/rules/evaluator.py:144-148 | `any of p*` asks the same |
| ConditionQuantifiers.AllOfPattern | app/rules/evaluator.py:150-154 | `all of p*` asks that there are selections with the prefix and all match |
| ConditionQuantifiers.AllOfWord | app/rules/evaluator.py:150-154 | A last word without a star is a prefix too: `all of them` asks for the selections that start with `them` |
| ConditionQuantifiers.QuantifiedAsks | app/rules/evaluator.py:144-154 | Every quantified condition asks for the prefix that is its last piece without stars, wherever these stand |
| ConditionQuantifiers.WithoutStarsSum | app/rules/evaluator.py:145-146 | Stars are taken out character by character |
| ConditionQuantifiers.ListedIsLookedUp | app/rules/evaluator.py:138-142 | A condition that is a selection's name is answered by it, also when the name begins like a quantifier |
| ConditionQuantifiers.AnyOfIsSpelledOut | app/rules/evaluator.py:144-148 | `1 of p*` answers as the or-chain of the matching names does through the general path |
| ConditionQuantifiers.AllOfIsSpelledOut | app/rules/evaluator.py:150-154 | `all of p*` answers as the and-chain of the matching names does, of which there must be one |
| ConditionQuantifiers.QuantifierIgnoresMiddle | app/rules/evaluator.py:145-146 | In a quantified condition only the last word counts |
| ConditionErrors.EvaluatedIsWellMade | app/rules/evaluator.py:175-179 | Tokens that evaluate are balanced, and in them no operand begins right behind another |
| ConditionErrors.GarbledFallsBack | app/rules/evaluator.py:157-182 | Every condition whose words keep unequal numbers of opening and closing parentheses, or put one operand behind another, is answered by the fallback on the general path |
| ConditionSpelling.UnreadableIsGarbled | app/rules/evaluator.py:159-170 | Every writing with a fused negation, a lone closing parenthesis, or a lone opening one before anything but another opening one, is such a condition |
| ConditionSpelling.WritingAnswers | app/rules/evaluator.py:134-182 | The answer to every writing in every spacing: its outcome when it is readable and evaluates, else the fallback |
| ConditionSpelling.WritingRightIff | app/rules/evaluator.py:134-182 | The answer is the value of what is meant exactly when the writing is readable and evaluates, or the fallback has that value |
| ConditionSpelling.FusedNegationFails | app/rules/evaluator.py:161-182 | `not(e)` asks for all selections, for every expression and all results |
| ConditionSpelling.FusedNameFails | app/rules/evaluator.py:161-182 | So does `not(a)` for every word |
| ConditionSpelling.FusedNegationRightIff | app/rules/evaluator.py:161-182 | Its answer is the value of the negation exactly when `a` matches and another selection does not, or `a` is unlisted and all of at least one selection match |
| ConditionSpelling.FreestandingParenthesisFails | app/rules/evaluator.py:161-182 | `( e )` asks for all selections, for every expression and all results |
| ConditionSpelling.FreestandingParenthesisRightIff | app/rules/evaluator.py:161-182 | Its answer is the value of `a` exactly when `a` matches only together with all selections, or is unlisted and not all of at least one selection match |
| ConditionFusing.FusedBeforeFails | app/rules/evaluator.py:159-182 | `e and(d)` and `e or(d)` ask for all selections, for all expressions and all results |
| ConditionFusing.FusedBehindFails | app/rules/evaluator.py:159-182 | So do `(e)and d` and `(e)or d` |
| ConditionFusing.FusedBothSidesIsName | app/rules/evaluator.py:159-182 | `(a)and(b)` and `(a)or(b)` ask for the selection `a)and(b` or `a)or(b`, with the exact condition under which that is the value meant |
| FlowSegmentation.GreedyIsReady | app/services/pcap_service.py:184-219 | Between packets the windows are a segmentation, the current one has room, and without a current one the last is full |
| FlowSegmentation.SegmentationUnique | app/services/pcap_service.py:158-163 | A packet list has at most one segmentation into unbroken windows up to the cap that end only when full or before a late packet |
| FlowSegmentation.GreedyIsTheSegmentation | app/services/pcap_service.py:175-227 | The greedy windows are that one segmentation |
| FlowTable.RunKeepsSound | app/services/pcap_service.py:175-219 | At every moment open windows hold at least one packet and fewer than the cap, emitted ones at most the cap, each of one flow |
| FlowTable.RunIsGreedy | app/services/pcap_service.py:175-219 | For each flow, emitted and open windows are those of the greedy rule on the flow's own packets, whatever is interleaved |
| FlowTable.EmittedIsTheSegmentation | app/services/pcap_service.py:175-240 | Over a whole stream and its flush, the windows of a flow are the one segmentation of its packet subsequence |
| FlowTable.IngestInStages | app/services/pcap_service.py:181-219 | Taking in a packet is preparing its window, adding it and settling the window |
| FlowTable.RunConserves | app/services/pcap_service.py:175-219 | What was taken in is what was emitted and what is held, for every additive measure of packets, at every moment |
| FlowTable.EmittedConserves | app/services/pcap_service.py:221-240 | A whole capture emits all it took in |
| FlowTable.EmittedFits | app/services/pcap_service.py:175-240 | Every window of a capture holds packets, of one flow and no more than the cap |
| FlowOrder.EmittedIsTheOrder | app/services/pcap_service.py:175-227 | Exactly one list of windows is in the order of emission, and a capture emits it: the windows that each packet closes, packet after packet, then every flow still open, in the order in which they last came to hold packets |
| FlowReport.AfterCounts | app/services/packet_extractor.py:76-113 | Each window updates the baseline exactly once |
| FlowReport.AfterIsFed | app/services/packet_extractor.py:401-404 | The shared baseline is the fold of the update over the windows' samples in order of emission |
| FlowReport.FlaggedReportRises | app/services/pcap_service.py:173 | A flagged report is not among the first and exceeds the report just before it, of whatever flow, in packets or bytes per second |
| FlowReport.ReportsAccountForAll | app/services/pcap_service.py:229-240 | The reports of a capture add up to all its packets and bytes, and its windows hold all its payload |
| FlowFacts.DescriptionTells | app/services/packet_extractor.py:279-454 | Of every window: key, first and last time stamp and their distance, packets and bytes; sizes and gaps with extremes, mean, variances and third moment, size mean times count the bytes, gap mean times count the duration exactly for ordered packets; the fingerprint from the first packet's value |
| FlowFacts.EntropiesTell | app/services/packet_extractor.py:116-165 | The gap entropy is 0 exactly when one bin takes all gaps, the payload's exactly when no two bytes differ, and both are n log n less the sum over the counts, over n |
| FlowFacts.SamplePaces | app/services/packet_extractor.py:290-402 | Rates times the duration, or 1e-4 if that is more, are the packets and the bytes |
| FlowFacts.VolumeTells | app/services/packet_extractor.py:76-113 | A report is an anomaly exactly when enough reports are before it and its sample lies more than three weighted standard deviations, and 3/100, above their weighted mean, in packets or in bytes; its means are the weighted means up to it |
| FlowAggregator.FlowWindow.constructor | app/services/packet_extractor.py:235-255 | A new window is empty and refers to the given tracker |
| FlowAggregator.FlowWindow.AddPacket | app/services/packet_extractor.py:257-267 | The packet is appended, and times, bytes and payload stay those of the packet list |
| FlowReport.TotalsAre | app/services/packet_extractor.py:257-267 | What the window keeps besides its packets is their first and last time, summed sizes and joined payloads |
| FlowAggregator.FlowWindow.DescribePackets | app/services/packet_extractor.py:288-394 | The description is that of the packets alone |
| FlowAggregator.FlowWindow.ExtractFeatures | app/services/packet_extractor.py:279-454 | The report compares the window with the tracker's state before, and the tracker takes in one sample |
| FlowAggregator.UnidirectionalFlowAggregator.constructor | app/services/pcap_service.py:165-173 | Nothing is held, and the tracker is new with smoothing 1/10 |
| FlowAggregator.UnidirectionalFlowAggregator.WindowFor | app/services/pcap_service.py:184-210 | A late flow's window is reported and replaced in its place, a new flow gets one at the end, any other keeps its own |
| FlowAggregator.UnidirectionalFlowAggregator.Renew | app/services/pcap_service.py:189-200 | The flow's window is reported, fed to the tracker and replaced by an empty one in its place |
| FlowAggregator.UnidirectionalFlowAggregator.CloseIfFull | app/services/pcap_service.py:214-217 | A full window is reported and taken out |
| FlowAggregator.UnidirectionalFlowAggregator.TakeIn | app/services/pcap_service.py:184-217 | The two stages of a packet, each with what it emits and the table between them |
| FlowAggregator.UnidirectionalFlowAggregator.ProcessPacket | app/services/pcap_service.py:175-219 | The objects move as the table does, and the shared tracker takes in one sample for each window emitted |
| FlowAggregator.UnidirectionalFlowAggregator.FlushAll | app/services/pcap_service.py:221-227 | All windows are reported in dictionary order and nothing is held |
| FlowAggregator.UnidirectionalFlowAggregator.ProcessPcap | app/services/pcap_service.py:229-240 | The reports are those of the windows of the whole stream, nothing is held at the end, and the sample count grows by the number of reports |
| FlowAggregator.ExtractFlows | app/api/v1/endpoints/flows.py:128-129 | For every capture through a new aggregator: each flow's windows are the segmentation of its packets, all windows are in the order of emission, every report tells what its window and the reports before it say, field by field, the reports add up to all packets and bytes, and a flagged report is at least the fifth and a rise over the one before |
| Moments.MeanBetween | app/services/packet_extractor.py:199-202 | Minimum, mean and maximum are in order |
| Moments.VarianceBound | app/services/packet_extractor.py:207-212 | The population variance is at most (max - mean)(mean - min) |
| Moments.VarianceWithinRange | app/services/packet_extractor.py:207-212 | Four times the variance is at most the squared range |
| Moments.CubesBound | app/services/packet_extractor.py:211-216 | The squared sum of cubed deviations is at most the cubed sum of their squares, around any centre |
| Moments.SkewnessBound | app/services/packet_extractor.py:210-218 | The reported skewness squared is at most the number of values |
| Moments.StatsFromPowers | app/services/packet_extractor.py:199-218 | The statistics of two or more values, from the sums of values, squares and cubes: mean, population variance, variance with n - 1, third moment, and when skewness is reported |
| Moments.StatsOfFew | app/services/packet_extractor.py:195-205 | Those of none and of one |
| Moments.StatsAreConsistent | app/services/packet_extractor.py:190-226 | For every non-empty list: mean between the extremes, variance at most (max - mean)(mean - min) and at most the squared standard deviation, and zero with the range |
| Moments.CollectInterArrivals | app/services/packet_extractor.py:301-304 | The loop lists the gaps between neighbours, negative ones as zero |
| Moments.GapBetween | app/services/packet_extractor.py:301-304 | Each gap is the time between two neighbours in milliseconds, or 0 if the later one comes first |
| Moments.GapsAddUpIffOrdered | app/services/packet_extractor.py:273-304 | The gaps add up to at least the duration, and to exactly it if and only if the packets are in order of time |
| Entropy.CalculateShannonEntropy | app/services/packet_extractor.py:116-129 | Counter and sum compute the entropy of the distinct bytes |
| Entropy.CountBytes | app/services/packet_extractor.py:124 | The counter holds exactly the bytes that occur, each with its number of occurrences |
| Entropy.CountIsMultiplicity | app/services/packet_extractor.py:124 | The count of a byte is its multiplicity |
| Entropy.CountsAddUp | app/services/flow_service.py:19-32 | The counter counts every byte once |
| Entropy.EntropyZeroIff | app/services/packet_extractor.py:125-129 | A histogram's entropy is never negative, and zero exactly when every bin is empty or full |
| Entropy.EntropyAtMost | app/services/packet_extractor.py:125-129 | A full histogram over at most n bins has entropy at most log2 n |
| Entropy.EntropyTimesTotal | app/services/packet_extractor.py:125-129 | n H is the total times log2 n less the sum of c log2 c over the bins |
| Entropy.ByteEntropyBounds | app/services/packet_extractor.py:116-129 | A payload's entropy lies between 0 and 8, and is 0 exactly when no two bytes differ |
| Entropy.FillBins | app/services/packet_extractor.py:146-155 | The nested loops put each time into the first bin that takes it |
| Entropy.BinIsUnique | app/services/packet_extractor.py:147-155 | A time lies in no other bin than the first found |
| Entropy.BinsPartition | app/services/packet_extractor.py:151-155 | The sixteen bins count every time exactly when none is negative |
| Entropy.BinsCount | app/services/packet_extractor.py:151-155 | Each bin counts the times within its edges |
| Entropy.CalculateIatEntropy | app/services/packet_extractor.py:132-165 | The function returns the entropy of the bins, and nothing for fewer than two times |
| Entropy.IatEntropyBounds | app/services/packet_extractor.py:157-165 | For non-negative times the entropy lies between 0 and 4 |
| Entropy.IatEntropyZeroIff | app/services/packet_extractor.py:132-165 | For two or more it is 0 exactly when they share one bin |
| Ttl.DeduceInitialTtl | app/services/packet_extractor.py:168-187 | The smallest initial value not exceeded, with the hops that are missing from it; 255 beyond all |
| Ttl.SpoofedIff | app/services/packet_extractor.py:368-380 | The flag means two base values or a variance above 4; the test for distinct values adds nothing |
| Ttl.TtlVarianceIs | app/services/packet_extractor.py:373 | n^2 times the variance is n times the sum of squares less the squared sum |
| Ttl.SpoofedInIntegers | app/services/packet_extractor.py:368-380 | The flag without a variance: two base values, or that difference above 4 n^2 |
| Ttl.NarrowBandNeverSpoofed | app/services/packet_extractor.py:368-380 | Values of one band within 4 of each other are never flagged |
| Ttl.TwoBandsAlwaysSpoofed | app/services/packet_extractor.py:368-380 | Values of two bands always are |
| Ewma.EwmaTracker.constructor | app/services/packet_extractor.py:67-74 | A new tracker has seen nothing |
| Ewma.EwmaTracker.Update | app/services/packet_extractor.py:76-113 | The fields move by the recurrences, and the flag compares with the state before |
| Ewma.TrackedIsWeighted | app/services/packet_extractor.py:84-107 | The recurrences compute exactly mean and variance of the exponentially weighted distribution of all samples |
| Ewma.WeightsAddUp | app/services/packet_extractor.py:101-103 | The weights of that distribution add up to one |
| Ewma.TrackedBounds | app/services/packet_extractor.py:84-107 | The mean stays between the samples' bounds and the variance is never negative |
| Ewma.FedIsTracked | app/services/packet_extractor.py:76-113 | The two metrics run side by side, each over its own samples |
| Ewma.FlaggedIff | app/services/packet_extractor.py:91-113 | A sample is flagged exactly when it is not the first, the minimum is reached, and for packets or for bytes it exceeds the weighted mean of the samples before by more than three weighted standard deviations and by more than 3/100 |
| Ewma.MeansAre | app/services/packet_extractor.py:84-107 | The fields after a list of samples are weighted mean and variance of the whole list |
| Ewma.FlaggedSampleRises | app/services/packet_extractor.py:91-113 | From smoothing 1/10 on, a flagged sample exceeds the one just before it |
| Ewma.LevelFlaggedAtMostOnce | app/services/packet_extractor.py:91-113 | From smoothing 1/10 on, no sample behind the first of a level is flagged, so a level shift is flagged at most once |
| Ewma.PlateauFlagged | app/services/packet_extractor.py:91-113 | Below 1/10 two equal samples after quiet ones are flagged |
| Ewma.FlagsOnlyRisesIff | app/services/packet_extractor.py:91-113 | A flag always means a rise exactly when smoothing is at least 1/10 |

## Left out

- The digest (SHA-256) is a parameter, and time stamps are given strings; a time stamp is the text `isoformat` would give, so two spellings of one instant in the file are not identified.
- LedgerVerifiers.CheckEntry: the same values as in the next line are outside the model.
- LedgerVerifiers.VerifyFileLedger: sequence numbers that are JSON Booleans, which count as integers in the source, fractional and nested values of the fixed fields, actions and actors that are not text, and lines that are not objects are outside the model; a missing and an empty file differ only in their message and are one case.
- LedgerVerifiers.VerifyCrossConsistency: fractional or Boolean sequence numbers that the source takes for equal to an integer are outside the model, as are lines that are not objects.
- LedgerVerifiers.LedgersInSync: takes the rows in order, so the count query and the latest row are those of one list.
- Ordering of rows by sequence number is the database's; a session reads committed rows and its own (read committed), and a refused flush or a failed lock may abort the transaction at any later step, which the runs allow as a rollback.
- LedgerAppend.AuditSession.Append: a session stands for one session alone with its stores; waiting for other transactions is only in the transition system.
- CanonicalJson.WriteIsJsonText: numbers, truth values and null are given texts without quotes, bars, backslashes, separators and brackets, and the members of an object come in the order of the sorted keys.
- CanonicalValues.WriteInjective: the same; values that `default=str` turns into text are that text.
- ConditionSentences.EvaluatesIff: calls without or with several arguments are no part of the grammar, because no rewritten text holds empty parentheses or a comma.
- Field lookup, filter operators and their types are the parameter `matches` of a rule's evaluation.
- ConditionEvaluator.EvaluateRule: of the match result it returns the names of the matching selections, not the rule's own fields and the addresses copied from rule and flow.
- ConditionSpelling.WritingAnswers: operators fused with parentheses are no part of a writing. Fused on one side they are covered by `ConditionFusing`; fused on both sides the text spells a writing in which operator and neighbours are one name, and only for two names is that related to what is meant.
- ConditionSpelling.WritingRightIff: the same.
- Limits of CPython on nesting and length of the evaluated text are not modelled, only the grammar.
- All statistics are exact: rounding of outputs and floating-point error are left out. The standard deviation is represented by the variance, the skewness by its two moments, and z > 3 is stated without the square root.
- Ewma.EwmaTracker.Update: the two returned z scores, rounded quotients by a square root, are left out; the flag they lead to is not.
- The binary logarithm is a parameter with the product law, its value at 2 and a tangent bound; the unused `num_bins` argument is left out.
- FlowAggregator.FlowWindow.constructor: leaves out the upper-casing of the protocol and the tracker made when none is given; the aggregator always gives one.
- FlowAggregator.FlowWindow.DescribePackets: leaves out port and TCP flag checks, the beaconing and exfiltration heuristics, the count of distinct values and conversion of times to dates.
- FlowAggregator.FlowWindow.ExtractFeatures: leaves out the same, and the z scores.
- Decoding of captures: a capture is its list of packet records, with non-negative sizes.
- Models (isolation forest, random forest, explanations), severity matrix, alert fusion, ATT&CK mapping, HTTP, WebSocket and scheduling layers and the frontend are not modelled: they are library calls or short case analyses.

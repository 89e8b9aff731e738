/** What every way of writing a condition is answered with, and exactly when that is the
    value of the expression meant: fused negations and parentheses that stand alone are
    mostly syntax errors. */
module ConditionSpelling {
  import opened Wrappers
  import opened ConditionText
  import opened ConditionGrammar
  import opened ConditionEvaluator
  import opened ConditionParsing
  import opened ConditionWriting
  import opened ConditionErrors
  import opened ConditionMeaning

  // --------------------------------------------------- fused negations lose parentheses

  /** A word that gives no parenthesis away to the counts beside it. */
  predicate IsPlacedWord(w: string) {
    w == "" || (!IsOpen(w[0]) && !IsClose(w[|w| - 1]))
  }

  predicate PlacedWords(cs: seq<Chunk>) {
    forall i :: 0 <= i < |cs| ==> IsPlacedWord(cs[i].word)
  }

  lemma DepthOfText(c: Chunk)
    requires IsPlacedWord(c.word)
    ensures Depth(Text(c)) == c.opens - c.closes
  {
    var t, n := Text(c), |c.word|;
    ShapeOfText(c);
    if n > 0 {
      assert t[c.opens + 0] == c.word[0] && t[c.opens + (n - 1)] == c.word[n - 1];
    }
    PrefixLengthIs(IsOpen, t, c.opens);
    SuffixLengthIs(IsClose, t, c.closes);
  }

  function Sum(cs: seq<Chunk>): int {
    if cs == [] then 0 else cs[0].opens - cs[0].closes + Sum(cs[1..])
  }

  lemma {:induction false} DepthOfTexts(cs: seq<Chunk>)
    requires PlacedWords(cs)
    ensures TotalDepth(Texts(cs)) == Sum(cs)
  {
    if cs != [] {
      DepthOfText(cs[0]);
      DepthOfTexts(cs[1..]);
      assert Texts(cs)[1..] == Texts(cs[1..]);
    }
  }

  lemma {:induction false} SumConcat(a: seq<Chunk>, b: seq<Chunk>)
    ensures Sum(a + b) == Sum(a) + Sum(b)
  {
    if a == [] {
      assert a + b == b;
    } else {
      SumConcat(a[1..], b);
      assert (a + b)[1..] == a[1..] + b;
    }
  }

  lemma SumOfOne(c: Chunk)
    ensures Sum([c]) == c.opens - c.closes
  {
  }

  lemma {:induction false} SumInfix(a: seq<Chunk>, op: string, b: seq<Chunk>)
    ensures Sum(a + [Chunk(0, op, 0)] + b) == Sum(a) + Sum(b)
  {
    SumConcat(a + [Chunk(0, op, 0)], b);
    SumConcat(a, [Chunk(0, op, 0)]);
    SumOfOne(Chunk(0, op, 0));
  }

  lemma SumWithFirst(cs: seq<Chunk>, c: Chunk)
    requires cs != []
    ensures Sum(cs[0 := c]) == Sum(cs) - (cs[0].opens - cs[0].closes) + (c.opens - c.closes)
  {
    assert cs[0 := c][1..] == cs[1..];
  }

  lemma SumWithLast(cs: seq<Chunk>, c: Chunk)
    requires cs != []
    ensures var n := |cs| - 1;
            Sum(cs[n := c]) == Sum(cs) - (cs[n].opens - cs[n].closes) + (c.opens - c.closes)
  {
    var n := |cs| - 1;
    assert cs == cs[..n] + [cs[n]] && cs[n := c] == cs[..n] + [c];
    SumConcat(cs[..n], [cs[n]]);
    SumConcat(cs[..n], [c]);
    SumOfOne(cs[n]);
    SumOfOne(c);
  }

  lemma {:induction false} SumWithOpening(cs: seq<Chunk>, lone: bool)
    requires cs != []
    ensures Sum(WithOpening(cs, lone)) == Sum(cs) + 1 && WithOpening(cs, lone)[0].opens > 0
  {
    if lone {
      SumConcat([LONE_OPENING], cs);
      SumOfOne(LONE_OPENING);
    } else {
      SumWithFirst(cs, cs[0].(opens := cs[0].opens + 1));
    }
  }

  lemma {:induction false} SumWithClosing(cs: seq<Chunk>, lone: bool)
    requires cs != []
    ensures Sum(WithClosing(cs, lone)) == Sum(cs) - 1 && WithClosing(cs, lone)[0].opens == cs[0].opens
  {
    if lone {
      SumConcat(cs, [LONE_CLOSING]);
      SumOfOne(LONE_CLOSING);
    } else {
      var n := |cs| - 1;
      SumWithLast(cs, cs[n].(closes := cs[n].closes + 1));
    }
  }

  /** No writing opens more parentheses than it closes, and with a fused negation fewer. */
  lemma {:induction false} WritingSum(w: Writing)
    requires Fits(w)
    ensures Sum(Chunks(w)) <= 0 && (Sum(Chunks(w)) == 0 <==> Unfused(w))
    ensures w.Parens? ==> Chunks(w)[0].opens > 0
  {
    match w {
      case Word(n) =>
        SumOfOne(Chunk(0, n, 0));
      case Negated(x, fused) =>
        WritingSum(x);
        if fused {
          SumWithFirst(Chunks(x), FuseFirst("not", Chunks(x))[0]);
        } else {
          SumInfix([], "not", Chunks(x));
          assert [] + [Chunk(0, "not", 0)] + Chunks(x) == [Chunk(0, "not", 0)] + Chunks(x);
        }
      case Both(l, r) =>
        WritingSum(l);
        WritingSum(r);
        SumInfix(Chunks(l), "and", Chunks(r));
      case Either(l, r) =>
        WritingSum(l);
        WritingSum(r);
        SumInfix(Chunks(l), "or", Chunks(r));
      case Parens(x, loneOpening, loneClosing) =>
        WritingSum(x);
        SumWithOpening(Chunks(x), loneOpening);
        SumWithClosing(WithOpening(Chunks(x), loneOpening), loneClosing);
    }
  }

  lemma {:induction false} WordsArePlaced(w: Writing)
    requires NamesAreWords(w)
    ensures PlacedWords(Chunks(w))
  {
    match w {
      case Word(n) =>
      case Negated(x, _) =>
        WordsArePlaced(x);
      case Both(l, r) =>
        WordsArePlaced(l);
        WordsArePlaced(r);
      case Either(l, r) =>
        WordsArePlaced(l);
        WordsArePlaced(r);
      case Parens(x, _, _) =>
        WordsArePlaced(x);
    }
  }

  lemma {:induction false} FusedIsGarbled(w: Writing)
    requires Fits(w) && NamesAreWords(w) && !Unfused(w)
    ensures Garbled(Texts(Chunks(w)))
  {
    WritingSum(w);
    WordsArePlaced(w);
    DepthOfTexts(Chunks(w));
  }

  // ----------------------------------------- lone parentheses put operand behind operand

  predicate ChunkEnds(c: Chunk) {
    c.closes > 0 || !IsOperator(c.word)
  }

  predicate ChunkBegins(c: Chunk) {
    c.opens == 0 && c.word != "and" && c.word != "or"
  }

  predicate ChunkClash(cs: seq<Chunk>, i: nat) {
    i + 1 < |cs| && ChunkEnds(cs[i]) && ChunkBegins(cs[i + 1])
  }

  lemma {:induction false} LastEnds(w: Writing)
    requires NamesAreWords(w) && Unfused(w)
    ensures ChunkEnds(Chunks(w)[|Chunks(w)| - 1])
  {
    match w {
      case Word(n) =>
      case Negated(x, _) => LastEnds(x);
      case Both(_, r) => LastEnds(r);
      case Either(_, r) => LastEnds(r);
      case Parens(_, _, _) =>
    }
  }

  lemma {:induction false} FirstBegins(w: Writing)
    requires NamesAreWords(w) && Unfused(w) && !BeginsWithParens(w)
    ensures ChunkBegins(Chunks(w)[0])
  {
    match w {
      case Word(n) =>
      case Negated(_, _) =>
      case Both(l, _) => FirstBegins(l);
      case Either(l, _) => FirstBegins(l);
    }
  }

  lemma ClashInLeft(a: seq<Chunk>, i: nat, op: string, b: seq<Chunk>)
    requires ChunkClash(a, i)
    ensures ChunkClash(a + [Chunk(0, op, 0)] + b, i)
  {
  }

  lemma ClashInRight(a: seq<Chunk>, op: string, b: seq<Chunk>, i: nat) returns (j: nat)
    requires ChunkClash(b, i)
    ensures ChunkClash(a + [Chunk(0, op, 0)] + b, j)
  {
    j := |a| + 1 + i;
    var cs := a + [Chunk(0, op, 0)] + b;
    assert cs[j] == b[i] && cs[j + 1] == b[i + 1];
  }

  lemma ClashInParens(cs: seq<Chunk>, i: nat, loneOpening: bool, loneClosing: bool)
    returns (j: nat)
    requires ChunkClash(cs, i)
    ensures ChunkClash(WithClosing(WithOpening(cs, loneOpening), loneClosing), j)
  {
    j := if loneOpening then i + 1 else i;
    assert ChunkClash(WithOpening(cs, loneOpening), j);
  }

  lemma LoneIsClash(w: Writing) returns (i: nat)
    requires NamesAreWords(w) && Unfused(w) && !Readable(w)
    ensures ChunkClash(Chunks(w), i)
  {
    match w {
      case Word(_) =>
      case Negated(x, _) =>
        i := LoneIsClash(x);
        i := i + 1;
      case Both(l, r) =>
        if Readable(l) {
          i := LoneIsClash(r);
          i := ClashInRight(Chunks(l), "and", Chunks(r), i);
        } else {
          i := LoneIsClash(l);
          ClashInLeft(Chunks(l), i, "and", Chunks(r));
        }
      case Either(l, r) =>
        if Readable(l) {
          i := LoneIsClash(r);
          i := ClashInRight(Chunks(l), "or", Chunks(r), i);
        } else {
          i := LoneIsClash(l);
          ClashInLeft(Chunks(l), i, "or", Chunks(r));
        }
      case Parens(x, loneOpening, loneClosing) =>
        var cs := Chunks(x);
        if !Readable(x) {
          i := LoneIsClash(x);
          i := ClashInParens(cs, i, loneOpening, loneClosing);
        } else if loneClosing {
          LastEnds(x);
          i := |WithOpening(cs, loneOpening)| - 1;
        } else {
          FirstBegins(x);
          i := 0;
        }
    }
  }

  lemma ClashOfTexts(cs: seq<Chunk>, i: nat)
    requires PlainChunks(cs) && ChunkClash(cs, i)
    ensures ClashAt(Texts(cs), i)
  {
    AnalysePlain(cs[i]);
    AnalysePlain(cs[i + 1]);
  }

  /** A writing that is not readable garbles its tokens. */
  lemma {:induction false} UnreadableIsGarbled(w: Writing)
    requires Fits(w) && NamesAreWords(w) && !Readable(w)
    ensures Garbled(Texts(Chunks(w)))
  {
    if Unfused(w) {
      UnfusedIsPlaced(w);
      var i := LoneIsClash(w);
      ClashOfTexts(Chunks(w), i);
    } else {
      FusedIsGarbled(w);
    }
  }

  // ------------------------------------------------------- the answer to every writing

  /** What a condition that spells the writing is answered with. */
  function Answer(w: Writing, results: Results): bool {
    if Readable(w) then OrFallback(Outcome(w, results), results) else Fallback(results)
  }

  /** For every writing and every spacing. */
  lemma {:induction false} WritingAnswers(condition: string, w: Writing, results: Results)
    requires Fits(w) && NamesAreWords(w) && Spells(condition, w)
    requires Strip(IsSpace, condition) !in results && (Readable(w) ==> NoOperatorNames(results))
    ensures EvaluateCondition(condition, results) == Answer(w, results)
  {
    GeneralPath(condition, w, results);
    if Readable(w) {
      SubstitutionMeansOutcome(Strip(IsSpace, condition), w, results);
    } else {
      UnreadableIsGarbled(w);
      GarbledFallsBack(Strip(IsSpace, condition), results);
    }
  }

  /** The expression that is meant, however it is written. */
  function MeaningOf(w: Writing): Condition {
    match w
    case Word(n) => Name(n)
    case Negated(x, _) => Not(MeaningOf(x))
    case Both(l, r) => And(MeaningOf(l), MeaningOf(r))
    case Either(l, r) => Or(MeaningOf(l), MeaningOf(r))
    case Parens(x, _, _) => Group(MeaningOf(x))
  }

  /** What is evaluated without an exception has the value of what is meant. */
  lemma {:induction false} OutcomeIsValue(w: Writing, results: Results)
    ensures Outcome(w, results).Some? ==> Outcome(w, results).value == Value(MeaningOf(w), results)
  {
    match w {
      case Word(n) =>
      case Negated(x, _) =>
        OutcomeIsValue(x, results);
      case Both(l, r) =>
        OutcomeIsValue(l, results);
        OutcomeIsValue(r, results);
      case Either(l, r) =>
        OutcomeIsValue(l, results);
        OutcomeIsValue(r, results);
      case Parens(x, _, _) =>
        OutcomeIsValue(x, results);
    }
  }

  /** The answer is the value of what is meant exactly when the writing is readable and no
      lone opening parenthesis is reached, or all selections happen to give that value. */
  lemma {:induction false} WritingRightIff(condition: string, w: Writing, results: Results)
    requires Fits(w) && NamesAreWords(w) && Spells(condition, w)
    requires Strip(IsSpace, condition) !in results && (Readable(w) ==> NoOperatorNames(results))
    ensures EvaluateCondition(condition, results) == Value(MeaningOf(w), results)
            <==> (Readable(w) && Outcome(w, results).Some?)
                 || Fallback(results) == Value(MeaningOf(w), results)
  {
    WritingAnswers(condition, w, results);
    OutcomeIsValue(w, results);
  }

  // ---------------------------------------------------------------------- instances

  /** An operator fused with a parenthesis is not recognised: the negation of any expression
      written this way is a syntax error after rewriting, whatever the selections. */
  lemma {:induction false} FusedNegationFails(e: Condition, results: Results)
    requires WellNamed(e) && "not(" + Print(e, 0) + ")" !in results
    ensures EvaluateCondition("not(" + Print(e, 0) + ")", results) == Fallback(results)
  {
    var w := Negated(Parens(WritingOf(e, 0), false, false), true);
    WritingFits(e, 0);
    WritingMeansValue(e, 0, results);
    PrintSpells(e, 0);
    assert Spell(w) == "not" + ("(" + Print(e, 0) + ")") == "not(" + Print(e, 0) + ")";
    SpellSpells(w);
    WritingAnswers(Spell(w), w, results);
  }

  /** Nor is a parenthesis that stands alone: it turns into a truth value, so that an
      expression between two of them asks for all selections instead. */
  lemma {:induction false} FreestandingParenthesisFails(e: Condition, results: Results)
    requires WellNamed(e) && "( " + Print(e, 0) + " )" !in results
    ensures EvaluateCondition("( " + Print(e, 0) + " )", results) == Fallback(results)
  {
    var w := Parens(WritingOf(e, 0), true, true);
    WritingFits(e, 0);
    WritingMeansValue(e, 0, results);
    PrintSpells(e, 0);
    SpellSpells(w);
    WritingAnswers(Spell(w), w, results);
  }

  lemma FusedName(a: string)
    requires IsBareWord(a)
    ensures IsWord("not(" + a + ")") && Depth("not(" + a + ")") == -1
  {
    var c := Chunk(0, "not(" + a, 1);
    assert c.word[0] == 'n' && c.word[|c.word| - 1] == a[|a| - 1];
    assert Text(c) == "not(" + a + ")";
    DepthOfText(c);
    TextIsWord(c);
  }

  lemma {:induction false} OneWordIsError(t: string, results: Results)
    requires IsWord(t) && Depth(t) != 0
    ensures EvalTokens(Seen(Split(t), results)) == None
  {
    SplitFirstWord(t, "");
    assert t + "" == t && Split("") == [] && Split(t) == [t];
    assert TotalDepth([t]) == Depth(t) + TotalDepth([]);
    GarbledIsError([t], results);
  }

  /** For one name as the whole condition, even one like an operator. */
  lemma FusedNameFails(a: string, results: Results)
    requires IsBareWord(a) && "not(" + a + ")" !in results
    ensures EvaluateCondition("not(" + a + ")", results) == Fallback(results)
  {
    var t := "not(" + a + ")";
    FusedName(a);
    OneWordIsError(t, results);
    SyntaxErrorFallsBack(t, results);
  }

  /** Its answer is right by accident only: exactly when `a` matches and some other
      selection does not, or `a` is no selection and all selections match. */
  lemma {:induction false} FusedNegationRightIff(a: string, results: Results)
    requires IsBareWord(a) && "not(" + a + ")" !in results
    ensures EvaluateCondition("not(" + a + ")", results) == Value(Not(Group(Name(a))), results)
            <==> if a in results then results[a] && exists n :: n in results && !results[n]
                 else results != map[] && forall n :: n in results ==> results[n]
  {
    FusedNameFails(a, results);
    FallbackIsNegation(a, results);
  }

  lemma {:induction false} FallbackIsNegation(a: string, results: Results)
    ensures Fallback(results) == Value(Not(Group(Name(a))), results)
            <==> if a in results then results[a] && exists n :: n in results && !results[n]
                 else results != map[] && forall n :: n in results ==> results[n]
  {
    assert Value(Group(Name(a)), results) == Value(Name(a), results);
  }

  /** Its answer is right exactly when `a` matches only together with all selections, or
      `a` is no selection and some selection does not match or there is none. */
  lemma {:induction false} FreestandingParenthesisRightIff(a: string, results: Results)
    requires IsBareWord(a) && !IsOperator(a) && "( " + a + " )" !in results
    ensures EvaluateCondition("( " + a + " )", results) == Value(Group(Name(a)), results)
            <==> if a in results then results[a] ==> forall n :: n in results ==> results[n]
                 else results == map[] || exists n :: n in results && !results[n]
  {
    FreestandingParenthesisFails(Name(a), results);
    FallbackIsName(a, results);
  }

  lemma {:induction false} FallbackIsName(a: string, results: Results)
    ensures Fallback(results) == Value(Group(Name(a)), results)
            <==> if a in results then results[a] ==> forall n :: n in results ==> results[n]
                 else results == map[] || exists n :: n in results && !results[n]
  {
    assert Value(Group(Name(a)), results) == Value(Name(a), results);
    if a !in results && results != map[] {
      assert Fallback(results) <==> !(exists n :: n in results && !results[n]);
    }
  }
}

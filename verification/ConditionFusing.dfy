/** Conjunctions and disjunctions whose operator is fused with a parenthesis beside it. On
    one side this is a syntax error; on both sides the operator and what it joins become
    one name. */
module ConditionFusing {
  import opened ConditionText
  import opened ConditionEvaluator
  import opened ConditionParsing
  import opened ConditionWriting
  import opened ConditionErrors
  import opened ConditionMeaning
  import opened ConditionSpelling

  predicate IsInfix(op: string) {
    op == "and" || op == "or"
  }

  /** An operator glued behind the last chunk: its parentheses become part of the word. */
  function FuseLast(cs: seq<Chunk>, op: string): seq<Chunk>
    requires cs != []
  {
    var n := |cs| - 1;
    cs[n := Chunk(cs[n].opens, cs[n].word + Repeat(')', cs[n].closes) + op, 0)]
  }

  function InParens(e: Condition): Writing {
    Parens(WritingOf(e, 0), false, false)
  }

  /** Every word has a name or an operator in it. */
  predicate BareWords(cs: seq<Chunk>) {
    forall i :: 0 <= i < |cs| ==> IsBareWord(cs[i].word)
  }

  lemma BareInfix(a: seq<Chunk>, op: string, b: seq<Chunk>)
    requires BareWords(a) && IsOperator(op) && BareWords(b)
    ensures BareWords(a + [Chunk(0, op, 0)] + b)
  {
    assert IsBareWord(op);
  }

  lemma BareNegation(cs: seq<Chunk>)
    requires BareWords(cs)
    ensures BareWords([Chunk(0, "not", 0)] + cs)
  {
    assert IsBareWord("not");
  }

  lemma BareGroup(cs: seq<Chunk>)
    requires cs != [] && BareWords(cs)
    ensures BareWords(WithClosing(WithOpening(cs, false), false))
  {
  }

  lemma {:induction false} ExpressionWords(e: Condition, level: nat)
    requires WellNamed(e)
    ensures BareWords(Chunks(WritingOf(e, level)))
    decreases e, if NeedsParens(e, level) then 1 else 0
  {
    if NeedsParens(e, level) {
      ExpressionWords(e, 0);
      BareGroup(Chunks(WritingOf(e, 0)));
    } else {
      match e {
        case Name(n) =>
        case Not(x) =>
          ExpressionWords(x, 2);
          BareNegation(Chunks(WritingOf(x, 2)));
        case And(l, r) =>
          ExpressionWords(l, 1);
          ExpressionWords(r, 2);
          BareInfix(Chunks(WritingOf(l, 1)), "and", Chunks(WritingOf(r, 2)));
        case Or(l, r) =>
          ExpressionWords(l, 0);
          ExpressionWords(r, 1);
          BareInfix(Chunks(WritingOf(l, 0)), "or", Chunks(WritingOf(r, 1)));
        case Group(x) =>
          ExpressionWords(x, 0);
          BareGroup(Chunks(WritingOf(x, 0)));
      }
    }
  }

  lemma {:induction false} ExpressionChunks(e: Condition, level: nat)
    requires WellNamed(e) && level <= 2
    ensures var w := WritingOf(e, level);
            NamesAreWords(w) && Unfused(w) && Join(Texts(Chunks(w))) == Print(e, level)
    ensures var cs := ChunksOf(e, level);
            WellPlaced(cs) && BareWords(cs) && TextsAreWords(cs) && PlacedWords(cs) && Sum(cs) == 0
  {
    var w := WritingOf(e, level);
    ExpressionWords(e, level);
    WritingFits(e, level);
    WritingMeansValue(e, level, map[]);
    ReadableIsUnfused(w);
    UnfusedIsPlaced(w);
    ChunksAreWords(w);
    WordsArePlaced(w);
    WritingSum(w);
    PrintSpells(e, level);
    SpellJoins(w);
  }

  /** The same for an expression in parentheses, which open and close with its words. */
  lemma {:induction false} GroupChunks(e: Condition)
    requires WellNamed(e)
    ensures var cs := Chunks(InParens(e));
            && Join(Texts(cs)) == "(" + Print(e, 0) + ")"
            && BareWords(cs) && TextsAreWords(cs) && PlacedWords(cs) && Sum(cs) == 0
            && cs[0].opens > 0 && cs[|cs| - 1].closes > 0
  {
    assert InParens(e) == WritingOf(Group(e), 0);
    ExpressionChunks(Group(e), 0);
  }

  /** Words that end in a syntax error, as a whole condition. */
  lemma GarbledWordsFallBack(cs: seq<Chunk>, results: Results)
    requires TextsAreWords(cs) && NeverOf(cs) && Garbled(Texts(cs))
    requires Join(Texts(cs)) !in results
    ensures EvaluateCondition(Join(Texts(cs)), results) == Fallback(results)
  {
    var cond := Join(Texts(cs));
    JoinedWords(cs);
    NeverQuantified(cond, cs);
    GarbledFallsBack(cond, results);
  }

  // ------------------------------------------------- fused with what stands before it

  lemma TextOfFuseLast(cs: seq<Chunk>, op: string)
    requires cs != []
    ensures Join(Texts(FuseLast(cs, op))) == Join(Texts(cs)) + op
  {
    var n := |cs| - 1;
    var c := FuseLast(cs, op)[n];
    assert Text(c) == Text(cs[n]) + op;
    JoinExtended(Texts(cs), op);
    assert Texts(FuseLast(cs, op)) == Texts(cs)[n := Text(cs[n]) + op];
  }

  lemma JoinExtended(ts: seq<string>, s: string)
    requires ts != []
    ensures Join(ts[|ts| - 1 := ts[|ts| - 1] + s]) == Join(ts) + s
  {
    if |ts| > 1 {
      JoinExtended(ts[1..], s);
      assert ts[|ts| - 1 := ts[|ts| - 1] + s][1..] == ts[1..][|ts| - 2 := ts[|ts| - 1] + s];
    }
  }

  lemma FusedLastWord(c: Chunk, op: string)
    requires IsInfix(op) && IsPlacedWord(c.word) && NoSpace(c.word) && c.word != ""
    ensures var word := c.word + Repeat(')', c.closes) + op;
            IsPlacedWord(word) && NoSpace(word) && word != ""
  {
    var word := c.word + Repeat(')', c.closes) + op;
    assert word[0] == c.word[0] && word[|word| - 1] == op[|op| - 1];
  }

  lemma {:induction false} FuseLastWords(cs: seq<Chunk>, op: string)
    requires IsInfix(op) && cs != [] && cs[|cs| - 1].word != "" && TextsAreWords(cs) && PlacedWords(cs)
    ensures TextsAreWords(FuseLast(cs, op)) && PlacedWords(FuseLast(cs, op))
    ensures Sum(FuseLast(cs, op)) == Sum(cs) + cs[|cs| - 1].closes
  {
    var n := |cs| - 1;
    FusedLastWord(cs[n], op);
    SumWithLast(cs, FuseLast(cs, op)[n]);
  }

  lemma JoinTwo(l: seq<Chunk>, r: seq<Chunk>)
    requires l != [] && r != []
    ensures Join(Texts(l + r)) == Join(Texts(l)) + " " + Join(Texts(r))
  {
    TextsConcat(l, r);
    JoinConcat(Texts(l), Texts(r));
  }

  lemma {:induction false} LostClosings(l: seq<Chunk>, op: string, r: seq<Chunk>)
    requires IsInfix(op) && l != [] && BareWords(l) && TextsAreWords(l) && PlacedWords(l) && Sum(l) == 0
    requires l[0].opens > 0 && l[|l| - 1].closes > 0
    requires r != [] && TextsAreWords(r) && PlacedWords(r) && Sum(r) == 0
    ensures var cs := FuseLast(l, op) + r;
            TextsAreWords(cs) && Garbled(Texts(cs)) && NeverOf(cs)
  {
    FuseLastWords(l, op);
    SumConcat(FuseLast(l, op), r);
    DepthOfTexts(FuseLast(l, op) + r);
    assert FuseLast(l, op)[0].opens == l[0].opens;
  }

  function Behind(e: Condition, op: string, d: Condition, level: nat): seq<Chunk> {
    FuseLast(Chunks(InParens(e)), op) + ChunksOf(d, level)
  }

  lemma {:induction false} BehindWords(e: Condition, op: string, d: Condition, level: nat)
    requires WellNamed(e) && IsInfix(op) && WellNamed(d) && level <= 2
    ensures var cs := Behind(e, op, d, level);
            TextsAreWords(cs) && Garbled(Texts(cs)) && NeverOf(cs)
  {
    GroupChunks(e);
    ExpressionChunks(d, level);
    LostClosings(Chunks(InParens(e)), op, ChunksOf(d, level));
  }

  lemma {:induction false} BehindText(e: Condition, op: string, d: Condition, level: nat)
    requires WellNamed(e) && WellNamed(d) && level <= 2
    ensures Join(Texts(Behind(e, op, d, level))) == "(" + Print(e, 0) + ")" + op + " " + Print(d, level)
  {
    var l, r := FuseLast(Chunks(InParens(e)), op), ChunksOf(d, level);
    GroupChunks(e);
    ExpressionChunks(d, level);
    TextOfFuseLast(Chunks(InParens(e)), op);
    JoinTwo(l, r);
  }

  /** `(e)and d`: the parentheses closed before the operator are lost. */
  lemma {:induction false} FusedBehindFails(e: Condition, op: string, d: Condition, level: nat, results: Results)
    requires WellNamed(e) && IsInfix(op) && WellNamed(d) && level <= 2
    requires "(" + Print(e, 0) + ")" + op + " " + Print(d, level) !in results
    ensures EvaluateCondition("(" + Print(e, 0) + ")" + op + " " + Print(d, level), results) == Fallback(results)
  {
    BehindWords(e, op, d, level);
    BehindText(e, op, d, level);
    GarbledWordsFallBack(Behind(e, op, d, level), results);
  }

  // -------------------------------------------------- fused with what stands behind it

  lemma FusedFirstWord(op: string, c: Chunk)
    requires IsInfix(op) && IsBareWord(c.word)
    ensures IsSelectionName(op + Repeat('(', c.opens + 1) + c.word)
  {
    var word := op + Repeat('(', c.opens + 1) + c.word;
    assert word[0] == op[0] && word[|word| - 1] == c.word[|c.word| - 1] && |word| > 3;
  }

  lemma {:induction false} BeforeClashes(e: Condition, level: nat, fused: seq<Chunk>)
    requires WellNamed(e) && level <= 2
    requires fused != [] && fused[0].opens == 0 && IsSelectionName(fused[0].word)
    ensures Garbled(Texts(ChunksOf(e, level) + fused))
  {
    var l := ChunksOf(e, level);
    var i := |l| - 1;
    ExpressionChunks(e, level);
    LastEnds(WritingOf(e, level));
    AnalysePlain(l[i]);
    AnalysePlain(fused[0]);
    assert Texts(l + fused)[i] == Text(l[i]) && Texts(l + fused)[i + 1] == Text(fused[0]);
    assert ClashAt(Texts(l + fused), i);
  }

  lemma {:induction false} BeforeNeverOf(e: Condition, level: nat, fused: seq<Chunk>)
    requires WellNamed(e) && level <= 2 && fused != [] && fused[0].word != "of"
    ensures NeverOf(ChunksOf(e, level) + fused)
  {
    WritingsNeverOf(WritingOf(e, level));
  }

  function Before(e: Condition, level: nat, op: string, d: Condition): seq<Chunk> {
    ChunksOf(e, level) + FuseFirst(op, Chunks(InParens(d)))
  }

  lemma FusedFirst(op: string, r: seq<Chunk>)
    requires IsInfix(op) && r != [] && BareWords(r) && TextsAreWords(r) && r[0].opens > 0
    ensures var fused := FuseFirst(op, r);
            TextsAreWords(fused) && fused[0].opens == 0 && IsSelectionName(fused[0].word) && fused[0].word[0] == op[0]
  {
    FusedFirstWord(op, r[0].(opens := r[0].opens - 1));
    WordsFused(op, r);
  }

  lemma {:induction false} BeforeWords(e: Condition, level: nat, op: string, d: Condition)
    requires WellNamed(e) && IsInfix(op) && WellNamed(d) && level <= 2
    ensures var cs := Before(e, level, op, d);
            TextsAreWords(cs) && Garbled(Texts(cs)) && NeverOf(cs)
  {
    var r := Chunks(InParens(d));
    ExpressionChunks(e, level);
    GroupChunks(d);
    FusedFirst(op, r);
    BeforeClashes(e, level, FuseFirst(op, r));
    BeforeNeverOf(e, level, FuseFirst(op, r));
  }

  lemma OneString(p: string, op: string, q: string)
    ensures p + " " + (op + ("(" + q + ")")) == p + " " + op + "(" + q + ")"
  {
  }

  lemma {:induction false} BeforeText(e: Condition, level: nat, op: string, d: Condition)
    requires WellNamed(e) && WellNamed(d) && level <= 2
    ensures Join(Texts(Before(e, level, op, d))) == Print(e, level) + " " + op + "(" + Print(d, 0) + ")"
  {
    var l, r := ChunksOf(e, level), FuseFirst(op, Chunks(InParens(d)));
    ExpressionChunks(e, level);
    GroupChunks(d);
    JoinFused(op, Chunks(InParens(d)));
    JoinTwo(l, r);
    OneString(Print(e, level), op, Print(d, 0));
  }

  /** `e and(d)`: the operator is taken for a name, right behind an operand. */
  lemma {:induction false} FusedBeforeFails(e: Condition, level: nat, op: string, d: Condition, results: Results)
    requires WellNamed(e) && IsInfix(op) && WellNamed(d) && level <= 2
    requires Print(e, level) + " " + op + "(" + Print(d, 0) + ")" !in results
    ensures EvaluateCondition(Print(e, level) + " " + op + "(" + Print(d, 0) + ")", results) == Fallback(results)
  {
    BeforeWords(e, level, op, d);
    BeforeText(e, level, op, d);
    GarbledWordsFallBack(Before(e, level, op, d), results);
  }

  // ---------------------------------------------------------------------- both sides

  lemma FusedName(a: string, op: string, b: string)
    requires IsBareWord(a) && IsInfix(op) && IsBareWord(b)
    ensures IsSelectionName(a + ")" + op + "(" + b)
  {
    var n := a + ")" + op + "(" + b;
    assert n[0] == a[0] && n[|n| - 1] == b[|b| - 1] && |n| > 3;
  }

  lemma GroupedName(n: string, results: Results)
    requires IsSelectionName(n) && "(" + n + ")" !in results
    ensures EvaluateCondition("(" + n + ")", results) == (n in results && results[n])
  {
    var w := Parens(Word(n), false, false);
    SpellSpells(w);
    GeneralPath(Spell(w), w, results);
    UnfusedIsPlaced(w);
    RewriteTexts(Chunks(w), results);
    RewrittenAlwaysLexes(Spell(w), results);
    NameTokens(n, results);
    GroupTokens(Chunks(Word(n)), false, results);
    StreamEvaluates(w, results);
  }

  /** `(a)and(b)` asks for a selection called `a)and(b`. It has the value that is meant
      exactly when that selection has it, or, where it is not listed, when the value meant
      is false. */
  lemma {:induction false} FusedBothSidesIsName(a: string, op: string, b: string, results: Results)
    requires IsSelectionName(a) && IsInfix(op) && IsSelectionName(b)
    requires "(" + a + ")" + op + "(" + b + ")" !in results
    ensures var name, text := a + ")" + op + "(" + b, "(" + a + ")" + op + "(" + b + ")";
            var meant := Twofold(op, Group(Name(a)), Group(Name(b)));
            && EvaluateCondition(text, results) == (name in results && results[name])
            && (EvaluateCondition(text, results) == Value(meant, results)
                <==> if name in results then results[name] == Value(meant, results) else !Value(meant, results))
  {
    var name := a + ")" + op + "(" + b;
    FusedName(a, op, b);
    assert "(" + name + ")" == "(" + a + ")" + op + "(" + b + ")";
    GroupedName(name, results);
  }

  function Twofold(op: string, l: Condition, r: Condition): Condition {
    if op == "and" then And(l, r) else Or(l, r)
  }
}

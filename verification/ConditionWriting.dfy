/** The words a writing consists of, what rewriting makes of them, and the theorem that a
    condition written readably evaluates to its outcome. */
module ConditionWriting {
  import opened Wrappers
  import opened ConditionText
  import opened ConditionGrammar
  import opened ConditionEvaluator
  import opened ConditionParsing

  predicate IsOperator(w: string) {
    w == "and" || w == "or" || w == "not"
  }

  predicate IsSelectionName(n: string) {
    IsBareWord(n) && !IsOperator(n)
  }

  /** Selections are named by words with no parenthesis at either end. */
  predicate NamesAreWords(w: Writing) {
    match w
    case Word(n) => IsSelectionName(n)
    case Negated(x, _) => NamesAreWords(x)
    case Both(l, r) => NamesAreWords(l) && NamesAreWords(r)
    case Either(l, r) => NamesAreWords(l) && NamesAreWords(r)
    case Parens(x, _, _) => NamesAreWords(x)
  }

  predicate NoOperatorNames(results: Results) {
    "and" !in results && "or" !in results && "not" !in results
  }

  // ----------------------------------------------------------------- the words

  /** An opening parenthesis glued to the first chunk. */
  function OpenFirst(cs: seq<Chunk>): seq<Chunk>
    requires cs != []
  {
    cs[0 := cs[0].(opens := cs[0].opens + 1)]
  }

  function CloseLast(cs: seq<Chunk>): seq<Chunk>
    requires cs != []
  {
    var n := |cs| - 1;
    cs[n := cs[n].(closes := cs[n].closes + 1)]
  }

  /** An operator glued to the first chunk: its parentheses become part of the word. */
  function FuseFirst(op: string, cs: seq<Chunk>): seq<Chunk>
    requires cs != []
  {
    cs[0 := Chunk(0, op + Repeat('(', cs[0].opens) + cs[0].word, cs[0].closes)]
  }

  const LONE_OPENING := Chunk(1, "", 0)
  const LONE_CLOSING := Chunk(0, "", 1)

  function WithOpening(cs: seq<Chunk>, lone: bool): (r: seq<Chunk>)
    requires cs != []
    ensures r != []
  {
    if lone then [LONE_OPENING] + cs else OpenFirst(cs)
  }

  function WithClosing(cs: seq<Chunk>, lone: bool): (r: seq<Chunk>)
    requires cs != []
    ensures r != []
  {
    if lone then cs + [LONE_CLOSING] else CloseLast(cs)
  }

  /** The white-space-separated words of a writing. */
  function Chunks(w: Writing): (cs: seq<Chunk>)
    ensures cs != []
  {
    match w
    case Word(n) => [Chunk(0, n, 0)]
    case Negated(x, fused) => if fused then FuseFirst("not", Chunks(x)) else [Chunk(0, "not", 0)] + Chunks(x)
    case Both(l, r) => Chunks(l) + [Chunk(0, "and", 0)] + Chunks(r)
    case Either(l, r) => Chunks(l) + [Chunk(0, "or", 0)] + Chunks(r)
    case Parens(x, loneOpening, loneClosing) =>
      WithClosing(WithOpening(Chunks(x), loneOpening), loneClosing)
  }

  /** A condition spells a writing when it has its words, however spaced. */
  predicate Spells(condition: string, w: Writing) {
    Split(condition) == Texts(Chunks(w))
  }

  // ----------------------------------------------------------- words taken apart

  /** A word with its parentheses, or parentheses of one kind standing alone. */
  predicate IsPlainChunk(c: Chunk) {
    IsBareWord(c.word) || (c.word == "" && (c.opens == 0) != (c.closes == 0))
  }

  predicate PlainChunks(cs: seq<Chunk>) {
    forall i :: 0 <= i < |cs| ==> IsPlainChunk(cs[i])
  }

  lemma AnalyseLone(c: Chunk)
    requires c.word == "" && (c.opens == 0 || c.closes == 0)
    ensures Analyse(Text(c)) == c
  {
    var t := Text(c);
    ShapeOfText(c);
    PrefixLengthIs(IsOpen, t, c.opens);
    SuffixLengthIs(IsClose, t, c.closes);
    PrefixLengthIs(IsParen, t, |t|);
    assert t[|t|..] == "";
  }

  lemma LoneIsWord(c: Chunk)
    requires c.word == "" && (c.opens == 0) != (c.closes == 0)
    ensures IsWord(Text(c))
  {
    ShapeOfText(c);
    assert forall i :: 0 <= i < |Text(c)| ==> Text(c)[i] == '(' || Text(c)[i] == ')';
  }

  lemma AnalysePlain(c: Chunk)
    requires IsPlainChunk(c)
    ensures Analyse(Text(c)) == c && IsWord(Text(c))
  {
    if IsBareWord(c.word) {
      AnalyseText(c);
      TextIsWord(c);
    } else {
      AnalyseLone(c);
      LoneIsWord(c);
    }
  }

  /** Plain chunks with nothing but parentheses at most at the right ends. */
  predicate WellPlaced(cs: seq<Chunk>)
    requires cs != []
  {
    var last := cs[|cs| - 1];
    && PlainChunks(cs)
    && (cs[0].word == "" ==> |cs| > 1 && cs[0].closes == 0)
    && (last.word == "" ==> |cs| > 1 && last.opens == 0)
  }

  lemma PlacedInfix(a: seq<Chunk>, op: string, b: seq<Chunk>)
    requires a != [] && WellPlaced(a) && IsOperator(op) && b != [] && WellPlaced(b)
    ensures WellPlaced(a + [Chunk(0, op, 0)] + b)
  {
    assert IsBareWord(op);
  }

  lemma PlacedNegation(cs: seq<Chunk>)
    requires cs != [] && WellPlaced(cs)
    ensures WellPlaced([Chunk(0, "not", 0)] + cs)
  {
    assert IsBareWord("not");
  }

  lemma PlacedOpening(cs: seq<Chunk>)
    requires cs != [] && WellPlaced(cs)
    ensures WellPlaced(WithOpening(cs, true)) && WellPlaced(WithOpening(cs, false))
  {
  }

  lemma PlacedClosing(cs: seq<Chunk>)
    requires cs != [] && WellPlaced(cs)
    ensures WellPlaced(WithClosing(cs, true)) && WellPlaced(WithClosing(cs, false))
  {
  }

  /** Without fused negations all words come apart as they were put together. */
  predicate Unfused(w: Writing) {
    match w
    case Word(_) => true
    case Negated(x, fused) => !fused && Unfused(x)
    case Both(l, r) => Unfused(l) && Unfused(r)
    case Either(l, r) => Unfused(l) && Unfused(r)
    case Parens(x, _, _) => Unfused(x)
  }

  lemma {:induction false} UnfusedIsPlaced(w: Writing)
    requires NamesAreWords(w) && Unfused(w)
    ensures WellPlaced(Chunks(w))
  {
    match w {
      case Word(n) =>
      case Negated(x, _) =>
        UnfusedIsPlaced(x);
        PlacedNegation(Chunks(x));
      case Both(l, r) =>
        UnfusedIsPlaced(l);
        UnfusedIsPlaced(r);
        PlacedInfix(Chunks(l), "and", Chunks(r));
      case Either(l, r) =>
        UnfusedIsPlaced(l);
        UnfusedIsPlaced(r);
        PlacedInfix(Chunks(l), "or", Chunks(r));
      case Parens(x, loneOpening, _) =>
        UnfusedIsPlaced(x);
        PlacedOpening(Chunks(x));
        PlacedClosing(WithOpening(Chunks(x), loneOpening));
    }
  }

  // ------------------------------------------------------------- the canonical text

  /** Single blanks between words. */
  function Spell(w: Writing): string {
    match w
    case Word(n) => n
    case Negated(x, fused) => (if fused then "not" else "not ") + Spell(x)
    case Both(l, r) => Spell(l) + " and " + Spell(r)
    case Either(l, r) => Spell(l) + " or " + Spell(r)
    case Parens(x, loneOpening, loneClosing) =>
      (if loneOpening then "( " else "(") + Spell(x) + (if loneClosing then " )" else ")")
  }

  lemma OneMore(c: Chunk)
    ensures Text(c.(opens := c.opens + 1)) == "(" + Text(c)
    ensures Text(c.(closes := c.closes + 1)) == Text(c) + ")"
  {
    assert Repeat('(', c.opens + 1) == "(" + Repeat('(', c.opens);
    assert Repeat(')', c.closes + 1) == Repeat(')', c.closes) + ")";
  }

  lemma JoinPrefixed(ts: seq<string>, p: string)
    requires ts != []
    ensures Join(ts[0 := p + ts[0]]) == p + Join(ts)
  {
    var t := ts[0 := p + ts[0]];
    if |ts| > 1 {
      assert t[1..] == ts[1..];
      assert (p + ts[0]) + " " + Join(ts[1..]) == p + (ts[0] + " " + Join(ts[1..]));
    }
  }

  lemma JoinClosed(ts: seq<string>)
    requires ts != []
    ensures Join(ts[|ts| - 1 := ts[|ts| - 1] + ")"]) == Join(ts) + ")"
  {
    if |ts| > 1 {
      JoinClosed(ts[1..]);
      assert ts[|ts| - 1 := ts[|ts| - 1] + ")"][1..] == ts[1..][|ts| - 2 := ts[|ts| - 1] + ")"];
    }
  }

  lemma TextsConcat(a: seq<Chunk>, b: seq<Chunk>)
    ensures Texts(a + b) == Texts(a) + Texts(b)
  {
  }

  lemma JoinInfix(a: seq<Chunk>, op: string, b: seq<Chunk>)
    requires a != [] && b != []
    ensures Join(Texts(a + [Chunk(0, op, 0)] + b)) == Join(Texts(a)) + " " + op + " " + Join(Texts(b))
  {
    var o := Chunk(0, op, 0);
    TextsConcat(a + [o], b);
    TextsConcat(a, [o]);
    assert Text(o) == op && Texts([o]) == [op];
    JoinConcat(Texts(a) + [op], Texts(b));
    JoinConcat(Texts(a), [op]);
  }

  lemma JoinAnd(a: seq<Chunk>, b: seq<Chunk>)
    requires a != [] && b != []
    ensures Join(Texts(a + [Chunk(0, "and", 0)] + b)) == Join(Texts(a)) + " and " + Join(Texts(b))
  {
    JoinInfix(a, "and", b);
    assert Join(Texts(a)) + " " + "and" + " " == Join(Texts(a)) + " and ";
  }

  lemma JoinOr(a: seq<Chunk>, b: seq<Chunk>)
    requires a != [] && b != []
    ensures Join(Texts(a + [Chunk(0, "or", 0)] + b)) == Join(Texts(a)) + " or " + Join(Texts(b))
  {
    JoinInfix(a, "or", b);
    assert Join(Texts(a)) + " " + "or" + " " == Join(Texts(a)) + " or ";
  }

  lemma JoinWord(cs: seq<Chunk>, word: string)
    requires cs != [] && word != ""
    ensures Join(Texts([Chunk(0, word, 0)] + cs)) == word + " " + Join(Texts(cs))
  {
    JoinTexts(Chunk(0, word, 0), cs);
    assert Text(Chunk(0, word, 0)) == word;
  }

  lemma LoneTexts()
    ensures Text(LONE_OPENING) == "(" && Text(LONE_CLOSING) == ")"
  {
    OneMore(Chunk(0, "", 0));
    assert Text(Chunk(0, "", 0)) == "";
  }

  lemma JoinOpening(cs: seq<Chunk>, lone: bool)
    requires cs != []
    ensures Join(Texts(WithOpening(cs, lone))) == (if lone then "( " else "(") + Join(Texts(cs))
  {
    if lone {
      JoinTexts(LONE_OPENING, cs);
      LoneTexts();
      assert "(" + " " == "( ";
    } else {
      OneMore(cs[0]);
      JoinPrefixed(Texts(cs), "(");
      assert Texts(OpenFirst(cs)) == Texts(cs)[0 := "(" + Text(cs[0])];
    }
  }

  lemma JoinGlued(cs: seq<Chunk>)
    requires cs != []
    ensures Join(Texts(CloseLast(cs))) == Join(Texts(cs)) + ")"
  {
    var n := |cs| - 1;
    OneMore(cs[n]);
    JoinClosed(Texts(cs));
    assert Texts(CloseLast(cs)) == Texts(cs)[n := Text(cs[n]) + ")"];
  }

  lemma JoinClosing(cs: seq<Chunk>, lone: bool)
    requires cs != []
    ensures Join(Texts(WithClosing(cs, lone))) == Join(Texts(cs)) + (if lone then " )" else ")")
  {
    if lone {
      TextsConcat(cs, [LONE_CLOSING]);
      LoneTexts();
      assert Texts([LONE_CLOSING]) == [")"];
      JoinConcat(Texts(cs), [")"]);
      assert Join(Texts(cs)) + " " + ")" == Join(Texts(cs)) + " )";
    } else {
      JoinGlued(cs);
    }
  }

  lemma JoinFused(op: string, cs: seq<Chunk>)
    requires cs != []
    ensures Join(Texts(FuseFirst(op, cs))) == op + Join(Texts(cs))
  {
    JoinPrefixed(Texts(cs), op);
    assert Text(FuseFirst(op, cs)[0]) == op + Text(cs[0]);
    assert Texts(FuseFirst(op, cs)) == Texts(cs)[0 := op + Text(cs[0])];
  }

  lemma {:induction false} SpellJoins(w: Writing)
    ensures Spell(w) == Join(Texts(Chunks(w)))
  {
    match w {
      case Word(n) =>
        JoinTexts(Chunk(0, n, 0), []);
        assert Text(Chunk(0, n, 0)) == n;
      case Negated(x, fused) =>
        SpellJoins(x);
        JoinFused("not", Chunks(x));
        JoinWord(Chunks(x), "not");
        assert "not" + " " == "not ";
      case Both(l, r) =>
        SpellJoins(l);
        SpellJoins(r);
        JoinAnd(Chunks(l), Chunks(r));
      case Either(l, r) =>
        SpellJoins(l);
        SpellJoins(r);
        JoinOr(Chunks(l), Chunks(r));
      case Parens(x, loneOpening, loneClosing) =>
        SpellJoins(x);
        JoinOpening(Chunks(x), loneOpening);
        JoinClosing(WithOpening(Chunks(x), loneOpening), loneClosing);
    }
  }

  predicate TextsAreWords(cs: seq<Chunk>) {
    forall i :: 0 <= i < |cs| ==> NoSpace(cs[i].word) && (cs[i].word != "" || cs[i].opens + cs[i].closes > 0)
  }

  lemma WordsFused(op: string, cs: seq<Chunk>)
    requires IsOperator(op) && cs != [] && TextsAreWords(cs)
    ensures TextsAreWords(FuseFirst(op, cs))
  {
    var w := FuseFirst(op, cs)[0].word;
    assert w == op + Repeat('(', cs[0].opens) + cs[0].word;
    assert NoSpace(op + Repeat('(', cs[0].opens)) && NoSpace(cs[0].word);
  }

  lemma WordsInfix(a: seq<Chunk>, op: string, b: seq<Chunk>)
    requires TextsAreWords(a) && IsOperator(op) && TextsAreWords(b)
    ensures TextsAreWords(a + [Chunk(0, op, 0)] + b)
  {
    assert NoSpace(op);
  }

  lemma WordsInParens(cs: seq<Chunk>, loneOpening: bool, loneClosing: bool)
    requires cs != [] && TextsAreWords(cs)
    ensures TextsAreWords(WithClosing(WithOpening(cs, loneOpening), loneClosing))
  {
    assert TextsAreWords(WithOpening(cs, loneOpening));
  }

  lemma {:induction false} ChunksAreWords(w: Writing)
    requires NamesAreWords(w)
    ensures TextsAreWords(Chunks(w))
  {
    match w {
      case Word(n) =>
      case Negated(x, _) =>
        ChunksAreWords(x);
        WordsFused("not", Chunks(x));
        WordsInfix([], "not", Chunks(x));
        assert [] + [Chunk(0, "not", 0)] + Chunks(x) == [Chunk(0, "not", 0)] + Chunks(x);
      case Both(l, r) =>
        ChunksAreWords(l);
        ChunksAreWords(r);
        WordsInfix(Chunks(l), "and", Chunks(r));
      case Either(l, r) =>
        ChunksAreWords(l);
        ChunksAreWords(r);
        WordsInfix(Chunks(l), "or", Chunks(r));
      case Parens(x, loneOpening, loneClosing) =>
        ChunksAreWords(x);
        WordsInParens(Chunks(x), loneOpening, loneClosing);
    }
  }

  lemma WordsOfTexts(cs: seq<Chunk>)
    requires TextsAreWords(cs)
    ensures AllWords(Texts(cs))
  {
    forall i | 0 <= i < |cs|
      ensures IsWord(Texts(cs)[i])
    {
      ShapeOfText(cs[i]);
    }
  }

  lemma JoinedWords(cs: seq<Chunk>)
    requires TextsAreWords(cs)
    ensures var s := Join(Texts(cs)); Split(s) == Texts(cs) && Strip(IsSpace, s) == s
  {
    WordsOfTexts(cs);
    SplitJoin(Texts(cs));
    StripJoined(Texts(cs));
  }

  /** The canonical text spells its writing, and has no white space at its ends. */
  lemma {:induction false} SpellSpells(w: Writing)
    requires NamesAreWords(w)
    ensures Spells(Spell(w), w) && Strip(IsSpace, Spell(w)) == Spell(w)
  {
    SpellJoins(w);
    ChunksAreWords(w);
    JoinedWords(Chunks(w));
  }

  // -------------------------------------------------- the tokens after rewriting

  function Reworded(cs: seq<Chunk>, results: Results): (rs: seq<Chunk>)
    ensures |rs| == |cs| && KeywordChunks(rs)
    ensures forall i :: 0 <= i < |cs| ==> rs[i] == cs[i].(word := Replacement(cs[i].word, results))
  {
    seq(|cs|, i requires 0 <= i < |cs| => cs[i].(word := Replacement(cs[i].word, results)))
  }

  lemma RewriteTexts(cs: seq<Chunk>, results: Results)
    requires PlainChunks(cs)
    ensures RewriteTokens(Texts(cs), results) == Reworded(cs, results)
  {
    forall i | 0 <= i < |cs|
      ensures RewriteTokens(Texts(cs), results)[i] == Reworded(cs, results)[i]
    {
      AnalysePlain(cs[i]);
    }
  }

  lemma {:induction false} TokensCons(cs: seq<Chunk>, first: Chunk, rest: seq<Chunk>)
    requires cs == [first] + rest && KeywordChunk(first) && KeywordChunks(rest)
    ensures KeywordChunks(cs) && ChunksTokens(cs) == ChunkTokens(first) + ChunksTokens(rest)
  {
    assert cs[0] == first && cs[1..] == rest;
  }

  lemma {:induction false} ChunksTokensConcat(a: seq<Chunk>, b: seq<Chunk>)
    requires KeywordChunks(a) && KeywordChunks(b)
    ensures KeywordChunks(a + b) && ChunksTokens(a + b) == ChunksTokens(a) + ChunksTokens(b)
    decreases |a|
  {
    if a == [] {
      assert a + b == b;
    } else {
      var rest := a[1..];
      ChunksTokensConcat(rest, b);
      assert a == [a[0]] + rest;
      Regroup([a[0]], rest, b);
      TokensCons(a, a[0], rest);
      TokensCons(a + b, a[0], rest + b);
      Regroup(ChunkTokens(a[0]), ChunksTokens(rest), ChunksTokens(b));
    }
  }

  lemma {:induction false} TokensSnoc(init: seq<Chunk>, c: Chunk)
    requires KeywordChunks(init) && KeywordChunk(c)
    ensures KeywordChunks(init + [c]) && ChunksTokens(init + [c]) == ChunksTokens(init) + ChunkTokens(c)
  {
    ChunksTokensConcat(init, [c]);
    assert ChunksTokens([c]) == ChunkTokens(c) + [];
  }

  lemma {:induction false} ChunksTokensInfix(a: seq<Chunk>, op: Chunk, b: seq<Chunk>)
    requires KeywordChunks(a) && KeywordChunk(op) && KeywordChunks(b)
    ensures KeywordChunks(a + [op] + b)
    ensures ChunksTokens(a + [op] + b) == ChunksTokens(a) + ChunkTokens(op) + ChunksTokens(b)
  {
    ChunksTokensConcat(a, [op]);
    ChunksTokensConcat(a + [op], b);
    assert ChunksTokens([op]) == ChunkTokens(op) + [];
  }

  lemma OpenOne(c: Chunk)
    requires KeywordChunk(c)
    ensures ChunkTokens(c.(opens := c.opens + 1)) == [LParen] + ChunkTokens(c)
  {
  }

  lemma CopiesSnoc(t: Token, n: nat)
    ensures Copies(t, n + 1) == Copies(t, n) + [t]
  {
    if n > 0 {
      CopiesSnoc(t, n - 1);
    }
  }

  lemma CloseOne(c: Chunk)
    requires KeywordChunk(c)
    ensures ChunkTokens(c.(closes := c.closes + 1)) == ChunkTokens(c) + [RParen]
  {
    CopiesSnoc(RParen, c.closes);
  }

  lemma {:induction false} OpenTokens(cs: seq<Chunk>)
    requires cs != [] && KeywordChunks(cs)
    ensures KeywordChunks(OpenFirst(cs)) && ChunksTokens(OpenFirst(cs)) == [LParen] + ChunksTokens(cs)
  {
    var first, rest := cs[0].(opens := cs[0].opens + 1), cs[1..];
    OpenOne(cs[0]);
    assert cs == [cs[0]] + rest && OpenFirst(cs) == [first] + rest;
    TokensCons(cs, cs[0], rest);
    TokensCons(OpenFirst(cs), first, rest);
    Regroup([LParen], ChunkTokens(cs[0]), ChunksTokens(rest));
  }

  lemma {:induction false} CloseTokens(cs: seq<Chunk>)
    requires cs != [] && KeywordChunks(cs)
    ensures KeywordChunks(CloseLast(cs)) && ChunksTokens(CloseLast(cs)) == ChunksTokens(cs) + [RParen]
  {
    var n := |cs| - 1;
    var closed := cs[n].(closes := cs[n].closes + 1);
    CloseOne(cs[n]);
    TokensSnoc(cs[..n], cs[n]);
    TokensSnoc(cs[..n], closed);
    assert cs == cs[..n] + [cs[n]] && CloseLast(cs) == cs[..n] + [closed];
  }

  lemma RewordedConcat(a: seq<Chunk>, op: string, b: seq<Chunk>, results: Results)
    requires IsOperator(op) && NoOperatorNames(results)
    ensures Reworded(a + [Chunk(0, op, 0)] + b, results)
         == Reworded(a, results) + [Chunk(0, op, 0)] + Reworded(b, results)
  {
  }

  lemma OperatorTokens(op: string)
    requires IsOperator(op)
    ensures Keyword(op).Some? && ChunkTokens(Chunk(0, op, 0)) == [Keyword(op).value]
  {
  }

  lemma NameTokens(n: string, results: Results)
    requires !IsOperator(n)
    ensures ChunksTokens(Reworded([Chunk(0, n, 0)], results)) == [TruthOf(n, results)]
  {
    var rep := Replacement(n, results);
    assert Reworded([Chunk(0, n, 0)], results) == [Chunk(0, rep, 0)];
    assert ChunksTokens([Chunk(0, rep, 0)]) == ChunkTokens(Chunk(0, rep, 0)) + [];
  }

  lemma InfixTokens(a: seq<Chunk>, op: string, b: seq<Chunk>, results: Results)
    requires IsOperator(op) && NoOperatorNames(results)
    ensures Keyword(op).Some?
    ensures ChunksTokens(Reworded(a + [Chunk(0, op, 0)] + b, results))
         == ChunksTokens(Reworded(a, results)) + [Keyword(op).value] + ChunksTokens(Reworded(b, results))
  {
    RewordedConcat(a, op, b, results);
    OperatorTokens(op);
    ChunksTokensInfix(Reworded(a, results), Chunk(0, op, 0), Reworded(b, results));
  }

  lemma NegationTokens(b: seq<Chunk>, results: Results)
    requires NoOperatorNames(results)
    ensures ChunksTokens(Reworded([Chunk(0, "not", 0)] + b, results)) == [KNot] + ChunksTokens(Reworded(b, results))
  {
    var first, rest := Chunk(0, "not", 0), Reworded(b, results);
    OperatorTokens("not");
    assert Reworded([first] + b, results) == [first] + rest;
    TokensCons([first] + rest, first, rest);
  }

  lemma LoneOpeningTokens(cs: seq<Chunk>, results: Results)
    ensures ChunksTokens(Reworded([LONE_OPENING] + cs, results))
         == [LParen] + Lead(true, results) + ChunksTokens(Reworded(cs, results))
  {
    var rep := Replacement("", results);
    var first, rest := Chunk(1, rep, 0), Reworded(cs, results);
    assert Reworded([LONE_OPENING] + cs, results) == [first] + rest;
    TokensCons([first] + rest, first, rest);
    OpenOne(Chunk(0, rep, 0));
    assert ChunkTokens(Chunk(0, rep, 0)) == [Keyword(rep).value];
  }

  lemma OpenedTokens(cs: seq<Chunk>, results: Results)
    requires cs != []
    ensures ChunksTokens(Reworded(OpenFirst(cs), results)) == [LParen] + ChunksTokens(Reworded(cs, results))
  {
    assert Reworded(OpenFirst(cs), results) == OpenFirst(Reworded(cs, results));
    OpenTokens(Reworded(cs, results));
  }

  lemma ClosedTokens(cs: seq<Chunk>, results: Results)
    requires cs != []
    ensures ChunksTokens(Reworded(CloseLast(cs), results)) == ChunksTokens(Reworded(cs, results)) + [RParen]
  {
    assert Reworded(CloseLast(cs), results) == CloseLast(Reworded(cs, results));
    CloseTokens(Reworded(cs, results));
  }

  lemma GroupTokens(cs: seq<Chunk>, loneOpening: bool, results: Results)
    requires cs != []
    ensures ChunksTokens(Reworded(CloseLast(WithOpening(cs, loneOpening)), results))
            == [LParen] + Lead(loneOpening, results) + ChunksTokens(Reworded(cs, results)) + [RParen]
  {
    if loneOpening {
      LoneOpeningTokens(cs, results);
      ClosedTokens([LONE_OPENING] + cs, results);
    } else {
      OpenedTokens(cs, results);
      ClosedTokens(OpenFirst(cs), results);
    }
  }

  /** Rewriting the words of a readable writing gives its tokens of the grammar. */
  lemma {:induction false} RewordedIsStream(w: Writing, results: Results)
    requires NamesAreWords(w) && Readable(w) && NoOperatorNames(results)
    ensures ChunksTokens(Reworded(Chunks(w), results)) == Stream(w, results)
  {
    match w {
      case Word(n) =>
        NameTokens(n, results);
      case Negated(x, _) =>
        RewordedIsStream(x, results);
        NegationTokens(Chunks(x), results);
      case Both(l, r) =>
        RewordedIsStream(l, results);
        RewordedIsStream(r, results);
        InfixTokens(Chunks(l), "and", Chunks(r), results);
      case Either(l, r) =>
        RewordedIsStream(l, results);
        RewordedIsStream(r, results);
        InfixTokens(Chunks(l), "or", Chunks(r), results);
      case Parens(x, loneOpening, _) =>
        RewordedIsStream(x, results);
        GroupTokens(Chunks(x), loneOpening, results);
    }
  }

  lemma {:induction false} ReadableIsUnfused(w: Writing)
    requires Readable(w)
    ensures Unfused(w)
  {
    match w {
      case Word(_) =>
      case Negated(x, _) => ReadableIsUnfused(x);
      case Both(l, r) =>
        ReadableIsUnfused(l);
        ReadableIsUnfused(r);
      case Either(l, r) =>
        ReadableIsUnfused(l);
        ReadableIsUnfused(r);
      case Parens(x, _, _) => ReadableIsUnfused(x);
    }
  }

  function OrFallback(v: Option<bool>, results: Results): bool {
    if v.Some? then v.value else Fallback(results)
  }

  /** The general path computes the outcome of the writing that the condition spells. */
  lemma {:induction false} SubstitutionMeansOutcome(condition: string, w: Writing, results: Results)
    requires Fits(w) && NamesAreWords(w) && Readable(w) && NoOperatorNames(results) && Spells(condition, w)
    ensures Substituted(condition, results) == OrFallback(Outcome(w, results), results)
  {
    ReadableIsUnfused(w);
    UnfusedIsPlaced(w);
    RewriteTexts(Chunks(w), results);
    RewrittenAlwaysLexes(condition, results);
    RewordedIsStream(w, results);
    StreamEvaluates(w, results);
  }

  // ------------------------------------------------- the paths not taken for writings

  lemma {:induction false} SplitIgnoresTrailing(s: string, c: char)
    requires IsSpace(c)
    ensures Split(s + [c]) == Split(s)
    decreases |s|
  {
    var t := s + [c];
    if s == "" {
      assert t[1..] == "";
    } else if IsSpace(s[0]) {
      SplitIgnoresTrailing(s[1..], c);
      assert t[1..] == s[1..] + [c];
    } else {
      var n := PrefixLength(IsNonSpace, s);
      PrefixLengthIs(IsNonSpace, t, n);
      assert t[..n] == s[..n] && t[n..] == s[n..] + [c];
      SplitIgnoresTrailing(s[n..], c);
    }
  }

  lemma {:induction false} SplitIgnoresLeft(s: string)
    ensures Split(StripLeft(IsSpace, s)) == Split(s)
  {
    if s != "" && IsSpace(s[0]) {
      SplitIgnoresLeft(s[1..]);
      assert StripLeft(IsSpace, s) == StripLeft(IsSpace, s[1..]);
    } else {
      assert StripLeft(IsSpace, s) == s;
    }
  }

  lemma {:induction false} SplitIgnoresRight(s: string)
    ensures Split(StripRight(IsSpace, s)) == Split(s)
  {
    if s != "" && IsSpace(s[|s| - 1]) {
      var init := s[..|s| - 1];
      SplitIgnoresRight(init);
      SplitIgnoresTrailing(init, s[|s| - 1]);
      assert init + [s[|s| - 1]] == s;
      assert StripRight(IsSpace, s) == StripRight(IsSpace, init);
    } else {
      assert StripRight(IsSpace, s) == s;
    }
  }

  lemma {:induction false} SplitIgnoresStrip(s: string)
    ensures Split(Strip(IsSpace, s)) == Split(s)
  {
    SplitIgnoresLeft(s);
    SplitIgnoresRight(StripLeft(IsSpace, s));
  }

  lemma {:induction false} QuantifierTokens(cond: string, q: string)
    requires IsWord(q) && q + " of " <= cond
    ensures |Split(cond)| >= 2 && Split(cond)[0] == q && Split(cond)[1] == "of"
  {
    var tail := cond[|q| + 4..];
    assert cond == q + (" of " + tail);
    SplitFirstWord(q, " of " + tail);
    assert (" of " + tail)[1..] == "of" + (" " + tail);
    SplitFirstWord("of", " " + tail);
  }

  /** A chunk whose text has no parentheses at its ends is that word. */
  lemma TextOfWord(c: Chunk, t: string)
    requires Text(c) == t && t != "" && !IsParen(t[0]) && !IsParen(t[|t| - 1])
    ensures c == Chunk(0, t, 0)
  {
    ShapeOfText(c);
    assert Text(Chunk(0, t, 0)) == t;
  }

  /** A first word other than a negation is followed by an operator. */
  lemma {:induction false} SecondWord(w: Writing, q: string)
    requires |Chunks(w)| > 1 && Chunks(w)[0] == Chunk(0, q, 0) && q != "" && q[0] != 'n'
    ensures Chunks(w)[1].word == "and" || Chunks(w)[1].word == "or"
  {
    match w {
      case Word(_) =>
      case Negated(_, _) =>
      case Both(l, r) =>
        if |Chunks(l)| > 1 {
          SecondWord(l, q);
        }
      case Either(l, r) =>
        if |Chunks(l)| > 1 {
          SecondWord(l, q);
        }
      case Parens(_, _, _) =>
    }
  }

  lemma {:induction false} NotQuantified(cond: string, cs: seq<Chunk>, q: string)
    requires Split(cond) == Texts(cs) && IsBareWord(q)
    requires |cs| > 1 && cs[0] == Chunk(0, q, 0) ==> cs[1].word != "of"
    ensures !(q + " of " <= cond)
  {
    if q + " of " <= cond {
      QuantifierTokens(cond, q);
      TextOfWord(cs[0], q);
      TextOfWord(cs[1], "of");
    }
  }

  /** No such word is followed by the second word of a quantified condition. */
  predicate NeverOf(cs: seq<Chunk>) {
    |cs| > 1 && cs[0].opens == 0 && cs[0].closes == 0 && cs[0].word in {"1", "any", "all"} ==> cs[1].word != "of"
  }

  lemma {:induction false} NeverQuantified(cond: string, cs: seq<Chunk>)
    requires Split(cond) == Texts(cs) && NeverOf(cs)
    ensures !AsksForAny(cond) && !AsksForAll(cond)
  {
    assert "1" + " of " == "1 of " && "any" + " of " == "any of " && "all" + " of " == "all of ";
    NotQuantified(cond, cs, "1");
    NotQuantified(cond, cs, "any");
    NotQuantified(cond, cs, "all");
  }

  lemma {:induction false} WritingsNeverOf(w: Writing)
    ensures NeverOf(Chunks(w))
  {
    var cs := Chunks(w);
    if |cs| > 1 && cs[0].word in {"1", "any", "all"} && cs[0] == Chunk(0, cs[0].word, 0) {
      SecondWord(w, cs[0].word);
    }
  }

  /** A condition that spells a writing takes the general path, unless it is itself the name
      of a selection. */
  lemma GeneralPath(condition: string, w: Writing, results: Results)
    requires Spells(condition, w) && Strip(IsSpace, condition) !in results
    ensures var cond := Strip(IsSpace, condition);
            Spells(cond, w) && EvaluateCondition(condition, results) == Substituted(cond, results)
  {
    SplitIgnoresStrip(condition);
    WritingsNeverOf(w);
    NeverQuantified(Strip(IsSpace, condition), Chunks(w));
  }
}

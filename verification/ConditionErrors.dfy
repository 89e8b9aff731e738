/** What every parse consumes, and conditions that are therefore syntax errors once their
    words are rewritten. */
module ConditionErrors {
  import opened Wrappers
  import opened ConditionText
  import opened ConditionGrammar
  import opened ConditionEvaluator
  import opened ConditionWriting

  // ------------------------------------------------------------ tokens of the grammar

  predicate EndsOperand(t: Token) {
    t == KTrue || t == KFalse || t == RParen
  }

  /** An opening parenthesis begins an operand too, but may follow one as a call. */
  predicate BeginsOperand(t: Token) {
    t == KTrue || t == KFalse || t == KNot
  }

  /** Nowhere does an operand begin right behind another. */
  predicate NoClash(ts: seq<Token>) {
    forall i :: 0 <= i < |ts| - 1 ==> !(EndsOperand(ts[i]) && BeginsOperand(ts[i + 1]))
  }

  function Weight(t: Token): int {
    if t == LParen then 1 else if t == RParen then -1 else 0
  }

  /** Opening parentheses less closing ones. */
  function Balance(ts: seq<Token>): int {
    if ts == [] then 0 else Weight(ts[0]) + Balance(ts[1..])
  }

  predicate WellMade(ts: seq<Token>) {
    ts != [] && Balance(ts) == 0 && NoClash(ts) && EndsOperand(ts[|ts| - 1])
  }

  lemma {:induction false} BalanceConcat(a: seq<Token>, b: seq<Token>)
    ensures Balance(a + b) == Balance(a) + Balance(b)
  {
    if a == [] {
      assert a + b == b;
    } else {
      BalanceConcat(a[1..], b);
      assert (a + b)[1..] == a[1..] + b;
    }
  }

  lemma {:induction false} BalanceAround(a: seq<Token>, t: Token, b: seq<Token>)
    ensures Balance(a + [t] + b) == Balance(a) + Weight(t) + Balance(b)
  {
    BalanceConcat(a + [t], b);
    BalanceConcat(a, [t]);
    assert Balance([t]) == Weight(t) + Balance([]);
  }

  lemma NoClashConcat(a: seq<Token>, b: seq<Token>)
    requires NoClash(a) && NoClash(b)
    requires a != [] && b != [] ==> !(EndsOperand(a[|a| - 1]) && BeginsOperand(b[0]))
    ensures NoClash(a + b)
  {
    forall i | 0 <= i < |a + b| - 1
      ensures !(EndsOperand((a + b)[i]) && BeginsOperand((a + b)[i + 1]))
    {
      if i < |a| - 1 {
        assert (a + b)[i] == a[i] && (a + b)[i + 1] == a[i + 1];
      } else if i >= |a| {
        assert (a + b)[i] == b[i - |a|] && (a + b)[i + 1] == b[i - |a| + 1];
      }
    }
  }

  lemma WellMadeLiteral(t: Token)
    requires t == KTrue || t == KFalse
    ensures WellMade([t])
  {
    assert Balance([t]) == Weight(t) + Balance([]);
  }

  lemma WellMadeNegation(a: seq<Token>)
    requires WellMade(a)
    ensures WellMade([KNot] + a)
  {
    NoClashConcat([KNot], a);
    assert ([KNot] + a)[1..] == a;
  }

  lemma WellMadeInfix(a: seq<Token>, op: Token, b: seq<Token>)
    requires WellMade(a) && WellMade(b) && (op == KAnd || op == KOr)
    ensures WellMade(a + [op] + b)
  {
    BalanceAround(a, op, b);
    NoClashConcat(a, [op]);
    NoClashConcat(a + [op], b);
  }

  lemma WellMadeCall(f: seq<Token>, a: seq<Token>)
    requires WellMade(a) && (f == [] || WellMade(f))
    ensures WellMade(f + ([LParen] + a + [RParen]))
  {
    BalanceAround([LParen] + a, RParen, []);
    BalanceAround([], LParen, a);
    BalanceConcat(f, [LParen] + a + [RParen]);
    assert [LParen] + a + [RParen] + [] == [LParen] + a + [RParen] && [] + [LParen] + a == [LParen] + a;
    NoClashConcat([LParen], a);
    NoClashConcat([LParen] + a, [RParen]);
    NoClashConcat(f, [LParen] + a + [RParen]);
  }

  // ------------------------------------------------------------------ what parses use

  lemma OrUses(ts: seq<Token>) returns (used: seq<Token>)
    requires ParseOr(ts).Parsed?
    ensures ts == used + ParseOr(ts).rest && WellMade(used)
    decreases |ts|, 5
  {
    used := AndUses(ts);
    var l := ParseAnd(ts);
    if StartsWith(l.rest, KOr) {
      var more := OrUses(l.rest[1..]);
      WellMadeInfix(used, KOr, more);
      used := used + [KOr] + more;
    }
  }

  lemma AndUses(ts: seq<Token>) returns (used: seq<Token>)
    requires ParseAnd(ts).Parsed?
    ensures ts == used + ParseAnd(ts).rest && WellMade(used)
    decreases |ts|, 4
  {
    used := NotUses(ts);
    var l := ParseNot(ts);
    if StartsWith(l.rest, KAnd) {
      var more := AndUses(l.rest[1..]);
      WellMadeInfix(used, KAnd, more);
      used := used + [KAnd] + more;
    }
  }

  lemma NotUses(ts: seq<Token>) returns (used: seq<Token>)
    requires ParseNot(ts).Parsed?
    ensures ts == used + ParseNot(ts).rest && WellMade(used)
    decreases |ts|, 3
  {
    if StartsWith(ts, KNot) {
      used := NotUses(ts[1..]);
      WellMadeNegation(used);
      used := [KNot] + used;
    } else {
      var atom := AtomUses(ts);
      var f := ParseAtom(ts);
      used := CallsUse(f.tree, f.rest, atom);
    }
  }

  lemma AtomUses(ts: seq<Token>) returns (used: seq<Token>)
    requires ParseAtom(ts).Parsed?
    ensures ts == used + ParseAtom(ts).rest && WellMade(used)
    decreases |ts|, 2
  {
    if StartsWith(ts, LParen) {
      var inner := GroupUses(ts);
      WellMadeCall([], inner);
      used := [LParen] + inner + [RParen];
      assert [] + used == used;
    } else {
      used := [ts[0]];
      WellMadeLiteral(ts[0]);
    }
  }

  lemma GroupUses(ts: seq<Token>) returns (inner: seq<Token>)
    requires StartsWith(ts, LParen) && ParseGroup(ts).Parsed?
    ensures ts == [LParen] + inner + [RParen] + ParseGroup(ts).rest && WellMade(inner)
    decreases |ts|, 1
  {
    inner := OrUses(ts[1..]);
  }

  /** The calls behind a primary that was itself parsed from `before`. */
  lemma CallsUse(f: Tree, ts: seq<Token>, before: seq<Token>) returns (used: seq<Token>)
    requires WellMade(before) && ParseCalls(f, ts).Parsed?
    ensures before + ts == used + ParseCalls(f, ts).rest && WellMade(used)
    decreases |ts|, 2
  {
    used := before;
    if StartsWith(ts, LParen) {
      var inner := GroupUses(ts);
      var x := ParseGroup(ts);
      var call := [LParen] + inner + [RParen];
      WellMadeCall(before, inner);
      used := CallsUse(Call(f, x.tree), x.rest, before + call);
      assert before + call + x.rest == before + (call + x.rest);
    }
  }

  /** Whatever evaluates is balanced, and no operand begins behind another. */
  lemma EvaluatedIsWellMade(ts: seq<Token>)
    ensures EvalTokens(ts).Some? ==> WellMade(ts)
  {
    var p := ParseOr(ts);
    if p.Parsed? && p.rest == [] {
      var used := OrUses(ts);
      assert used == ts;
    }
  }

  // ---------------------------------------------------------- the words of a condition

  /** The tokens the grammar sees. */
  function Seen(ts: seq<string>, results: Results): seq<Token> {
    ChunksTokens(RewriteTokens(ts, results))
  }

  /** The parentheses a word keeps when it is rewritten, opening ones less closing ones. */
  function Depth(t: string): int {
    PrefixLength(IsOpen, t) - SuffixLength(IsClose, t)
  }

  function TotalDepth(ts: seq<string>): int {
    if ts == [] then 0 else Depth(ts[0]) + TotalDepth(ts[1..])
  }

  lemma {:induction false} BalanceOfCopies(t: Token, n: nat)
    ensures Balance(Copies(t, n)) == n * Weight(t)
  {
    if n > 0 {
      BalanceOfCopies(t, n - 1);
      assert Copies(t, n)[1..] == Copies(t, n - 1);
    }
  }

  lemma BalanceOfChunk(c: Chunk)
    requires KeywordChunk(c)
    ensures Balance(ChunkTokens(c)) == c.opens - c.closes
  {
    BalanceOfCopies(LParen, c.opens);
    BalanceOfCopies(RParen, c.closes);
    BalanceAround(Copies(LParen, c.opens), Keyword(c.word).value, Copies(RParen, c.closes));
  }

  lemma {:induction false} BalanceOfSeen(ts: seq<string>, results: Results)
    ensures Balance(Seen(ts, results)) == TotalDepth(ts)
  {
    if ts != [] {
      var cs := RewriteTokens(ts, results);
      BalanceOfSeen(ts[1..], results);
      assert cs[1..] == RewriteTokens(ts[1..], results);
      BalanceOfChunk(cs[0]);
      BalanceConcat(ChunkTokens(cs[0]), ChunksTokens(cs[1..]));
    }
  }

  /** Rewritten, the word ends in a truth value or a closing parenthesis. */
  predicate EndsAsOperand(t: string) {
    SuffixLength(IsClose, t) > 0 || !IsOperator(Strip(IsParen, t))
  }

  /** Rewritten, the word begins with a truth value or a negation. */
  predicate BeginsAsOperand(t: string) {
    PrefixLength(IsOpen, t) == 0 && Strip(IsParen, t) != "and" && Strip(IsParen, t) != "or"
  }

  predicate ClashAt(ts: seq<string>, i: nat) {
    i + 1 < |ts| && EndsAsOperand(ts[i]) && BeginsAsOperand(ts[i + 1])
  }

  lemma EndOfSeen(t: string, results: Results)
    requires EndsAsOperand(t)
    ensures var ts := ChunkTokens(RewriteToken(t, results)); ts != [] && EndsOperand(ts[|ts| - 1])
  {
    var c := RewriteToken(t, results);
    if c.closes > 0 {
      CopiesSnoc(RParen, c.closes - 1);
    }
  }

  lemma BeginningOfSeen(t: string, results: Results)
    requires BeginsAsOperand(t)
    ensures var ts := ChunkTokens(RewriteToken(t, results)); ts != [] && BeginsOperand(ts[0])
  {
  }

  lemma ClashBetween(a: seq<Token>, b: seq<Token>)
    requires a != [] && b != [] && EndsOperand(a[|a| - 1]) && BeginsOperand(b[0])
    ensures !NoClash(a + b)
  {
    var i := |a| - 1;
    assert (a + b)[i] == a[i] && (a + b)[i + 1] == b[0];
  }

  /** Two chunks among others whose tokens clash. */
  lemma {:induction false} ChunksClash(a: seq<Chunk>, c: Chunk, d: Chunk, b: seq<Chunk>)
    requires KeywordChunks(a) && KeywordChunk(c) && KeywordChunk(d) && KeywordChunks(b)
    requires var ts := ChunkTokens(c); ts != [] && EndsOperand(ts[|ts| - 1])
    requires var ts := ChunkTokens(d); ts != [] && BeginsOperand(ts[0])
    ensures KeywordChunks((a + [c]) + ([d] + b)) && !NoClash(ChunksTokens((a + [c]) + ([d] + b)))
  {
    TokensSnoc(a, c);
    TokensCons([d] + b, d, b);
    ChunksTokensConcat(a + [c], [d] + b);
    ClashBetween(ChunksTokens(a) + ChunkTokens(c), ChunkTokens(d) + ChunksTokens(b));
  }

  lemma AroundTwo<T>(s: seq<T>, i: nat)
    requires i + 1 < |s|
    ensures s == (s[..i] + [s[i]]) + ([s[i + 1]] + s[i + 2..])
  {
  }

  lemma {:induction false} ChunksClashAt(cs: seq<Chunk>, i: nat)
    requires KeywordChunks(cs) && i + 1 < |cs|
    requires var ts := ChunkTokens(cs[i]); ts != [] && EndsOperand(ts[|ts| - 1])
    requires var ts := ChunkTokens(cs[i + 1]); ts != [] && BeginsOperand(ts[0])
    ensures !NoClash(ChunksTokens(cs))
  {
    AroundTwo(cs, i);
    ChunksClash(cs[..i], cs[i], cs[i + 1], cs[i + 2..]);
  }

  lemma ClashSeen(ts: seq<string>, i: nat, results: Results)
    requires ClashAt(ts, i)
    ensures !NoClash(Seen(ts, results))
  {
    EndOfSeen(ts[i], results);
    BeginningOfSeen(ts[i + 1], results);
    ChunksClashAt(RewriteTokens(ts, results), i);
  }

  /** Words that lose parentheses on the way, or put one operand behind another. */
  ghost predicate Garbled(ts: seq<string>) {
    TotalDepth(ts) != 0 || exists i: nat :: ClashAt(ts, i)
  }

  lemma GarbledIsError(ts: seq<string>, results: Results)
    requires Garbled(ts)
    ensures EvalTokens(Seen(ts, results)) == None
  {
    EvaluatedIsWellMade(Seen(ts, results));
    BalanceOfSeen(ts, results);
    if i: nat :| ClashAt(ts, i) {
      ClashSeen(ts, i, results);
    }
  }

  lemma {:induction false} ErrorFallsBack(cond: string, results: Results)
    requires EvalTokens(Seen(Split(cond), results)) == None
    ensures Substituted(cond, results) == Fallback(results)
  {
    RewrittenAlwaysLexes(cond, results);
  }

  /** Of all conditions on the general path, garbled ones ask whether all selections match. */
  lemma {:induction false} GarbledFallsBack(cond: string, results: Results)
    requires Garbled(Split(cond))
    ensures Substituted(cond, results) == Fallback(results)
  {
    GarbledIsError(Split(cond), results);
    ErrorFallsBack(cond, results);
  }

  lemma UnquantifiedStart(cond: string)
    requires cond != "" && cond[0] != '1' && cond[0] != 'a'
    ensures !AsksForAny(cond) && !AsksForAll(cond)
  {
  }

  /** A whole condition that becomes a syntax error. */
  lemma {:induction false} SyntaxErrorFallsBack(s: string, results: Results)
    requires s != "" && !IsSpace(s[0]) && !IsSpace(s[|s| - 1])
    requires s !in results && s[0] != '1' && s[0] != 'a'
    requires EvalTokens(Seen(Split(s), results)) == None
    ensures EvaluateCondition(s, results) == Fallback(results)
  {
    NothingToStrip(IsSpace, s);
    UnquantifiedStart(s);
    ErrorFallsBack(s, results);
  }
}

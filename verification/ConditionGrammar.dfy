/** The part of Python's expression language a rewritten condition can reach: the
    lexer, the grammar of `or_test`, `and_test`, `not_test`, calls and parentheses
    (Python Language Reference, sections 6.3.4, 6.11 and 6.17), and evaluation. */
module ConditionGrammar {
  import opened Wrappers
  import opened ConditionText

  datatype Token = LParen | RParen | KTrue | KFalse | KAnd | KOr | KNot

  // ------------------------------------------------------------------- lexing

  predicate IsIdent(c: char) {
    'a' <= c <= 'z' || 'A' <= c <= 'Z' || '0' <= c <= '9' || c == '_'
  }

  function Keyword(w: string): Option<Token> {
    if w == "True" then Some(KTrue)
    else if w == "False" then Some(KFalse)
    else if w == "and" then Some(KAnd)
    else if w == "or" then Some(KOr)
    else if w == "not" then Some(KNot)
    else None
  }

  function Prepend(t: Token, ts: Option<seq<Token>>): Option<seq<Token>> {
    if ts.None? then None else Some([t] + ts.value)
  }

  /** None for a text with any other character or name. */
  function Lex(s: string): Option<seq<Token>>
    decreases |s|
  {
    if s == "" then Some([])
    else if s[0] == ' ' then Lex(s[1..])
    else if s[0] == '(' then Prepend(LParen, Lex(s[1..]))
    else if s[0] == ')' then Prepend(RParen, Lex(s[1..]))
    else
      var n := PrefixLength(IsIdent, s);
      var k := Keyword(s[..n]);
      if n == 0 || k.None? then None else Prepend(k.value, Lex(s[n..]))
  }

  lemma {:induction false} LexKeyword(w: string, rest: string)
    requires Keyword(w).Some? && (rest != "" ==> !IsIdent(rest[0]))
    ensures Lex(w + rest) == Prepend(Keyword(w).value, Lex(rest))
  {
    var s := w + rest;
    assert forall i :: 0 <= i < |w| ==> IsIdent(w[i]);
    assert forall i :: 0 <= i < |w| ==> s[i] == w[i];
    PrefixLengthIs(IsIdent, s, |w|);
    assert s[..|w|] == w && s[|w|..] == rest;
  }

  function Copies(t: Token, n: nat): seq<Token> {
    if n == 0 then [] else [t] + Copies(t, n - 1)
  }

  function Concat(ts: seq<Token>, rest: Option<seq<Token>>): Option<seq<Token>> {
    if rest.None? then None else Some(ts + rest.value)
  }

  lemma {:induction false} LexOpens(n: nat, rest: string)
    ensures Lex(Repeat('(', n) + rest) == Concat(Copies(LParen, n), Lex(rest))
  {
    var s := Repeat('(', n) + rest;
    if n == 0 {
      assert s == rest;
      assert Lex(rest).Some? ==> [] + Lex(rest).value == Lex(rest).value;
    } else {
      assert s[1..] == Repeat('(', n - 1) + rest;
      LexOpens(n - 1, rest);
      assert Lex(rest).Some? ==>
        [LParen] + (Copies(LParen, n - 1) + Lex(rest).value) == Copies(LParen, n) + Lex(rest).value;
    }
  }

  lemma {:induction false} LexCloses(n: nat, rest: string)
    ensures Lex(Repeat(')', n) + rest) == Concat(Copies(RParen, n), Lex(rest))
  {
    var s := Repeat(')', n) + rest;
    if n == 0 {
      assert s == rest;
      assert Lex(rest).Some? ==> [] + Lex(rest).value == Lex(rest).value;
    } else {
      assert s[1..] == Repeat(')', n - 1) + rest;
      LexCloses(n - 1, rest);
      assert Lex(rest).Some? ==>
        [RParen] + (Copies(RParen, n - 1) + Lex(rest).value) == Copies(RParen, n) + Lex(rest).value;
    }
  }

  predicate KeywordChunk(c: Chunk) {
    Keyword(c.word).Some?
  }

  function ChunkTokens(c: Chunk): seq<Token>
    requires KeywordChunk(c)
  {
    Copies(LParen, c.opens) + [Keyword(c.word).value] + Copies(RParen, c.closes)
  }

  predicate KeywordChunks(cs: seq<Chunk>) {
    forall i :: 0 <= i < |cs| ==> KeywordChunk(cs[i])
  }

  function ChunksTokens(cs: seq<Chunk>): seq<Token>
    requires KeywordChunks(cs)
  {
    if cs == [] then [] else ChunkTokens(cs[0]) + ChunksTokens(cs[1..])
  }

  lemma ConcatPrepend(a: seq<Token>, k: Token, b: seq<Token>, rest: Option<seq<Token>>)
    ensures Concat(a, Prepend(k, Concat(b, rest))) == Concat(a + [k] + b, rest)
  {
    if rest.Some? {
      assert a + ([k] + (b + rest.value)) == a + [k] + b + rest.value;
    }
  }

  lemma {:induction false} LexChunk(c: Chunk, rest: string)
    requires KeywordChunk(c) && (rest == "" || rest[0] == ' ')
    ensures Lex(Text(c) + rest) == Concat(ChunkTokens(c), Lex(rest))
  {
    var closing := Repeat(')', c.closes) + rest;
    assert closing != "" ==> !IsIdent(closing[0]);
    LexCloses(c.closes, rest);
    LexKeyword(c.word, closing);
    LexOpens(c.opens, c.word + closing);
    assert Text(c) + rest == Repeat('(', c.opens) + (c.word + closing);
    ConcatPrepend(Copies(LParen, c.opens), Keyword(c.word).value, Copies(RParen, c.closes), Lex(rest));
  }

  lemma {:induction false} LexChunkThenBlank(c: Chunk, rest: string)
    requires KeywordChunk(c)
    ensures Lex(Text(c) + " " + rest) == Concat(ChunkTokens(c), Lex(rest))
  {
    LexChunk(c, " " + rest);
    assert (" " + rest)[1..] == rest;
    assert Text(c) + " " + rest == Text(c) + (" " + rest);
  }

  lemma LexLastChunk(c: Chunk)
    requires KeywordChunk(c)
    ensures Lex(Text(c)) == Some(ChunkTokens(c))
  {
    LexChunk(c, "");
    assert Text(c) + "" == Text(c);
    assert ChunkTokens(c) + [] == ChunkTokens(c);
  }

  lemma JoinTexts(c: Chunk, rest: seq<Chunk>)
    ensures Join(Texts([c] + rest)) == if rest == [] then Text(c) else Text(c) + " " + Join(Texts(rest))
  {
    assert Texts([c] + rest) == [Text(c)] + Texts(rest);
    if rest != [] {
      JoinCons(Text(c), Texts(rest));
    }
  }

  /** A text joined from keywords with glued parentheses is read token by token. */
  lemma {:induction false} LexChunks(cs: seq<Chunk>)
    requires KeywordChunks(cs)
    ensures Lex(Join(Texts(cs))) == Some(ChunksTokens(cs))
    decreases |cs|
  {
    if cs == [] {
      assert Texts(cs) == [];
    } else {
      var c, rest := cs[0], cs[1..];
      assert cs == [c] + rest;
      JoinTexts(c, rest);
      if rest == [] {
        LexLastChunk(c);
        assert ChunksTokens(cs) == ChunkTokens(c);
      } else {
        LexChunks(rest);
        LexChunkThenBlank(c, Join(Texts(rest)));
      }
    }
  }

  // ------------------------------------------------------------------ parsing

  datatype Tree =
    | Literal(b: bool)
    | Negation(arg: Tree)
    | Conjunction(left: Tree, right: Tree)
    | Disjunction(left: Tree, right: Tree)
    | Call(callee: Tree, arg: Tree)

  datatype Parsed = SyntaxError | Parsed(tree: Tree, rest: seq<Token>)

  predicate StartsWith(ts: seq<Token>, t: Token) {
    ts != [] && ts[0] == t
  }

  function ParseOr(ts: seq<Token>): (p: Parsed)
    ensures p.Parsed? ==> |p.rest| < |ts|
    decreases |ts|, 5
  {
    var l := ParseAnd(ts);
    if l.SyntaxError? || !StartsWith(l.rest, KOr) then l
    else
      var r := ParseOr(l.rest[1..]);
      if r.SyntaxError? then r else Parsed(Disjunction(l.tree, r.tree), r.rest)
  }

  function ParseAnd(ts: seq<Token>): (p: Parsed)
    ensures p.Parsed? ==> |p.rest| < |ts|
    decreases |ts|, 4
  {
    var l := ParseNot(ts);
    if l.SyntaxError? || !StartsWith(l.rest, KAnd) then l
    else
      var r := ParseAnd(l.rest[1..]);
      if r.SyntaxError? then r else Parsed(Conjunction(l.tree, r.tree), r.rest)
  }

  function ParseNot(ts: seq<Token>): (p: Parsed)
    ensures p.Parsed? ==> |p.rest| < |ts|
    decreases |ts|, 3
  {
    if StartsWith(ts, KNot) then
      var x := ParseNot(ts[1..]);
      if x.SyntaxError? then x else Parsed(Negation(x.tree), x.rest)
    else
      var f := ParseAtom(ts);
      if f.SyntaxError? then f else ParseCalls(f.tree, f.rest)
  }

  function ParseAtom(ts: seq<Token>): (p: Parsed)
    ensures p.Parsed? ==> |p.rest| < |ts|
    decreases |ts|, 2
  {
    if StartsWith(ts, KTrue) then Parsed(Literal(true), ts[1..])
    else if StartsWith(ts, KFalse) then Parsed(Literal(false), ts[1..])
    else if StartsWith(ts, LParen) then ParseGroup(ts)
    else SyntaxError
  }

  /** An expression between parentheses. */
  function ParseGroup(ts: seq<Token>): (p: Parsed)
    requires StartsWith(ts, LParen)
    ensures p.Parsed? ==> |p.rest| < |ts|
    decreases |ts|, 1
  {
    var x := ParseOr(ts[1..]);
    if x.Parsed? && StartsWith(x.rest, RParen) then Parsed(x.tree, x.rest[1..]) else SyntaxError
  }

  /** A primary followed by parentheses is a call of it. */
  function ParseCalls(f: Tree, ts: seq<Token>): (p: Parsed)
    ensures p.Parsed? ==> |p.rest| <= |ts|
    decreases |ts|, 2
  {
    if !StartsWith(ts, LParen) then Parsed(f, ts)
    else
      var x := ParseGroup(ts);
      if x.SyntaxError? then x else ParseCalls(Call(f, x.tree), x.rest)
  }

  // --------------------------------------------------------------- evaluation

  /** None is the TypeError of calling a Boolean, raised only when the call is reached. */
  function EvalTree(e: Tree): Option<bool> {
    match e
    case Literal(b) => Some(b)
    case Negation(x) =>
      var v := EvalTree(x);
      if v.None? then None else Some(!v.value)
    case Conjunction(l, r) =>
      var v := EvalTree(l);
      if v == Some(true) then EvalTree(r) else v
    case Disjunction(l, r) =>
      var v := EvalTree(l);
      if v == Some(false) then EvalTree(r) else v
    case Call(f, x) => None
  }

  function EvalTokens(ts: seq<Token>): Option<bool> {
    var p := ParseOr(ts);
    if p.Parsed? && p.rest == [] then EvalTree(p.tree) else None
  }

  /** `eval` of a text; None when it raises. */
  function EvalText(s: string): Option<bool> {
    var ts := Lex(s);
    if ts.None? then None else EvalTokens(ts.value)
  }
}

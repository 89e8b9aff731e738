/** The grammar as a set of sentences, and the theorem that parsing and evaluating a list of
    tokens answers exactly when it is a sentence whose evaluation reaches no call. */
module ConditionSentences {
  import opened Wrappers
  import opened ConditionText
  import opened ConditionGrammar
  import opened ConditionEvaluator
  import opened ConditionParsing

  /** What may be written: Python's rules for `or`, `and`, `not`, parentheses and calls. */
  datatype Sentence =
    | Truth(b: bool)
    | Nay(arg: Sentence)
    | Conj(first: Sentence, others: Sentence)
    | Disj(first: Sentence, others: Sentence)
    | Enclosed(arg: Sentence)
    | Applied(callee: Sentence, arg: Sentence)

  function Rank(s: Sentence): nat {
    match s
    case Disj(_, _) => 0
    case Conj(_, _) => 1
    case Nay(_) => 2
    case _ => 3
  }

  predicate Formed(s: Sentence) {
    match s
    case Truth(_) => true
    case Nay(x) => Formed(x) && Rank(x) >= 2
    case Conj(l, r) => Formed(l) && Rank(l) >= 2 && Formed(r) && Rank(r) >= 1
    case Disj(l, r) => Formed(l) && Rank(l) >= 1 && Formed(r)
    case Enclosed(x) => Formed(x)
    case Applied(f, x) => Formed(f) && Rank(f) == 3 && Formed(x)
  }

  function Yield(s: Sentence): seq<Token> {
    match s
    case Truth(b) => [if b then KTrue else KFalse]
    case Nay(x) => [KNot] + Yield(x)
    case Conj(l, r) => Yield(l) + ([KAnd] + Yield(r))
    case Disj(l, r) => Yield(l) + ([KOr] + Yield(r))
    case Enclosed(x) => [LParen] + Yield(x) + [RParen]
    case Applied(f, x) => Yield(f) + ([LParen] + Yield(x) + [RParen])
  }

  /** None when a call is reached: truth values cannot be called. */
  function Meaning(s: Sentence): Option<bool> {
    match s
    case Truth(b) => Some(b)
    case Nay(x) => Negate(Meaning(x))
    case Conj(l, r) => Conjoin(Meaning(l), Meaning(r))
    case Disj(l, r) => Disjoin(Meaning(l), Meaning(r))
    case Enclosed(x) => Meaning(x)
    case Applied(_, _) => None
  }

  // ---------------------------------------------------- what is parsed is a sentence

  /** A parse of `ts` that used up the sentence `s`. */
  predicate Used(ts: seq<Token>, p: Parsed, s: Sentence) {
    p.Parsed? && Formed(s) && ts == Yield(s) + p.rest && EvalTree(p.tree) == Meaning(s)
  }

  lemma OrSentence(ts: seq<Token>) returns (s: Sentence)
    requires ParseOr(ts).Parsed?
    ensures Used(ts, ParseOr(ts), s)
    decreases |ts|, 5
  {
    s := AndSentence(ts);
    var l := ParseAnd(ts);
    if StartsWith(l.rest, KOr) {
      var r := OrSentence(l.rest[1..]);
      InfixYield(ts, Yield(s), l.rest, Yield(r), ParseOr(ts).rest);
      s := Disj(s, r);
    }
  }

  lemma InfixYield(ts: seq<Token>, l: seq<Token>, mid: seq<Token>, r: seq<Token>, rest: seq<Token>)
    requires mid != [] && ts == l + mid && mid[1..] == r + rest
    ensures ts == (l + ([mid[0]] + r)) + rest
  {
    assert mid == [mid[0]] + (r + rest);
  }

  lemma AndSentence(ts: seq<Token>) returns (s: Sentence)
    requires ParseAnd(ts).Parsed?
    ensures Used(ts, ParseAnd(ts), s) && Rank(s) >= 1
    decreases |ts|, 4
  {
    s := NotSentence(ts);
    var l := ParseNot(ts);
    if StartsWith(l.rest, KAnd) {
      var r := AndSentence(l.rest[1..]);
      InfixYield(ts, Yield(s), l.rest, Yield(r), ParseAnd(ts).rest);
      s := Conj(s, r);
    }
  }

  lemma NotSentence(ts: seq<Token>) returns (s: Sentence)
    requires ParseNot(ts).Parsed?
    ensures Used(ts, ParseNot(ts), s) && Rank(s) >= 2
    decreases |ts|, 3
  {
    if StartsWith(ts, KNot) {
      var x := NotSentence(ts[1..]);
      s := Nay(x);
      assert ts == [KNot] + ts[1..];
    } else {
      var f := AtomSentence(ts);
      s := CallsSentence(ParseAtom(ts).tree, f, ParseAtom(ts).rest);
    }
  }

  lemma AtomSentence(ts: seq<Token>) returns (s: Sentence)
    requires ParseAtom(ts).Parsed?
    ensures Used(ts, ParseAtom(ts), s) && Rank(s) == 3
    decreases |ts|, 2
  {
    if StartsWith(ts, LParen) {
      var x := GroupSentence(ts);
      s := Enclosed(x);
    } else {
      s := Truth(StartsWith(ts, KTrue));
      assert ts == [ts[0]] + ts[1..];
    }
  }

  lemma GroupSentence(ts: seq<Token>) returns (x: Sentence)
    requires StartsWith(ts, LParen) && ParseGroup(ts).Parsed?
    ensures Formed(x) && EvalTree(ParseGroup(ts).tree) == Meaning(x)
    ensures ts == ([LParen] + Yield(x) + [RParen]) + ParseGroup(ts).rest
    decreases |ts|, 1
  {
    x := OrSentence(ts[1..]);
    var inner := ParseOr(ts[1..]).rest;
    assert ts == [LParen] + ts[1..] && inner == [RParen] + inner[1..];
  }

  /** A group behind a primary makes a call of it, and the parser goes on behind that. */
  lemma {:induction false} CallAt(t: Tree, ts: seq<Token>, g: Parsed)
    requires StartsWith(ts, LParen) && g == ParseGroup(ts)
    ensures ParseCalls(t, ts) == if g.SyntaxError? then g else ParseCalls(Call(t, g.tree), g.rest)
  {
  }

  lemma {:induction false} AppliedYield(f: Sentence, x: Sentence, ts: seq<Token>, rest: seq<Token>)
    requires ts == ([LParen] + Yield(x) + [RParen]) + rest
    ensures Yield(f) + ts == Yield(Applied(f, x)) + rest
  {
  }

  lemma CallsSentence(t: Tree, f: Sentence, ts: seq<Token>) returns (s: Sentence)
    requires ParseCalls(t, ts).Parsed? && Formed(f) && Rank(f) == 3 && EvalTree(t) == Meaning(f)
    ensures Used(Yield(f) + ts, ParseCalls(t, ts), s) && Rank(s) == 3
    decreases |ts|, 2
  {
    s := f;
    if StartsWith(ts, LParen) {
      var g := ParseGroup(ts);
      var x := GroupSentence(ts);
      CallAt(t, ts, g);
      AppliedYield(f, x, ts, g.rest);
      s := CallsSentence(Call(t, g.tree), Applied(f, x), g.rest);
    }
  }

  // ----------------------------------------------------- every sentence is parsed

  /** Behind a primary the parser looks for calls. */
  lemma PrimaryAt(s: Sentence, ts: seq<Token>) returns (t: Tree)
    requires Formed(s) && Rank(s) == 3
    ensures ParseNot(Yield(s) + ts) == ParseCalls(t, ts) && EvalTree(t) == Meaning(s)
    decreases s, 1
  {
    match s {
      case Truth(b) =>
        t := Literal(b);
        assert (Yield(s) + ts)[1..] == ts;
      case Enclosed(x) =>
        t := EnclosedAt(x, ts);
      case Applied(f, x) =>
        var group := Yield(Enclosed(x)) + ts;
        var tf := PrimaryAt(f, group);
        var tx := EnclosedAt(x, ts);
        t := Call(tf, tx);
        CallAt(tf, group, ParseGroup(group));
        AppliedYield(f, x, group, ts);
    }
  }

  lemma EnclosedAt(x: Sentence, ts: seq<Token>) returns (t: Tree)
    requires Formed(x)
    ensures var group := Yield(Enclosed(x)) + ts;
            StartsWith(group, LParen) && ParseGroup(group) == Parsed(t, ts) && EvalTree(t) == Meaning(x)
    decreases x, 5
  {
    var group, close := Yield(Enclosed(x)) + ts, [RParen] + ts;
    assert group[1..] == Yield(x) + close && close[1..] == ts;
    OrAt(x, close);
    t := ParseOr(group[1..]).tree;
  }

  lemma {:induction false} NotAt(s: Sentence, rest: seq<Token>)
    requires Formed(s) && Rank(s) >= 2 && !StartsWith(rest, LParen)
    ensures ParsedAs(ParseNot(Yield(s) + rest), Meaning(s), rest)
    decreases s, 2
  {
    if s.Nay? {
      NotAt(s.arg, rest);
      assert (Yield(s) + rest)[1..] == Yield(s.arg) + rest;
    } else {
      var t := PrimaryAt(s, rest);
    }
  }

  /** An operator goes on with what is behind it. */
  lemma {:induction false} ConjAt(ts: seq<Token>, v: Option<bool>, others: seq<Token>, u: Option<bool>,
                                 rest: seq<Token>)
    requires ParsedAs(ParseNot(ts), v, [KAnd] + others) && ParsedAs(ParseAnd(others), u, rest)
    ensures ParsedAs(ParseAnd(ts), Conjoin(v, u), rest)
  {
    assert ([KAnd] + others)[1..] == others;
  }

  lemma {:induction false} DisjAt(ts: seq<Token>, v: Option<bool>, others: seq<Token>, u: Option<bool>,
                                 rest: seq<Token>)
    requires ParsedAs(ParseAnd(ts), v, [KOr] + others) && ParsedAs(ParseOr(others), u, rest)
    ensures ParsedAs(ParseOr(ts), Disjoin(v, u), rest)
  {
    assert ([KOr] + others)[1..] == others;
  }

  lemma {:induction false} AndAt(s: Sentence, rest: seq<Token>)
    requires Formed(s) && Rank(s) >= 1 && !StartsWith(rest, LParen) && !StartsWith(rest, KAnd)
    ensures ParsedAs(ParseAnd(Yield(s) + rest), Meaning(s), rest)
    decreases s, 3
  {
    if s.Conj? {
      var mid := [KAnd] + (Yield(s.others) + rest);
      NotAt(s.first, mid);
      AndAt(s.others, rest);
      assert Yield(s) + rest == Yield(s.first) + mid;
      ConjAt(Yield(s) + rest, Meaning(s.first), Yield(s.others) + rest, Meaning(s.others), rest);
    } else {
      NotAt(s, rest);
    }
  }

  lemma {:induction false} OrAt(s: Sentence, rest: seq<Token>)
    requires Formed(s) && !StartsWith(rest, LParen) && !StartsWith(rest, KAnd) && !StartsWith(rest, KOr)
    ensures ParsedAs(ParseOr(Yield(s) + rest), Meaning(s), rest)
    decreases s, 4
  {
    if s.Disj? {
      var mid := [KOr] + (Yield(s.others) + rest);
      AndAt(s.first, mid);
      OrAt(s.others, rest);
      assert Yield(s) + rest == Yield(s.first) + mid;
      DisjAt(Yield(s) + rest, Meaning(s.first), Yield(s.others) + rest, Meaning(s.others), rest);
    } else {
      AndAt(s, rest);
    }
  }

  // ------------------------------------------------------------------ the theorem

  ghost predicate SaysSo(ts: seq<Token>, b: bool) {
    exists s :: Formed(s) && Yield(s) == ts && Meaning(s) == Some(b)
  }

  /** Tokens evaluate to a truth value exactly when they are a sentence that means it. */
  lemma EvaluatesIff(ts: seq<Token>, b: bool)
    ensures EvalTokens(ts) == Some(b) <==> SaysSo(ts, b)
  {
    if EvalTokens(ts) == Some(b) {
      var s := OrSentence(ts);
      assert Yield(s) + [] == Yield(s);
    }
    if s :| Formed(s) && Yield(s) == ts && Meaning(s) == Some(b) {
      OrAt(s, []);
      assert Yield(s) + [] == Yield(s);
    }
  }

  /** For every condition text and all outcomes of the selections: what the general path
      answers is what the rewritten words say, and when they say nothing, because they are no
      sentence or a call is reached, it is whether there are selections and all match. */
  lemma {:induction false} GeneralPathIff(cond: string, results: Results, b: bool)
    ensures var ts := ChunksTokens(RewriteTokens(Split(cond), results));
            Substituted(cond, results) == b <==>
              SaysSo(ts, b) || (!SaysSo(ts, true) && !SaysSo(ts, false) && Fallback(results) == b)
  {
    var ts := ChunksTokens(RewriteTokens(Split(cond), results));
    RewrittenAlwaysLexes(cond, results);
    EvaluatesIff(ts, true);
    EvaluatesIff(ts, false);
  }
}

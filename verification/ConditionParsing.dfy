/** Conditions as they may be written, with parentheses glued to their neighbours or standing
    alone and negations spaced or fused, and how the grammar reads their tokens. */
module ConditionParsing {
  import opened Wrappers
  import opened ConditionGrammar
  import opened ConditionEvaluator

  /** All parentheses are written down; each may stand alone instead of being glued to what
      it encloses, and a negation may be fused with the parenthesis behind it. */
  datatype Writing =
    | Word(name: string)
    | Negated(arg: Writing, fused: bool)
    | Both(left: Writing, right: Writing)
    | Either(left: Writing, right: Writing)
    | Parens(arg: Writing, loneOpening: bool, loneClosing: bool)

  function Level(w: Writing): nat {
    match w
    case Either(_, _) => 0
    case Both(_, _) => 1
    case _ => 2
  }

  /** Every operand is parenthesised that needs to be; only parentheses fuse with a negation. */
  predicate Fits(w: Writing) {
    match w
    case Word(_) => true
    case Negated(x, fused) => Fits(x) && Level(x) == 2 && (fused ==> x.Parens?)
    case Both(l, r) => Fits(l) && Level(l) >= 1 && Fits(r) && Level(r) == 2
    case Either(l, r) => Fits(l) && Fits(r) && Level(r) >= 1
    case Parens(x, _, _) => Fits(x)
  }

  predicate BeginsWithParens(w: Writing) {
    match w
    case Word(_) => false
    case Negated(_, _) => false
    case Both(l, _) => BeginsWithParens(l)
    case Either(l, _) => BeginsWithParens(l)
    case Parens(_, _, _) => true
  }

  /** No negation is fused and no parenthesis stands alone, except that an opening one may do
      so before another. */
  predicate Readable(w: Writing) {
    match w
    case Word(_) => true
    case Negated(x, fused) => !fused && Readable(x)
    case Both(l, r) => Readable(l) && Readable(r)
    case Either(l, r) => Readable(l) && Readable(r)
    case Parens(x, loneOpening, loneClosing) =>
      !loneClosing && (loneOpening ==> BeginsWithParens(x)) && Readable(x)
  }

  // ---------------------------------------------------------------- what is evaluated

  function Negate(v: Option<bool>): Option<bool> {
    if v.None? then None else Some(!v.value)
  }

  function Conjoin(v: Option<bool>, u: Option<bool>): Option<bool> {
    if v == Some(true) then u else v
  }

  function Disjoin(v: Option<bool>, u: Option<bool>): Option<bool> {
    if v == Some(false) then u else v
  }

  /** A lone opening parenthesis turns into a truth value that the parenthesis behind it
      calls, which raises when the call is reached. */
  function Outcome(w: Writing, results: Results): Option<bool> {
    match w
    case Word(n) => Some(n in results && results[n])
    case Negated(x, _) => Negate(Outcome(x, results))
    case Both(l, r) => Conjoin(Outcome(l, results), Outcome(r, results))
    case Either(l, r) => Disjoin(Outcome(l, results), Outcome(r, results))
    case Parens(x, loneOpening, _) => if loneOpening then None else Outcome(x, results)
  }

  function TruthOf(n: string, results: Results): Token {
    if n in results && results[n] then KTrue else KFalse
  }

  /** What stands between an opening parenthesis and its contents. */
  function Lead(loneOpening: bool, results: Results): seq<Token> {
    if loneOpening then [TruthOf("", results)] else []
  }

  /** The tokens of the grammar for a readable writing. */
  function Stream(w: Writing, results: Results): (ts: seq<Token>)
    ensures ts != []
  {
    match w
    case Word(n) => [TruthOf(n, results)]
    case Negated(x, _) => [KNot] + Stream(x, results)
    case Both(l, r) => Stream(l, results) + [KAnd] + Stream(r, results)
    case Either(l, r) => Stream(l, results) + [KOr] + Stream(r, results)
    case Parens(x, loneOpening, _) => [LParen] + Lead(loneOpening, results) + Stream(x, results) + [RParen]
  }

  // ------------------------------------------------------------------- parsing

  /** The parse stops before `rest` with a tree of the given outcome. */
  predicate ParsedAs(p: Parsed, v: Option<bool>, rest: seq<Token>) {
    p.Parsed? && p.rest == rest && EvalTree(p.tree) == v
  }

  /** A truth value may stand before a writing that begins with parentheses. */
  predicate Leads(lead: seq<Token>, w: Writing) {
    lead == [] || (BeginsWithParens(w) && (lead == [KTrue] || lead == [KFalse]))
  }

  function Led(lead: seq<Token>, w: Writing, results: Results): Option<bool> {
    if lead == [] then Outcome(w, results) else None
  }

  /** The tokens of a writing behind such a value. */
  function Front(lead: seq<Token>, w: Writing, results: Results): seq<Token> {
    lead + Stream(w, results)
  }

  lemma {:induction false} FrontAlone(w: Writing, results: Results)
    ensures Front([], w, results) == Stream(w, results)
  {
  }

  lemma {:induction false} FrontInfix(lead: seq<Token>, w: Writing, results: Results, rest: seq<Token>)
    requires w.Both? || w.Either?
    ensures var op := if w.Both? then KAnd else KOr;
            Front(lead, w, results) + rest
            == Front(lead, w.left, results) + ([op] + (Stream(w.right, results) + rest))
  {
    var op := if w.Both? then KAnd else KOr;
    var l, r := Stream(w.left, results), Stream(w.right, results);
    assert Stream(w, results) == l + [op] + r;
    assert lead + (l + [op] + r) + rest == (lead + l) + ([op] + (r + rest));
  }

  lemma {:induction false} LedCall(lit: Token, group: seq<Token>, v: Option<bool>, rest: seq<Token>)
    requires lit == KTrue || lit == KFalse
    requires StartsWith(group, LParen) && ParsedAs(ParseGroup(group), v, rest) && !StartsWith(rest, LParen)
    ensures ParsedAs(ParseNot([lit] + group), None, rest)
  {
    var ts, x := [lit] + group, ParseGroup(group);
    var f := Literal(lit == KTrue);
    assert ts[1..] == group && ParseAtom(ts) == Parsed(f, group);
    assert ParseCalls(Call(f, x.tree), rest) == Parsed(Call(f, x.tree), rest);
    assert ParseCalls(f, group) == Parsed(Call(f, x.tree), rest);
  }

  lemma {:induction false} LiteralAt(t: Token, rest: seq<Token>)
    requires (t == KTrue || t == KFalse) && !StartsWith(rest, LParen)
    ensures ParsedAs(ParseNot([t] + rest), Some(t == KTrue), rest)
  {
    assert ([t] + rest)[1..] == rest;
  }

  lemma {:induction false} NegationAt(x: seq<Token>, v: Option<bool>, rest: seq<Token>)
    requires ParsedAs(ParseNot(x + rest), v, rest)
    ensures ParsedAs(ParseNot([KNot] + x + rest), Negate(v), rest)
  {
    assert ([KNot] + x + rest)[1..] == x + rest;
  }

  lemma {:induction false} GroupAt(lead: seq<Token>, group: seq<Token>, v: Option<bool>, rest: seq<Token>)
    requires lead == [] || lead == [KTrue] || lead == [KFalse]
    requires StartsWith(group, LParen) && ParsedAs(ParseGroup(group), v, rest) && !StartsWith(rest, LParen)
    ensures ParsedAs(ParseNot(lead + group), if lead == [] then v else None, rest)
  {
    if lead == [] {
      assert lead + group == group;
    } else {
      LedCall(lead[0], group, v, rest);
    }
  }

  lemma {:induction false} AtNot(lead: seq<Token>, w: Writing, results: Results, rest: seq<Token>)
    requires Fits(w) && Readable(w) && Level(w) == 2 && Leads(lead, w) && !StartsWith(rest, LParen)
    ensures ParsedAs(ParseNot(Front(lead, w, results) + rest), Led(lead, w, results), rest)
    decreases w, 1
  {
    match w {
      case Word(n) =>
        FrontAlone(w, results);
        LiteralAt(TruthOf(n, results), rest);
      case Negated(x, _) =>
        FrontAlone(w, results);
        AtNot([], x, results, rest);
        FrontAlone(x, results);
        NegationAt(Stream(x, results), Outcome(x, results), rest);
      case Parens(_, _, _) =>
        var group := Stream(w, results) + rest;
        InParens(w, results, rest);
        GroupAt(lead, group, Outcome(w, results), rest);
        assert Front(lead, w, results) + rest == lead + group;
    }
  }

  lemma {:induction false} InParens(w: Writing, results: Results, rest: seq<Token>)
    requires Fits(w) && Readable(w) && w.Parens?
    ensures StartsWith(Stream(w, results) + rest, LParen)
    ensures ParsedAs(ParseGroup(Stream(w, results) + rest), Outcome(w, results), rest)
    decreases w, 0
  {
    var ts, lead := Stream(w, results) + rest, Lead(w.loneOpening, results);
    AtOr(lead, w.arg, results, [RParen] + rest);
    assert ts[1..] == Front(lead, w.arg, results) + ([RParen] + rest);
    assert ([RParen] + rest)[1..] == rest;
  }

  /** An operand before `and`: its outcome is conjoined with what follows. */
  lemma {:induction false} BeforeAnd(lead: seq<Token>, w: Writing, results: Results,
                                     s: seq<Token>, v: Option<bool>, rest: seq<Token>)
    requires Fits(w) && Readable(w) && Level(w) >= 1 && Leads(lead, w) && ParsedAs(ParseAnd(s), v, rest)
    ensures ParsedAs(ParseAnd(Front(lead, w, results) + ([KAnd] + s)), Conjoin(Led(lead, w, results), v), rest)
    decreases w, 2
  {
    var mid := [KAnd] + s;
    assert mid[1..] == s;
    if w.Both? {
      AtNot([], w.right, results, mid);
      FrontAlone(w.right, results);
      BeforeAnd(lead, w.left, results, Stream(w.right, results) + mid, Conjoin(Outcome(w.right, results), v), rest);
      FrontInfix(lead, w, results, mid);
    } else {
      AtNot(lead, w, results, mid);
    }
  }

  lemma {:induction false} AtAnd(lead: seq<Token>, w: Writing, results: Results, rest: seq<Token>)
    requires Fits(w) && Readable(w) && Level(w) >= 1 && Leads(lead, w)
    requires !StartsWith(rest, LParen) && !StartsWith(rest, KAnd)
    ensures ParsedAs(ParseAnd(Front(lead, w, results) + rest), Led(lead, w, results), rest)
    decreases w, 2
  {
    if w.Both? {
      AtNot([], w.right, results, rest);
      FrontAlone(w.right, results);
      BeforeAnd(lead, w.left, results, Stream(w.right, results) + rest, Outcome(w.right, results), rest);
      FrontInfix(lead, w, results, rest);
    } else {
      AtNot(lead, w, results, rest);
    }
  }

  /** An operand before `or`: its outcome is disjoined with what follows. */
  lemma {:induction false} BeforeOr(lead: seq<Token>, w: Writing, results: Results,
                                    s: seq<Token>, v: Option<bool>, rest: seq<Token>)
    requires Fits(w) && Readable(w) && Leads(lead, w) && ParsedAs(ParseOr(s), v, rest)
    ensures ParsedAs(ParseOr(Front(lead, w, results) + ([KOr] + s)), Disjoin(Led(lead, w, results), v), rest)
    decreases w, 3
  {
    var mid := [KOr] + s;
    assert mid[1..] == s;
    if w.Either? {
      AtAnd([], w.right, results, mid);
      FrontAlone(w.right, results);
      BeforeOr(lead, w.left, results, Stream(w.right, results) + mid, Disjoin(Outcome(w.right, results), v), rest);
      FrontInfix(lead, w, results, mid);
    } else {
      AtAnd(lead, w, results, mid);
    }
  }

  lemma {:induction false} AtOr(lead: seq<Token>, w: Writing, results: Results, rest: seq<Token>)
    requires Fits(w) && Readable(w) && Leads(lead, w)
    requires !StartsWith(rest, LParen) && !StartsWith(rest, KAnd) && !StartsWith(rest, KOr)
    ensures ParsedAs(ParseOr(Front(lead, w, results) + rest), Led(lead, w, results), rest)
    decreases w, 3
  {
    if w.Either? {
      AtAnd([], w.right, results, rest);
      FrontAlone(w.right, results);
      BeforeOr(lead, w.left, results, Stream(w.right, results) + rest, Outcome(w.right, results), rest);
      FrontInfix(lead, w, results, rest);
    } else {
      AtAnd(lead, w, results, rest);
    }
  }

  /** Parsing and evaluating the tokens of a readable writing gives its outcome. */
  lemma {:induction false} StreamEvaluates(w: Writing, results: Results)
    requires Fits(w) && Readable(w)
    ensures EvalTokens(Stream(w, results)) == Outcome(w, results)
  {
    AtOr([], w, results, []);
    FrontAlone(w, results);
    assert Stream(w, results) + [] == Stream(w, results);
  }
}

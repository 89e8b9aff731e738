/** Which selection names spoil the meaning of conditions: exactly those that are
    spelled like an operator. */
module ConditionNames {
  import opened Wrappers
  import opened ConditionText
  import opened ConditionGrammar
  import opened ConditionEvaluator
  import opened ConditionParsing
  import opened ConditionWriting
  import opened ConditionErrors
  import opened ConditionMeaning

  /** Selections of these names, whatever their outcomes, give every expression its value,
      however it is spaced. */
  ghost predicate WritingsMeanTheirValue(names: set<string>) {
    forall results: Results, condition: string, e: Condition ::
      results.Keys == names && WellNamed(e) && Writes(condition, e) ==>
        EvaluateCondition(condition, results) == Value(e, results)
  }

  /** `name` is found when looked up as a whole condition, and is the text of an expression
      other than a name. */
  predicate ReadsAs(name: string, e: Condition) {
    Strip(IsSpace, name) == name && WellNamed(e) && !e.Name? && Writes(name, e)
  }

  /** No name is an operator or the text of a compound expression. */
  ghost predicate NamesStandApart(names: set<string>) {
    && "and" !in names && "or" !in names && "not" !in names
    && forall name: string, e: Condition :: name in names ==> !ReadsAs(name, e)
  }

  /** A name longer than all given ones. */
  lemma LongerThanAll(names: set<string>) returns (n: nat)
    ensures forall name :: name in names ==> |name| < n
  {
    if names == {} {
      n := 0;
    } else {
      var name :| name in names;
      var m := LongerThanAll(names - {name});
      n := if |name| < m then m else |name| + 1;
    }
  }

  lemma FreshName(results: Results) returns (x: string)
    ensures Fresh(x, results)
  {
    var n := LongerThanAll(results.Keys);
    x := Repeat('x', n + 1);
    assert x[0] == 'x' && "and"[0] == 'a' && "or"[0] == 'o' && "not"[0] == 'n';
  }

  // -------------------------------------------------- names spelled like operators

  function Plain(ws: seq<string>): (cs: seq<Chunk>)
    ensures |cs| == |ws| && forall i :: 0 <= i < |cs| ==> cs[i] == Chunk(0, ws[i], 0)
  {
    seq(|ws|, i requires 0 <= i < |ws| => Chunk(0, ws[i], 0))
  }

  lemma NameChunks(x: string, level: nat)
    ensures ChunksOf(Name(x), level) == Plain([x])
  {
    assert WritingOf(Name(x), level) == Word(x);
  }

  lemma NotChunks(e: Condition, ws: seq<string>, level: nat)
    requires ChunksOf(e, 2) == Plain(ws)
    ensures ChunksOf(Not(e), level) == Plain(["not"] + ws)
  {
    assert WritingOf(Not(e), level) == Negated(WritingOf(e, 2), false);
  }

  function Twice(op: string, operand: Condition): Condition {
    if op == "and" then And(operand, operand) else Or(operand, operand)
  }

  lemma TwiceChunks(op: string, operand: Condition, ws: seq<string>)
    requires op == "and" || op == "or"
    requires forall level: nat :: ChunksOf(operand, level) == Plain(ws)
    ensures ChunksOf(Twice(op, operand), 0) == Plain(ws + [op] + ws)
  {
    var o := operand;
    assert WritingOf(And(o, o), 0) == Both(WritingOf(o, 1), WritingOf(o, 2));
    assert WritingOf(Or(o, o), 0) == Either(WritingOf(o, 0), WritingOf(o, 1));
    assert ChunksOf(o, 0) == ChunksOf(o, 1) == ChunksOf(o, 2) == Plain(ws);
    assert Plain(ws) + [Chunk(0, op, 0)] + Plain(ws) == Plain(ws + [op] + ws);
  }

  lemma {:induction false} ChunksArePlain(e: Condition)
    requires WellNamed(e)
    ensures PlainChunks(ChunksOf(e, 0))
  {
    WritingFits(e, 0);
    WritingMeansValue(e, 0, map[]);
    ReadableIsUnfused(WritingOf(e, 0));
    UnfusedIsPlaced(WritingOf(e, 0));
  }

  /** The text of an expression without parentheses is the join of its words. */
  lemma {:induction false} PlainPrint(e: Condition, ws: seq<string>)
    requires WellNamed(e) && ChunksOf(e, 0) == Plain(ws)
    ensures AllWords(ws) && Print(e, 0) == Join(ws) && Split(Join(ws)) == ws
    ensures forall i :: 0 <= i < |ws| ==> IsBareWord(ws[i])
  {
    ChunksArePlain(e);
    forall i | 0 <= i < |ws|
      ensures Texts(Plain(ws))[i] == ws[i] && IsBareWord(ws[i])
    {
      assert IsPlainChunk(Plain(ws)[i]);
    }
    assert Texts(Plain(ws)) == ws;
    PrintSpells(e, 0);
    SpellJoins(WritingOf(e, 0));
    SplitJoin(ws);
  }

  lemma {:induction false} JoinedIsLonger(ws: seq<string>, i: nat)
    requires i < |ws|
    ensures |Join(ws)| >= |ws[i]|
  {
    if i > 0 {
      JoinedIsLonger(ws[1..], i - 1);
    }
  }

  predicate Fresh(x: string, results: Results) {
    IsSelectionName(x) && x[0] == 'x' && forall name :: name in results ==> |name| < |x|
  }

  /** The expression's text is misread as asking for all selections. */
  predicate Misread(e: Condition, results: Results) {
    WellNamed(e) && EvaluateCondition(Print(e, 0), results) == Fallback(results)
  }

  lemma BareClash(ws: seq<string>, i: nat, results: Results)
    requires i + 1 < |ws| && IsBareWord(ws[i]) && IsBareWord(ws[i + 1])
    requires EndsOperand(Keyword(Replacement(ws[i], results)).value)
    requires BeginsOperand(Keyword(Replacement(ws[i + 1], results)).value)
    ensures EvalTokens(Seen(ws, results)) == None
  {
    var c, d := Chunk(0, ws[i], 0), Chunk(0, ws[i + 1], 0);
    AnalyseText(c);
    AnalyseText(d);
    assert Text(c) == ws[i] && Text(d) == ws[i + 1];
    WordTokens(Replacement(ws[i], results));
    WordTokens(Replacement(ws[i + 1], results));
    ChunksClashAt(RewriteTokens(ws, results), i);
    EvaluatedIsWellMade(Seen(ws, results));
  }

  lemma WordTokens(rep: string)
    requires Keyword(rep).Some?
    ensures ChunkTokens(Chunk(0, rep, 0)) == [Keyword(rep).value]
  {
  }

  lemma {:induction false} FreshText(ws: seq<string>, x: string, results: Results)
    requires AllWords(ws) && Fresh(x, results) && x in ws && (ws[0] == x || ws[0] == "not")
    ensures Join(ws) !in results
    ensures var s := Join(ws);
            s != "" && !IsSpace(s[0]) && !IsSpace(s[|s| - 1]) && s[0] != '1' && s[0] != 'a'
  {
    var k :| 0 <= k < |ws| && ws[k] == x;
    JoinedIsLonger(ws, k);
    JoinEnds(ws);
    assert IsWord(ws[|ws| - 1]) && IsWord(ws[0]);
  }

  /** A selection named like an operator puts a truth value beside another operand. */
  lemma {:induction false} ClashMisread(e: Condition, ws: seq<string>, i: nat, x: string, results: Results)
    requires WellNamed(e) && ChunksOf(e, 0) == Plain(ws) && Fresh(x, results) && x in ws
    requires ws[0] == x || ws[0] == "not"
    requires i + 1 < |ws| && EndsOperand(Keyword(Replacement(ws[i], results)).value)
    requires BeginsOperand(Keyword(Replacement(ws[i + 1], results)).value)
    ensures Misread(e, results)
  {
    PlainPrint(e, ws);
    FreshText(ws, x, results);
    BareClash(ws, i, results);
    SyntaxErrorFallsBack(Join(ws), results);
  }

  /** With a selection called `not`, negations of a fresh name are misread. */
  lemma NegationMisread(x: string, results: Results)
    requires "not" in results && Fresh(x, results)
    ensures Misread(Not(Name(x)), results)
  {
    var ws := ["not"] + [x];
    NameChunks(x, 2);
    NotChunks(Name(x), [x], 0);
    assert ws[1] == x;
    ClashMisread(Not(Name(x)), ws, 0, x, results);
  }

  lemma DoubleNegationMisread(x: string, results: Results)
    requires "not" in results && Fresh(x, results)
    ensures Misread(Not(Not(Name(x))), results)
  {
    var ws := ["not"] + (["not"] + [x]);
    NameChunks(x, 2);
    NotChunks(Name(x), [x], 2);
    NotChunks(Not(Name(x)), ["not"] + [x], 0);
    assert ws[2] == x;
    ClashMisread(Not(Not(Name(x))), ws, 0, x, results);
  }

  /** With a selection called `and` or `or`, a fresh name joined with itself is misread,
      and so is its negation. */
  lemma JoinedNameMisread(op: string, x: string, results: Results)
    requires op in results && (op == "and" || op == "or") && Fresh(x, results)
    ensures Misread(Twice(op, Name(x)), results)
  {
    var ws := [x] + [op] + [x];
    forall level: nat
      ensures ChunksOf(Name(x), level) == Plain([x])
    {
      NameChunks(x, level);
    }
    TwiceChunks(op, Name(x), [x]);
    assert ws[2] == x;
    ClashMisread(Twice(op, Name(x)), ws, 0, x, results);
  }

  lemma JoinedNegationMisread(op: string, x: string, results: Results)
    requires op in results && (op == "and" || op == "or") && "not" !in results && Fresh(x, results)
    ensures Misread(Twice(op, Not(Name(x))), results)
  {
    var negated := ["not"] + [x];
    var ws := negated + [op] + negated;
    NameChunks(x, 2);
    forall level: nat
      ensures ChunksOf(Not(Name(x)), level) == Plain(negated)
    {
      NotChunks(Name(x), [x], level);
    }
    TwiceChunks(op, Not(Name(x)), negated);
    assert ws[1] == x && ws[2] == op;
    ClashMisread(Twice(op, Not(Name(x))), ws, 1, x, results);
  }

  // ------------------------------------------------- names that are expressions

  lemma {:induction false} SplitOfSpaces(s: string)
    requires Split(s) == []
    ensures s != "" ==> IsSpace(s[0]) && IsSpace(s[|s| - 1])
  {
    if s != "" {
      SplitOfSpaces(s[1..]);
    }
  }

  /** A stripped text of one word is that word. */
  lemma {:induction false} OneWord(s: string, w: string)
    requires Strip(IsSpace, s) == s && Split(s) == [w]
    ensures s == w
  {
    StrippedEnds(s);
    var n := PrefixLength(IsNonSpace, s);
    assert Split(s) == [s[..n]] + Split(s[n..]);
    assert Split(s)[1..] == [] && Split(s[n..]) == [];
    SplitOfSpaces(s[n..]);
    assert s[..n] == s && Split(s)[0] == w;
  }

  lemma StrippedEnds(s: string)
    requires Strip(IsSpace, s) == s
    ensures s != "" ==> !IsSpace(s[0]) && !IsSpace(s[|s| - 1])
  {
    var n := PrefixLength(IsSpace, s);
    assert |Strip(IsSpace, s)| <= |s| - n;
  }

  /** Only a name has a single token that is bare. */
  lemma OneBareChunk(e: Condition, w: string)
    requires ChunksOf(e, 0) == [Chunk(0, w, 0)]
    ensures e == Name(w)
  {
    assert |ChunksOf(e, 0)| == 1 && ChunksOf(e, 0)[0].opens == 0;
  }

  lemma {:induction false} WordIsName(w: string, e: Condition)
    requires IsBareWord(w) && WellNamed(e) && Split(w) == Texts(ChunksOf(e, 0))
    ensures e == Name(w)
  {
    var cs := ChunksOf(e, 0);
    SplitFirstWord(w, "");
    assert w + "" == w && Split("") == [] && Split(w) == [w];
    assert |cs| == 1 && Texts(cs)[0] == Text(cs[0]) == w;
    ChunksArePlain(e);
    TextOfWord(cs[0], w);
    OneBareChunk(e, w);
  }

  /** A name that is no bare word occurs in no expression. */
  lemma ValueIgnores(e: Condition, name: string, b: bool, results: Results)
    requires WellNamed(e) && !IsBareWord(name)
    ensures Value(e, results[name := b]) == Value(e, results)
  {
    match e {
      case Name(n) =>
      case Not(x) =>
        ValueIgnores(x, name, b, results);
      case And(l, r) =>
        ValueIgnores(l, name, b, results);
        ValueIgnores(r, name, b, results);
      case Or(l, r) =>
        ValueIgnores(l, name, b, results);
        ValueIgnores(r, name, b, results);
      case Group(x) =>
        ValueIgnores(x, name, b, results);
    }
  }

  function AllTrue(names: set<string>): (results: Results)
    ensures results.Keys == names
  {
    map name | name in names :: true
  }

  /** A selection that reads as an expression is answered with its own outcome, which may
      be the opposite of the expression's value. */
  lemma ExpressionNameMisread(names: set<string>, name: string, e: Condition)
    requires name in names && ReadsAs(name, e)
    ensures !WritingsMeanTheirValue(names)
  {
    if IsBareWord(name) {
      WordIsName(name, e);
    }
    var results := AllTrue(names);
    var v := Value(e, results);
    var flipped := results[name := !v];
    ValueIgnores(e, name, !v, results);
    assert flipped.Keys == names && EvaluateCondition(name, flipped) == !v;
  }

  // ------------------------------------------------------------- the exact condition

  lemma {:induction false} MisreadIsWrong(e: Condition, d: Condition, names: set<string>, results: Results)
    requires results.Keys == names && Misread(e, results) && Misread(d, results)
    requires Value(e, results) != Value(d, results)
    ensures !WritingsMeanTheirValue(names)
  {
    PrintWrites(e);
    PrintWrites(d);
    assert EvaluateCondition(Print(e, 0), results) == EvaluateCondition(Print(d, 0), results);
  }

  lemma OperatorNameMisread(names: set<string>)
    requires "and" in names || "or" in names || "not" in names
    ensures !WritingsMeanTheirValue(names)
  {
    var results := AllTrue(names);
    var x := FreshName(results);
    assert !Value(Name(x), results) && Value(Not(Name(x)), results);
    if "not" in results {
      NegationMisread(x, results);
      DoubleNegationMisread(x, results);
      MisreadIsWrong(Not(Name(x)), Not(Not(Name(x))), names, results);
    } else {
      var op := if "and" in results then "and" else "or";
      JoinedNameMisread(op, x, results);
      JoinedNegationMisread(op, x, results);
      MisreadIsWrong(Twice(op, Name(x)), Twice(op, Not(Name(x))), names, results);
    }
  }

  lemma {:induction false} ApartMeansValue(names: set<string>, results: Results, condition: string, e: Condition)
    requires NamesStandApart(names) && results.Keys == names && WellNamed(e) && Writes(condition, e)
    ensures EvaluateCondition(condition, results) == Value(e, results)
  {
    var cond := Strip(IsSpace, condition);
    if cond in results {
      SplitIgnoresStrip(condition);
      StripTwice(condition);
      assert !ReadsAs(cond, e);
      OneWord(cond, Text(ChunksOf(e, 0)[0]));
      assert Text(Chunk(0, e.name, 0)) == e.name;
    }
    ConditionMeansValue(condition, e, results);
  }

  lemma StripTwice(s: string)
    ensures Strip(IsSpace, Strip(IsSpace, s)) == Strip(IsSpace, s)
  {
    var left := StripLeft(IsSpace, s);
    var t := StripRight(IsSpace, left);
    assert left != "" ==> !IsSpace(left[0]);
    assert t != "" ==> t[0] == left[0] && t[|t| - 1] == left[|t| - 1];
    NothingToStrip(IsSpace, t);
  }

  /** Whatever the outcomes, all expressions over all spacings get their values exactly when
      no selection is called like an operator or like a compound expression. */
  lemma PlainNamesIff(names: set<string>)
    ensures WritingsMeanTheirValue(names) <==> NamesStandApart(names)
  {
    if NamesStandApart(names) {
      forall results: Results, condition: string, e: Condition
        | results.Keys == names && WellNamed(e) && Writes(condition, e)
        ensures EvaluateCondition(condition, results) == Value(e, results)
      {
        ApartMeansValue(names, results, condition, e);
      }
    } else if "and" in names || "or" in names || "not" in names {
      OperatorNameMisread(names);
    } else {
      var name: string, e: Condition :| name in names && ReadsAs(name, e);
      ExpressionNameMisread(names, name, e);
    }
  }

  /** In particular when every name is a bare word and none an operator. */
  lemma BareNamesStandApart(names: set<string>)
    requires forall name :: name in names ==> IsBareWord(name) && !IsOperator(name)
    ensures NamesStandApart(names)
  {
    forall name: string, e: Condition | name in names
      ensures !ReadsAs(name, e)
    {
      if ReadsAs(name, e) {
        WordIsName(name, e);
      }
    }
  }
}

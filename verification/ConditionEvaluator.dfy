/** Evaluation of a rule's condition over the outcomes of its selections, and of the
    rule itself. */
module ConditionEvaluator {
  import opened Wrappers
  import opened ConditionText
  import opened ConditionGrammar

  type Results = map<string, bool>

  /** The word put in place of a token's word. */
  function Replacement(word: string, results: Results): (rep: string)
    ensures Keyword(rep).Some?
  {
    if word in results then (if results[word] then "True" else "False")
    else if word == "and" || word == "or" || word == "not" then word
    else "False"
  }

  function RewriteToken(t: string, results: Results): (c: Chunk)
    ensures KeywordChunk(c)
  {
    var c := Analyse(t);
    c.(word := Replacement(c.word, results))
  }

  function RewriteTokens(ts: seq<string>, results: Results): (cs: seq<Chunk>)
    ensures |cs| == |ts| && forall i :: 0 <= i < |cs| ==> cs[i] == RewriteToken(ts[i], results)
  {
    seq(|ts|, i requires 0 <= i < |ts| => RewriteToken(ts[i], results))
  }

  /** The text handed to `eval`. */
  function Rewritten(cond: string, results: Results): string {
    Join(Texts(RewriteTokens(Split(cond), results)))
  }

  /** What is answered when `eval` raises: whether there are selections and all match. */
  function Fallback(results: Results): bool {
    results != map[] && forall name :: name in results ==> results[name]
  }

  /** The general path. */
  function Substituted(cond: string, results: Results): bool {
    var v := EvalText(Rewritten(cond, results));
    if v.Some? then v.value else Fallback(results)
  }

  predicate AnyWith(prefix: string, results: Results) {
    exists name :: name in results && prefix <= name && results[name]
  }

  predicate AllWith(prefix: string, results: Results) {
    && (exists name :: name in results && prefix <= name)
    && forall name :: name in results && prefix <= name ==> results[name]
  }

  /** The prefix a quantified condition asks for. */
  function QuantifiedPrefix(cond: string): string {
    WithoutStars(LastPiece(cond))
  }

  predicate AsksForAny(cond: string) {
    "1 of " <= cond || "any of " <= cond
  }

  predicate AsksForAll(cond: string) {
    "all of " <= cond
  }

  function EvaluateCondition(condition: string, results: Results): bool {
    var cond := Strip(IsSpace, condition);
    if cond in results then results[cond]
    else if AsksForAny(cond) then AnyWith(QuantifiedPrefix(cond), results)
    else if AsksForAll(cond) then AllWith(QuantifiedPrefix(cond), results)
    else Substituted(cond, results)
  }

  lemma RewritingNext(ts: seq<string>, i: nat, results: Results)
    requires i < |ts|
    ensures Texts(RewriteTokens(ts[..i + 1], results))
         == Texts(RewriteTokens(ts[..i], results)) + [Text(RewriteToken(ts[i], results))]
  {
  }

  /** One token, rewritten. */
  method SubstituteToken(t: string, results: Results) returns (text: string)
    ensures text == Text(RewriteToken(t, results))
  {
    var cleanToken := Strip(IsParen, t);
    var leading, trailing := Repeat('(', PrefixLength(IsOpen, t)), Repeat(')', SuffixLength(IsClose, t));
    text := leading + Replacement(cleanToken, results) + trailing;
  }

  /** Puts truth values in place of selection names, token by token. */
  method CollectTokens(tokens: seq<string>, results: Results) returns (evalTokens: seq<string>)
    ensures evalTokens == Texts(RewriteTokens(tokens, results))
  {
    evalTokens := [];
    for i := 0 to |tokens|
      invariant evalTokens == Texts(RewriteTokens(tokens[..i], results))
    {
      var text := SubstituteToken(tokens[i], results);
      RewritingNext(tokens, i, results);
      evalTokens := evalTokens + [text];
    }
    assert tokens[..|tokens|] == tokens;
  }

  /** Joins what the tokens have become. */
  method SubstituteTokens(tokens: seq<string>, results: Results) returns (evalExpr: string)
    ensures evalExpr == Join(Texts(RewriteTokens(tokens, results)))
  {
    var evalTokens := CollectTokens(tokens, results);
    evalExpr := Join(evalTokens);
  }

  /** The evaluation as the source carries it out. */
  method EvaluateBooleanCondition(condition: string, results: Results) returns (value: bool)
    ensures value == EvaluateCondition(condition, results)
  {
    var cond := Strip(IsSpace, condition);
    if cond in results {
      return results[cond];
    }
    if "1 of " <= cond || "any of " <= cond {
      return AnyWith(QuantifiedPrefix(cond), results);
    }
    if "all of " <= cond {
      return AllWith(QuantifiedPrefix(cond), results);
    }
    var evalExpr := SubstituteTokens(Split(cond), results);
    var v := EvalText(evalExpr);
    if v.Some? {
      return v.value;
    }
    value := results != map[] && forall name :: name in results ==> results[name];
  }

  /** Whatever the condition and the selections, the text handed to `eval` consists of
      `True`, `False`, `and`, `or`, `not`, parentheses and blanks: it always lexes,
      token by token. */
  lemma {:induction false} RewrittenAlwaysLexes(cond: string, results: Results)
    ensures Lex(Rewritten(cond, results)) == Some(ChunksTokens(RewriteTokens(Split(cond), results)))
  {
    LexChunks(RewriteTokens(Split(cond), results));
  }

  /** An empty condition is a syntax error and so asks for all selections, of which there
      has to be one. */
  lemma EmptyConditionAsksForAll(results: Results)
    requires "" !in results
    ensures EvaluateCondition("", results)
            <==> (exists name :: name in results) && forall name :: name in results ==> results[name]
  {
    if name :| name in results {
      assert results != map[];
    }
    assert EvaluateCondition("", results) == Fallback(results);
  }

  // ---------------------------------------------------------------------- rules

  datatype FieldFilter = FieldFilter(fieldName: string, operator: string, expectedValue: string)

  datatype Selection = Selection(name: string, filters: seq<FieldFilter>)

  /** `selections` are the dictionary's entries in insertion order. */
  datatype Rule = Rule(enabled: bool, selections: seq<Selection>, condition: string)

  predicate DistinctNames(selections: seq<Selection>) {
    forall i, j :: 0 <= i < j < |selections| ==> selections[i].name != selections[j].name
  }

  predicate SelectionMatches(matches: FieldFilter -> bool, s: Selection) {
    forall i :: 0 <= i < |s.filters| ==> matches(s.filters[i])
  }

  /** A selection matches when all its filters do; `matches` tells of each filter
      whether it holds of the flow. */
  method EvaluateSelection(matches: FieldFilter -> bool, s: Selection) returns (matched: bool)
    ensures matched == SelectionMatches(matches, s)
  {
    for i := 0 to |s.filters|
      invariant forall k :: 0 <= k < i ==> matches(s.filters[k])
    {
      if !matches(s.filters[i]) {
        return false;
      }
    }
    matched := true;
  }

  /** The outcomes of the selections, by name. */
  function SelectionResults(matches: FieldFilter -> bool, selections: seq<Selection>): Results {
    if selections == [] then map[]
    else
      var init, last := selections[..|selections| - 1], selections[|selections| - 1];
      SelectionResults(matches, init)[last.name := SelectionMatches(matches, last)]
  }

  lemma {:induction false} ResultOfSelection(matches: FieldFilter -> bool, selections: seq<Selection>, i: nat)
    requires DistinctNames(selections) && i < |selections|
    ensures var results, s := SelectionResults(matches, selections), selections[i];
            s.name in results && results[s.name] == SelectionMatches(matches, s)
  {
    var n := |selections| - 1;
    if i < n {
      ResultOfSelection(matches, selections[..n], i);
    }
  }

  lemma {:induction false} SelectionOfResult(matches: FieldFilter -> bool, selections: seq<Selection>, name: string)
    requires name in SelectionResults(matches, selections)
    ensures exists i :: 0 <= i < |selections| && selections[i].name == name
  {
    var n := |selections| - 1;
    if name != selections[n].name {
      SelectionOfResult(matches, selections[..n], name);
      var i :| 0 <= i < n && selections[..n][i].name == name;
      assert selections[i].name == name;
    }
  }

  /** Every selection is found under its name with its own outcome, and nothing else is. */
  lemma {:induction false} ResultOfEachSelection(matches: FieldFilter -> bool, selections: seq<Selection>)
    requires DistinctNames(selections)
    ensures var results := SelectionResults(matches, selections);
            && (forall i :: 0 <= i < |selections| ==>
                  selections[i].name in results
                  && results[selections[i].name] == SelectionMatches(matches, selections[i]))
            && forall name :: name in results ==>
                 exists i :: 0 <= i < |selections| && selections[i].name == name
  {
    var results := SelectionResults(matches, selections);
    forall i | 0 <= i < |selections|
      ensures selections[i].name in results
      ensures results[selections[i].name] == SelectionMatches(matches, selections[i])
    {
      ResultOfSelection(matches, selections, i);
    }
    forall name | name in results
      ensures exists i :: 0 <= i < |selections| && selections[i].name == name
    {
      SelectionOfResult(matches, selections, name);
    }
  }

  /** The names of the matching selections, in the rule's order. */
  function MatchedNames(matches: FieldFilter -> bool, selections: seq<Selection>): seq<string> {
    if selections == [] then []
    else
      var init, last := selections[..|selections| - 1], selections[|selections| - 1];
      MatchedNames(matches, init) + (if SelectionMatches(matches, last) then [last.name] else [])
  }

  /** `names` are those of the selections at the places `idx`, which are the places of the
      matching ones, in the rule's order. */
  ghost predicate ListsMatching(idx: seq<nat>, names: seq<string>, matches: FieldFilter -> bool,
                                selections: seq<Selection>) {
    && |idx| == |names|
    && (forall j :: 0 <= j < |idx| ==> idx[j] < |selections| && names[j] == selections[idx[j]].name)
    && (forall j, k :: 0 <= j < k < |idx| ==> idx[j] < idx[k])
    && (forall i :: 0 <= i < |selections| ==> (i in idx <==> SelectionMatches(matches, selections[i])))
  }

  lemma ListsSnoc(idx: seq<nat>, names: seq<string>, matches: FieldFilter -> bool, selections: seq<Selection>,
                  last: Selection)
    requires ListsMatching(idx, names, matches, selections)
    ensures if SelectionMatches(matches, last)
            then ListsMatching(idx + [|selections|], names + [last.name], matches, selections + [last])
            else ListsMatching(idx, names, matches, selections + [last])
  {
    assert |selections| !in idx;
  }

  /** The reported names are those of the matching selections, one for each, in the rule's
      order. */
  lemma ReportedSelections(matches: FieldFilter -> bool, selections: seq<Selection>)
    returns (idx: seq<nat>)
    ensures ListsMatching(idx, MatchedNames(matches, selections), matches, selections)
  {
    if selections == [] {
      idx := [];
    } else {
      var n := |selections| - 1;
      idx := ReportedSelections(matches, selections[..n]);
      ListsSnoc(idx, MatchedNames(matches, selections[..n]), matches, selections[..n], selections[n]);
      assert selections == selections[..n] + [selections[n]];
      if SelectionMatches(matches, selections[n]) {
        idx := idx + [n];
      }
    }
  }

  /** The answer is the list of the names of which some selection matches, each once. */
  ghost predicate NamesMatching(names: seq<string>, matches: FieldFilter -> bool, selections: seq<Selection>) {
    && (forall name :: name in names <==>
          exists i :: 0 <= i < |selections| && selections[i].name == name && SelectionMatches(matches, selections[i]))
    && (DistinctNames(selections) ==> forall j, k :: 0 <= j < k < |names| ==> names[j] != names[k])
  }

  lemma {:induction false} ReportedNames(matches: FieldFilter -> bool, selections: seq<Selection>)
    ensures NamesMatching(MatchedNames(matches, selections), matches, selections)
  {
    var names := MatchedNames(matches, selections);
    var idx := ReportedSelections(matches, selections);
    forall name
      ensures name in names <==>
        exists i :: 0 <= i < |selections| && selections[i].name == name && SelectionMatches(matches, selections[i])
    {
      if i :| 0 <= i < |selections| && selections[i].name == name && SelectionMatches(matches, selections[i]) {
        var j :| 0 <= j < |idx| && idx[j] == i;
        assert names[j] == name;
      }
      if name in names {
        var j :| 0 <= j < |names| && names[j] == name;
        assert idx[j] in idx;
      }
    }
  }

  predicate Fires(rule: Rule, matches: FieldFilter -> bool) {
    rule.enabled && rule.selections != []
    && EvaluateCondition(rule.condition, SelectionResults(matches, rule.selections))
  }

  /** A rule that fires reports its matching selections. */
  method EvaluateRule(rule: Rule, matches: FieldFilter -> bool) returns (hit: Option<seq<string>>)
    ensures hit ==
            if Fires(rule, matches) then Some(MatchedNames(matches, rule.selections)) else None
    ensures hit.Some? <==> rule.enabled && rule.selections != []
                           && EvaluateCondition(rule.condition, SelectionResults(matches, rule.selections))
    ensures hit.Some? ==> NamesMatching(hit.value, matches, rule.selections)
  {
    if !rule.enabled || rule.selections == [] {
      return None;
    }
    var results: Results := map[];
    var matched: seq<string> := [];
    for i := 0 to |rule.selections|
      invariant results == SelectionResults(matches, rule.selections[..i])
      invariant matched == MatchedNames(matches, rule.selections[..i])
    {
      var m := EvaluateSelection(matches, rule.selections[i]);
      results := results[rule.selections[i].name := m];
      if m {
        matched := matched + [rule.selections[i].name];
      }
      assert rule.selections[..i + 1][..i] == rule.selections[..i];
    }
    assert rule.selections[..|rule.selections|] == rule.selections;
    ReportedNames(matches, rule.selections);
    var isMatch := EvaluateBooleanCondition(rule.condition, results);
    hit := if isMatch then Some(matched) else None;
  }
}

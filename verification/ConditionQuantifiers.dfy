/** Quantified conditions against the chains they abbreviate. */
module ConditionQuantifiers {
  import opened ConditionText
  import opened ConditionEvaluator
  import opened ConditionWriting
  import opened ConditionMeaning

  /** A pattern prefix: no white space and no star. */
  predicate IsPrefixPattern(p: string) {
    NoSpace(p) && forall i :: 0 <= i < |p| ==> p[i] != '*'
  }

  lemma {:induction false} WithoutStarsOf(p: string)
    requires forall i :: 0 <= i < |p| ==> p[i] != '*'
    ensures WithoutStars(p + "*") == p
  {
    var t := p + "*";
    if p == "" {
      assert t[1..] == "";
    } else {
      assert t[1..] == p[1..] + "*";
      WithoutStarsOf(p[1..]);
    }
  }

  /** Taking out the stars goes character by character. */
  lemma {:induction false} WithoutStarsSum(u: string, v: string)
    ensures WithoutStars(u + v) == WithoutStars(u) + WithoutStars(v)
    ensures WithoutStars("*") == "" && (|u| == 1 && u != "*" ==> WithoutStars(u) == u)
  {
    assert "*"[1..] == "";
    if u == "" {
      assert u + v == v;
    } else {
      WithoutStarsSum(u[1..], v);
      assert (u + v)[1..] == u[1..] + v;
      if |u| == 1 {
        assert u[1..] == "" && u == [u[0]];
      }
    }
  }

  /** Only what follows the last blank of a quantified condition counts. */
  lemma LastPieceIs(before: string, w: string)
    requires forall i :: 0 <= i < |w| ==> w[i] != ' '
    ensures LastPiece(before + " " + w) == w
  {
    var s := before + " " + w;
    assert forall i :: 0 <= i < |w| ==> s[|before| + 1 + i] == w[i];
    assert forall i :: |s| - |w| <= i < |s| ==> s[i] == w[i - |before| - 1];
    SuffixLengthIs(IsNonBlank, s, |w|);
  }

  lemma StripQuantified(q: string, w: string)
    requires q != "" && !IsSpace(q[0]) && IsWord(w)
    ensures Strip(IsSpace, q + w) == q + w
  {
  }

  lemma QuantifiedParts(q: string, p: string)
    requires IsWord(q) && IsPrefixPattern(p)
    ensures var cond := q + " of " + p + "*";
            Strip(IsSpace, cond) == cond && QuantifiedPrefix(cond) == p && q + " of " <= cond
  {
    var w := p + "*";
    WithoutStarsOf(p);
    LastPieceIs(q + " of", w);
    StripQuantified(q + " of ", w);
    assert q + " of " + p + "*" == q + " of " + w == q + " of" + " " + w;
  }

  /** `1 of p*` asks for a matching selection whose name starts with p. */
  lemma OneOfPattern(p: string, results: Results)
    requires IsPrefixPattern(p) && "1 of " + p + "*" !in results
    ensures EvaluateCondition("1 of " + p + "*", results) == AnyWith(p, results)
  {
    assert "1" + " of " == "1 of ";
    QuantifiedParts("1", p);
  }

  /** So does `any of p*`. */
  lemma AnyOfPattern(p: string, results: Results)
    requires IsPrefixPattern(p) && "any of " + p + "*" !in results
    ensures EvaluateCondition("any of " + p + "*", results) == AnyWith(p, results)
  {
    assert "any" + " of " == "any of ";
    QuantifiedParts("any", p);
  }

  lemma NotAskingForAny(cond: string)
    requires |cond| > 1 && (cond[0] != '1' && (cond[0] != 'a' || cond[1] != 'n'))
    ensures !AsksForAny(cond)
  {
  }

  /** `all of p*` asks that there is such a selection and that all of them match. */
  lemma AllOfPattern(p: string, results: Results)
    requires IsPrefixPattern(p) && "all of " + p + "*" !in results
    ensures EvaluateCondition("all of " + p + "*", results) == AllWith(p, results)
  {
    var cond := "all of " + p + "*";
    assert "all" + " of " == "all of ";
    QuantifiedParts("all", p);
    assert cond[0] == 'a' && cond[1] == 'l';
    NotAskingForAny(cond);
    AskingForAll(cond, p, results);
  }

  lemma AskingForAll(cond: string, p: string, results: Results)
    requires Strip(IsSpace, cond) == cond && cond !in results && QuantifiedPrefix(cond) == p
    requires !AsksForAny(cond) && AsksForAll(cond)
    ensures EvaluateCondition(cond, results) == AllWith(p, results)
  {
  }

  predicate SelectionNames(names: seq<string>) {
    names != [] && forall i :: 0 <= i < |names| ==> IsBareWord(names[i]) && !IsOperator(names[i])
  }

  /** The names one after the other, between `or`. */
  function AnyChain(names: seq<string>): (e: Condition)
    requires names != []
  {
    var n := |names| - 1;
    if n == 0 then Name(names[0]) else Or(AnyChain(names[..n]), Name(names[n]))
  }

  function AllChain(names: seq<string>): (e: Condition)
    requires names != []
  {
    var n := |names| - 1;
    if n == 0 then Name(names[0]) else And(AllChain(names[..n]), Name(names[n]))
  }

  lemma {:induction false} ChainValues(names: seq<string>, results: Results)
    requires SelectionNames(names)
    ensures WellNamed(AnyChain(names)) && WellNamed(AllChain(names))
    ensures Value(AnyChain(names), results) <==> exists n :: n in names && n in results && results[n]
    ensures Value(AllChain(names), results) <==> forall n :: n in names ==> n in results && results[n]
  {
    var n := |names| - 1;
    if n > 0 {
      assert forall i :: 0 <= i < n ==> names[..n][i] == names[i];
      ChainValues(names[..n], results);
      assert names == names[..n] + [names[n]];
    }
  }

  ghost predicate NamesWithPrefix(p: string, names: seq<string>, results: Results) {
    forall n :: n in names <==> n in results && p <= n
  }

  /** `1 of p*` is the `or` chain of the matching names, in any order, evaluated
      through the general path. */
  lemma {:induction false} AnyOfIsSpelledOut(p: string, names: seq<string>, results: Results)
    requires IsPrefixPattern(p) && SelectionNames(names) && NamesWithPrefix(p, names, results)
    requires NoOperatorNames(results) && "1 of " + p + "*" !in results
    ensures EvaluateCondition("1 of " + p + "*", results)
         == Substituted(Print(AnyChain(names), 0), results)
  {
    OneOfPattern(p, results);
    ChainValues(names, results);
    PrintWrites(AnyChain(names));
    SubstitutionMeansValue(Print(AnyChain(names), 0), AnyChain(names), results);
  }

  /** `all of p*` is the `and` chain of the matching names, of which there must be one. */
  lemma {:induction false} AllOfIsSpelledOut(p: string, names: seq<string>, results: Results)
    requires IsPrefixPattern(p) && SelectionNames(names) && NamesWithPrefix(p, names, results)
    requires NoOperatorNames(results) && "all of " + p + "*" !in results
    ensures EvaluateCondition("all of " + p + "*", results)
         == Substituted(Print(AllChain(names), 0), results)
  {
    AllOfPattern(p, results);
    ChainValues(names, results);
    assert names[0] in names;
    PrintWrites(AllChain(names));
    SubstitutionMeansValue(Print(AllChain(names), 0), AllChain(names), results);
  }

  lemma AllIsNotAny(cond: string)
    requires AsksForAll(cond)
    ensures !AsksForAny(cond)
  {
    assert cond[0] == "all of "[0] && cond[1] == "all of "[1];
    NotAskingForAny(cond);
  }

  /** Every quantified condition asks for the prefix that is its last piece without the
      stars in it, wherever they stand. */
  lemma {:induction false} QuantifiedAsks(condition: string, before: string, w: string, results: Results)
    requires Strip(IsSpace, condition) == before + " " + w && forall i :: 0 <= i < |w| ==> w[i] != ' '
    requires Strip(IsSpace, condition) !in results
    ensures AsksForAny(Strip(IsSpace, condition)) ==>
              EvaluateCondition(condition, results) == AnyWith(WithoutStars(w), results)
    ensures AsksForAll(Strip(IsSpace, condition)) ==>
              EvaluateCondition(condition, results) == AllWith(WithoutStars(w), results)
  {
    LastPieceIs(before, w);
    if AsksForAll(Strip(IsSpace, condition)) {
      AllIsNotAny(Strip(IsSpace, condition));
    }
  }

  /** A condition that is the name of a selection is answered by that selection, also when
      the name begins like a quantifier. */
  lemma ListedIsLookedUp(before: string, name: string, after: string, results: Results)
    requires name in results && Strip(IsSpace, before + name + after) == name
    ensures EvaluateCondition(before + name + after, results) == results[name]
  {
  }

  lemma {:induction false} NoStarToTake(w: string)
    requires forall i :: 0 <= i < |w| ==> w[i] != '*'
    ensures WithoutStars(w) == w
  {
    if w != "" {
      NoStarToTake(w[1..]);
    }
  }

  /** A last word without a star is a prefix like any other: `all of them` asks for the
      selections whose names start with `them`. */
  lemma AllOfWord(w: string, results: Results)
    requires IsWord(w) && IsPrefixPattern(w) && "all of " + w !in results
    ensures EvaluateCondition("all of " + w, results) == AllWith(w, results)
  {
    var cond := "all of " + w;
    assert cond == "all of" + " " + w;
    StripQuantified("all of ", w);
    NoStarToTake(w);
    LastPieceIs("all of", w);
    assert cond[0] == 'a' && cond[1] == 'l';
    NotAskingForAny(cond);
    AskingForAll(cond, w, results);
  }

  /** A quantified condition cannot be combined: whatever stands between the quantifier
      and the last word is ignored. */
  lemma {:induction false} QuantifierIgnoresMiddle(middle: string, w: string, results: Results)
    requires IsWord(w) && "1 of " + middle + " " + w !in results
    ensures EvaluateCondition("1 of " + middle + " " + w, results) == AnyWith(WithoutStars(w), results)
  {
    var cond := "1 of " + middle + " " + w;
    assert cond == ("1 of " + middle + " ") + w == ("1 of " + middle) + " " + w;
    StripQuantified("1 of " + middle + " ", w);
    LastPieceIs("1 of " + middle, w);
    assert "1 of " <= cond;
  }
}

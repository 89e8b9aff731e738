/** Boolean expressions over selection names, the texts they are written as, and the
    theorem that the evaluation of such a text is the value of the expression. */
module ConditionMeaning {
  import opened Wrappers
  import opened ConditionText
  import opened ConditionEvaluator
  import opened ConditionParsing
  import opened ConditionWriting

  /** `Group` is a pair of parentheses that the expression does not need. */
  datatype Condition =
    | Name(name: string)
    | Not(arg: Condition)
    | And(left: Condition, right: Condition)
    | Or(left: Condition, right: Condition)
    | Group(arg: Condition)

  /** Names that are not among the selections are false. */
  function Value(e: Condition, results: Results): bool {
    match e
    case Name(n) => n in results && results[n]
    case Not(x) => !Value(x, results)
    case And(l, r) => Value(l, results) && Value(r, results)
    case Or(l, r) => Value(l, results) || Value(r, results)
    case Group(x) => Value(x, results)
  }

  predicate WellNamed(e: Condition) {
    match e
    case Name(n) => IsSelectionName(n)
    case Not(x) => WellNamed(x)
    case And(l, r) => WellNamed(l) && WellNamed(r)
    case Or(l, r) => WellNamed(l) && WellNamed(r)
    case Group(x) => WellNamed(x)
  }

  // ----------------------------------------------------------------- the texts

  /** Whether `e` must be parenthesised as an operand: levels 0, 1 and 2 stand for the
      operands of `or`, `and` and `not`. */
  predicate NeedsParens(e: Condition, level: nat) {
    (e.Or? && level > 0) || (e.And? && level > 1)
  }

  /** The expression as text: single blanks, parentheses glued to their neighbours. */
  function Print(e: Condition, level: nat): string
    decreases e, if NeedsParens(e, level) then 1 else 0
  {
    if NeedsParens(e, level) then "(" + Print(e, 0) + ")"
    else
      match e
      case Name(n) => n
      case Not(x) => "not " + Print(x, 2)
      case And(l, r) => Print(l, 1) + " and " + Print(r, 2)
      case Or(l, r) => Print(l, 0) + " or " + Print(r, 1)
      case Group(x) => "(" + Print(x, 0) + ")"
  }

  /** The expression with the parentheses it is printed with. */
  function WritingOf(e: Condition, level: nat): Writing
    decreases e, if NeedsParens(e, level) then 1 else 0
  {
    if NeedsParens(e, level) then Parens(WritingOf(e, 0), false, false)
    else
      match e
      case Name(n) => Word(n)
      case Not(x) => Negated(WritingOf(x, 2), false)
      case And(l, r) => Both(WritingOf(l, 1), WritingOf(r, 2))
      case Or(l, r) => Either(WritingOf(l, 0), WritingOf(r, 1))
      case Group(x) => Parens(WritingOf(x, 0), false, false)
  }

  function ChunksOf(e: Condition, level: nat): (cs: seq<Chunk>)
    ensures cs != []
  {
    Chunks(WritingOf(e, level))
  }

  /** A text is a way of writing `e` when it has the words of `e`, however spaced. */
  predicate Writes(condition: string, e: Condition) {
    Spells(condition, WritingOf(e, 0))
  }

  /** The printed text is the canonical text of the writing. */
  lemma {:induction false} PrintSpells(e: Condition, level: nat)
    ensures Print(e, level) == Spell(WritingOf(e, level))
    decreases e, if NeedsParens(e, level) then 1 else 0
  {
    if NeedsParens(e, level) {
      PrintSpells(e, 0);
    } else {
      match e {
        case Name(n) =>
        case Not(x) =>
          PrintSpells(x, 2);
        case And(l, r) =>
          PrintSpells(l, 1);
          PrintSpells(r, 2);
        case Or(l, r) =>
          PrintSpells(l, 0);
          PrintSpells(r, 1);
        case Group(x) =>
          PrintSpells(x, 0);
      }
    }
  }

  lemma {:induction false} WritingFits(e: Condition, level: nat)
    requires level <= 2
    ensures var w := WritingOf(e, level); Fits(w) && Readable(w) && Level(w) >= level
    decreases e, if NeedsParens(e, level) then 1 else 0
  {
    if NeedsParens(e, level) {
      WritingFits(e, 0);
    } else {
      match e {
        case Name(n) =>
        case Not(x) =>
          WritingFits(x, 2);
        case And(l, r) =>
          WritingFits(l, 1);
          WritingFits(r, 2);
        case Or(l, r) =>
          WritingFits(l, 0);
          WritingFits(r, 1);
        case Group(x) =>
          WritingFits(x, 0);
      }
    }
  }

  lemma {:induction false} WritingMeansValue(e: Condition, level: nat, results: Results)
    ensures WellNamed(e) ==> NamesAreWords(WritingOf(e, level))
    ensures Outcome(WritingOf(e, level), results) == Some(Value(e, results))
    decreases e, if NeedsParens(e, level) then 1 else 0
  {
    if NeedsParens(e, level) {
      WritingMeansValue(e, 0, results);
    } else {
      match e {
        case Name(n) =>
        case Not(x) =>
          WritingMeansValue(x, 2, results);
        case And(l, r) =>
          WritingMeansValue(l, 1, results);
          WritingMeansValue(r, 2, results);
        case Or(l, r) =>
          WritingMeansValue(l, 0, results);
          WritingMeansValue(r, 1, results);
        case Group(x) =>
          WritingMeansValue(x, 0, results);
      }
    }
  }

  /** The canonical text writes its expression. */
  lemma {:induction false} PrintWrites(e: Condition)
    requires WellNamed(e)
    ensures Writes(Print(e, 0), e) && Strip(IsSpace, Print(e, 0)) == Print(e, 0)
  {
    PrintSpells(e, 0);
    WritingMeansValue(e, 0, map[]);
    SpellSpells(WritingOf(e, 0));
  }

  // ------------------------------------------------------------- the main result

  /** The general path computes the value of the expression it is given as text. */
  lemma {:induction false} SubstitutionMeansValue(condition: string, e: Condition, results: Results)
    requires WellNamed(e) && NoOperatorNames(results) && Writes(condition, e)
    ensures Substituted(condition, results) == Value(e, results)
  {
    WritingFits(e, 0);
    WritingMeansValue(e, 0, results);
    SubstitutionMeansOutcome(condition, WritingOf(e, 0), results);
  }

  /** For every Boolean expression over selection names, every text with its tokens,
      however spaced, evaluates to the expression's value. The two conditions keep
      selection names apart from operators and from whole conditions. */
  lemma {:induction false} ConditionMeansValue(condition: string, e: Condition, results: Results)
    requires WellNamed(e) && Writes(condition, e)
    requires NoOperatorNames(results)
    requires Strip(IsSpace, condition) in results ==> e == Name(Strip(IsSpace, condition))
    ensures EvaluateCondition(condition, results) == Value(e, results)
  {
    if Strip(IsSpace, condition) !in results {
      GeneralPath(condition, WritingOf(e, 0), results);
      SubstitutionMeansValue(Strip(IsSpace, condition), e, results);
    }
  }

  /** The canonical text in particular. */
  lemma {:induction false} PrintedConditionMeansValue(e: Condition, results: Results)
    requires WellNamed(e) && NoOperatorNames(results)
    requires Print(e, 0) in results ==> e == Name(Print(e, 0))
    ensures EvaluateCondition(Print(e, 0), results) == Value(e, results)
  {
    PrintWrites(e);
    ConditionMeansValue(Print(e, 0), e, results);
  }

  /** A rule whose condition writes `e` fires exactly when it is enabled, has
      selections, and `e` is true of which of them match. */
  lemma {:induction false} RuleFiresIff(rule: Rule, matches: FieldFilter -> bool, e: Condition)
    requires WellNamed(e) && Writes(rule.condition, e)
    requires var results := SelectionResults(matches, rule.selections);
             && NoOperatorNames(results)
             && (Strip(IsSpace, rule.condition) in results ==> e == Name(Strip(IsSpace, rule.condition)))
    ensures Fires(rule, matches)
            <==> rule.enabled && rule.selections != []
                 && Value(e, SelectionResults(matches, rule.selections))
  {
    ConditionMeansValue(rule.condition, e, SelectionResults(matches, rule.selections));
  }
}

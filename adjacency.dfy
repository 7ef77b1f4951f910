// The two adjacency tables of the syntax analyzer: where an operator may
// not stand or must stand between two keywords (ValidateOperatorsUsage),
// and where a nested expression is missing (ValidateNestedExpressionsUsage).
module AdjacencyRules {
  import opened Wrappers
  import opened Errors
  import opened Keywords

  /** The number of neighbouring pairs the table loops visit: indices 0 .. |ks| - 2. */
  function Pairs(ks: seq<Keyword>): nat
  {
    if |ks| == 0 then 0 else |ks| - 1
  }

  predicate IsOpening(t: KeywordType) { t == LeftParenthesis || t == ArgumentSeparator }

  predicate IsClosing(t: KeywordType) { t == RightParenthesis || t == ArgumentSeparator }

  // ---------------------------------------------------------------------
  // ValidateOperatorsUsage
  // ---------------------------------------------------------------------

  /** An operator run with '(' or ',' before it and ')' or ',' after it: nothing for it to apply to. */
  predicate UnexpectedOperatorAt(ks: seq<Keyword>, i: nat)
    requires i + 1 < |ks|
  {
    ks[i].kind == Operator && i > 0 && IsOpening(ks[i - 1].kind) && IsClosing(ks[i + 1].kind)
  }

  /**
   * A value (a name that is not a function, a literal) or a ')' followed by
   * something that starts a value (a name, a literal or '('): an infix
   * operator is missing between them.
   */
  predicate OperatorRequiredAt(ks: seq<Keyword>, i: nat)
    requires i + 1 < |ks|
  {
    ks[i].kind != Operator && ks[i + 1].kind != Operator && !IsClosing(ks[i + 1].kind)
    && ((ks[i].kind == Name && ks[i].subtype != Some(Function)) || ks[i].kind == Literal || ks[i].kind == RightParenthesis)
  }

  /** The errors for the pair at index i: the unexpected operator first, then the missing one. */
  function OperatorUsageError(ks: seq<Keyword>, i: nat): seq<Error>
    requires i + 1 < |ks|
  {
    (if UnexpectedOperatorAt(ks, i) then [UnexpectedOperatorUsage(ks[i].word, ks[i].originalPosition)] else [])
    + (if OperatorRequiredAt(ks, i) then
         [InfixOperatorIsRequired(ks[i].word, ks[i].originalPosition, ks[i + 1].word, ks[i + 1].originalPosition)]
       else [])
  }

  /** The errors ValidateOperatorsUsage adds for the first n pairs. */
  function OperatorUsageErrors(ks: seq<Keyword>, n: nat): (r: seq<Error>)
    requires n <= Pairs(ks)
    ensures r == [] <==> forall i | 0 <= i < n :: !UnexpectedOperatorAt(ks, i) && !OperatorRequiredAt(ks, i)
    ensures forall e | e in r :: e.UnexpectedOperatorUsage? || e.InfixOperatorIsRequired?
  {
    if n == 0 then [] else OperatorUsageErrors(ks, n - 1) + OperatorUsageError(ks, n - 1)
  }

  /** The table's cells at work: "2x" lacks an operator, and "(+)" and "f(x,-)" hold one that applies to nothing. */
  lemma OperatorUsageExamples(lit: Keyword, name: Keyword, op: Keyword, open: Keyword, close: Keyword, comma: Keyword)
    requires lit.kind == Literal && name.kind == Name && name.subtype == Some(Argument) && op.kind == Operator
    requires open.kind == LeftParenthesis && close.kind == RightParenthesis && comma.kind == ArgumentSeparator
    ensures OperatorUsageErrors([lit, name], 1) == [InfixOperatorIsRequired(lit.word, lit.originalPosition, name.word, name.originalPosition)]
    ensures OperatorUsageErrors([open, op, close], 2) == [UnexpectedOperatorUsage(op.word, op.originalPosition)]
    ensures UnexpectedOperatorAt([name, open, name, comma, op, close], 4)
  {
    assert OperatorUsageErrors([open, op, close], 1) == [];
  }

  // ---------------------------------------------------------------------
  // ValidateNestedExpressionsUsage
  // ---------------------------------------------------------------------

  /**
   * The pairs "()", "(,", ",)" and ",," need an expression between them,
   * except "()" right after a function keyword. As written, "()" at the
   * very start is never checked: the guard of that case fails and the
   * remaining cases do not match it.
   */
  predicate NestedRequiredAsWritten(ks: seq<Keyword>, i: nat)
    requires i + 1 < |ks|
  {
    match (ks[i].kind, ks[i + 1].kind)
    case (LeftParenthesis, RightParenthesis) => i > 0 && ks[i - 1].subtype != Some(Function)
    case (LeftParenthesis, ArgumentSeparator) => true
    case (ArgumentSeparator, RightParenthesis) => true
    case (ArgumentSeparator, ArgumentSeparator) => true
    case _ => false
  }

  /** The intended rule: "()" needs a function keyword right before it, wherever it stands. */
  predicate NestedRequired(ks: seq<Keyword>, i: nat)
    requires i + 1 < |ks|
  {
    IsOpening(ks[i].kind) && IsClosing(ks[i + 1].kind)
    && !(ks[i].kind == LeftParenthesis && ks[i + 1].kind == RightParenthesis && i > 0 && ks[i - 1].subtype == Some(Function))
  }

  function NestedError(ks: seq<Keyword>, i: nat): Error
    requires i + 1 < |ks|
  {
    NestedExpressionIsRequired(ks[i].word, ks[i].originalPosition, ks[i + 1].word, ks[i + 1].originalPosition)
  }

  /** The errors ValidateNestedExpressionsUsage adds for the first n pairs, as written. */
  function NestedErrorsAsWritten(ks: seq<Keyword>, n: nat): (r: seq<Error>)
    requires n <= Pairs(ks)
    ensures r == [] <==> forall i | 0 <= i < n :: !NestedRequiredAsWritten(ks, i)
  {
    if n == 0 then []
    else NestedErrorsAsWritten(ks, n - 1) + (if NestedRequiredAsWritten(ks, n - 1) then [NestedError(ks, n - 1)] else [])
  }

  /** The same check with the intended rule for "()". */
  function NestedErrors(ks: seq<Keyword>, n: nat): (r: seq<Error>)
    requires n <= Pairs(ks)
    ensures r == [] <==> forall i | 0 <= i < n :: !NestedRequired(ks, i)
    ensures forall e | e in r :: e.NestedExpressionIsRequired?
  {
    if n == 0 then [] else NestedErrors(ks, n - 1) + (if NestedRequired(ks, n - 1) then [NestedError(ks, n - 1)] else [])
  }

  /** The two rules differ only on a "()" at index 0. */
  lemma NestedRulesDifferOnlyAtStart(ks: seq<Keyword>, i: nat)
    requires i + 1 < |ks|
    ensures NestedRequiredAsWritten(ks, i) != NestedRequired(ks, i) <==>
      i == 0 && ks[0].kind == LeftParenthesis && ks[1].kind == RightParenthesis
  {
  }

  /**
   * With the intended rule, keywords that pass hold no empty bracket and no
   * empty argument: every "()" directly follows a function keyword, and no
   * '(' or ',' is directly followed by ')' or ',' otherwise.
   */
  lemma NestedErrorsFreeMeansNoEmptyGroups(ks: seq<Keyword>)
    requires NestedErrors(ks, Pairs(ks)) == []
    ensures forall i | 0 <= i < |ks| - 1 && ks[i].kind == LeftParenthesis && ks[i + 1].kind == RightParenthesis ::
      i > 0 && ks[i - 1].subtype == Some(Function)
    ensures forall i | 0 <= i < |ks| - 1 && IsOpening(ks[i].kind) && IsClosing(ks[i + 1].kind) ::
      ks[i].kind == LeftParenthesis && ks[i + 1].kind == RightParenthesis
  {
    forall i | 0 <= i < |ks| - 1 && ks[i].kind == LeftParenthesis && ks[i + 1].kind == RightParenthesis
      ensures i > 0 && ks[i - 1].subtype == Some(Function)
    {
      assert !NestedRequired(ks, i);
    }
    forall i | 0 <= i < |ks| - 1 && IsOpening(ks[i].kind) && IsClosing(ks[i + 1].kind)
      ensures ks[i].kind == LeftParenthesis && ks[i + 1].kind == RightParenthesis
    {
      assert !NestedRequired(ks, i);
    }
  }

  /**
   * As written, the keywords of "()+1" pass both tables: the "()" at index
   * 0 is not reported, and the operator between ")" and "1" is in place.
   * The intended rule reports it.
   */
  lemma EmptyBracketAtStartPassesAsWritten(open: Keyword, close: Keyword, plus: Keyword, one: Keyword)
    requires open.kind == LeftParenthesis && close.kind == RightParenthesis
    requires plus.kind == Operator && one.kind == Literal
    ensures var ks := [open, close, plus, one];
      NestedErrorsAsWritten(ks, 3) == [] && OperatorUsageErrors(ks, 3) == []
      && NestedErrors(ks, 3) == [NestedExpressionIsRequired(open.word, open.originalPosition, close.word, close.originalPosition)]
  {
    var ks := [open, close, plus, one];
    assert NestedErrors(ks, 1) == [NestedError(ks, 0)];
    assert !NestedRequired(ks, 1) && !NestedRequired(ks, 2);
    assert NestedErrors(ks, 2) == NestedErrors(ks, 1);
    assert NestedErrorsAsWritten(ks, 1) == [];
    assert OperatorUsageErrors(ks, 1) == [];
    assert OperatorUsageErrors(ks, 2) == [];
  }
}

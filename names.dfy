// The second stage of the syntax analyzer, on the keywords: the literal and
// name grammars, the call arity of a name followed by '(', the subtype each
// name gets, and the checks on function calls.
module NameRules {
  import opened Wrappers
  import opened Errors
  import opened Keywords
  import PG = ParserGlobal
  import opened Functions
  import opened Constants

  // ---------------------------------------------------------------------
  // ValidateLiteralsAndNames
  // ---------------------------------------------------------------------

  /** A literal must follow the literal grammar (no domain given), a name the naming grammar. */
  predicate WordIsValid(k: Keyword)
  {
    (k.kind == Literal ==> PG.ValidateLiteral(k.word, None)) && (k.kind == Name ==> PG.ValidateName(k.word))
  }

  function WordError(k: Keyword): Error
  {
    if k.kind == Literal then InvalidLiteral(k.word, k.originalPosition) else InvalidName(k.word, k.originalPosition)
  }

  /** The errors ValidateLiteralsAndNames adds for the first n keywords: one per invalid word, in order. */
  function LiteralAndNameErrors(ks: seq<Keyword>, n: nat): (r: seq<Error>)
    requires n <= |ks|
    ensures |r| <= n
    ensures forall e | e in r :: e.InvalidLiteral? || e.InvalidName?
    ensures forall i | 0 <= i < n && !WordIsValid(ks[i]) :: WordError(ks[i]) in r
    ensures r == [] <==> forall i | 0 <= i < n :: WordIsValid(ks[i])
  {
    if n == 0 then []
    else
      var p := LiteralAndNameErrors(ks, n - 1);
      if WordIsValid(ks[n - 1]) then p else p + [WordError(ks[n - 1])]
  }

  /** One more keyword adds its error exactly when its word is invalid. */
  lemma LiteralAndNameStep(ks: seq<Keyword>, n: nat)
    requires n < |ks|
    ensures var k := ks[n];
      LiteralAndNameErrors(ks, n + 1) == LiteralAndNameErrors(ks, n) +
        if k.kind == Literal && !PG.ValidateLiteral(k.word, None) then [InvalidLiteral(k.word, k.originalPosition)]
        else if k.kind == Name && !PG.ValidateName(k.word) then [InvalidName(k.word, k.originalPosition)]
        else []
  {
  }

  // ---------------------------------------------------------------------
  // GetFunctionCallingArity
  // ---------------------------------------------------------------------

  /**
   * Where the arity scan over u (the keywords after "name(") stops: the
   * first index at which the depth relative to u's start is negative, or
   * the end of u.
   */
  function ScanEnd(u: seq<Keyword>, m: nat): (e: nat)
    requires m <= |u|
    requires forall l | 0 <= l < m :: TokenDepth(u, l) >= 0
    ensures m <= e <= |u|
    ensures forall l | 0 <= l < e :: TokenDepth(u, l) >= 0
    ensures e == |u| || TokenDepth(u, e) < 0
    decreases |u| - m
  {
    if m == |u| || TokenDepth(u, m) < 0 then m else ScanEnd(u, m + 1)
  }

  /** The separators among the first n keywords of u at relative depth zero. */
  function TopSeparators(u: seq<Keyword>, n: nat): (c: nat)
    requires n <= |u|
    ensures c <= n
  {
    if n == 0 then 0
    else TopSeparators(u, n - 1) + (if u[n - 1].kind == ArgumentSeparator && TokenDepth(u, n - 1) == 0 then 1 else 0)
  }

  /** The arity of a call whose argument list starts at u: 0 for "()", else top-level separators + 1. */
  function ArgumentCount(u: seq<Keyword>): nat
    requires |u| > 0
  {
    if u[0].kind == RightParenthesis then 0 else TopSeparators(u, ScanEnd(u, 0)) + 1
  }

  /** GetFunctionCallingArity for the name at index i. */
  function CallArity(ks: seq<Keyword>, i: nat): nat
    requires i + 2 < |ks|
  {
    ArgumentCount(ks[i + 2..])
  }

  /** "f()" has arity 0 and "f(x)" arity 1, whatever follows the call. */
  lemma SmallCallArities(f: Keyword, open: Keyword, x: Keyword, close: Keyword, rest: seq<Keyword>)
    requires open.kind == LeftParenthesis && close.kind == RightParenthesis
    requires x.kind == Name || x.kind == Literal
    ensures CallArity([f, open, close] + rest, 0) == 0
    ensures CallArity([f, open, x, close] + rest, 0) == 1
  {
    var u := ([f, open, x, close] + rest)[2..];
    assert u[0] == x && u[1] == close;
    assert TokenDepth(u, 1) == 0;
    assert TokenDepth(u, 2) == -1;
    assert ScanEnd(u, 0) == 2;
    assert TopSeparators(u, 1) == 0;
  }

  /** The scan stops at the first index whose depth falls below zero, or at the end. */
  lemma {:induction false} ScanEndAt(u: seq<Keyword>, m: nat, e: nat)
    requires m <= e <= |u| && forall l | 0 <= l < e :: TokenDepth(u, l) >= 0
    requires e == |u| || TokenDepth(u, e) < 0
    ensures ScanEnd(u, m) == e
    decreases e - m
  {
    if m < e {
      ScanEndAt(u, m + 1, e);
    }
  }

  /**
   * The example the source gives: in "f1(a, f2(b, c)) + f3(d, e)" the
   * separator inside f2's call is one level deeper and whatever follows
   * f1's closing parenthesis (here "+ f3(d, e)") comes after the scan has
   * stopped, so f1 has arity 2.
   */
  lemma NestedCallArity(f1: Keyword, f2: Keyword, a: Keyword, b: Keyword, c: Keyword,
                        open: Keyword, close: Keyword, comma: Keyword, rest: seq<Keyword>)
    requires open.kind == LeftParenthesis && close.kind == RightParenthesis && comma.kind == ArgumentSeparator
    requires a.kind == Name && b.kind == Name && c.kind == Name && f2.kind == Name
    ensures CallArity([f1, open, a, comma, f2, open, b, comma, c, close, close] + rest, 0) == 2
  {
    var ks := [f1, open, a, comma, f2, open, b, comma, c, close, close] + rest;
    var u := ks[2..];
    assert u[0] == a && u[1] == comma && u[2] == f2 && u[3] == open && u[4] == b;
    assert u[5] == comma && u[6] == c && u[7] == close && u[8] == close;
    assert TokenDepth(u, 1) == 0;
    assert TokenDepth(u, 2) == 0;
    assert TokenDepth(u, 3) == 0;
    assert TokenDepth(u, 4) == 1;
    assert TokenDepth(u, 5) == 1;
    assert TokenDepth(u, 6) == 1;
    assert TokenDepth(u, 7) == 1;
    assert TokenDepth(u, 8) == 0;
    assert TokenDepth(u, 9) == -1;
    ScanEndAt(u, 0, 9);
    assert TopSeparators(u, 1) == 0;
    assert TopSeparators(u, 2) == 1;
    assert TopSeparators(u, 9) == 1 by {
      assert TopSeparators(u, 3) == 1;
      assert TopSeparators(u, 4) == 1;
      assert TopSeparators(u, 5) == 1;
      assert TopSeparators(u, 6) == 1;
      assert TopSeparators(u, 7) == 1;
      assert TopSeparators(u, 8) == 1;
    }
  }

  // ---------------------------------------------------------------------
  // SpecifyNames and IsFunctionAtIndex
  // ---------------------------------------------------------------------

  predicate HasFunctionNamed(fs: seq<Function>, name: string)
  {
    exists f | f in fs :: f.name == name
  }

  predicate HasOverload(fs: seq<Function>, name: string, arity: nat)
  {
    exists f | f in fs :: f.name == name && f.Arity() == arity
  }

  predicate HasConstantNamed(cs: seq<Constant>, name: string)
  {
    exists c | c in cs :: c.name == name
  }

  /**
   * IsFunctionAtIndex: a name followed by '(' with at least one more
   * keyword, that is registered as a function or is called with an arity
   * other than 1 (an unknown "f(x)" is read as a value times a bracket).
   */
  predicate IsFunctionAt(fs: seq<Function>, ks: seq<Keyword>, i: nat)
    requires i < |ks|
  {
    ks[i].kind == Name && i + 2 < |ks| && ks[i + 1].kind == LeftParenthesis
    && (HasFunctionNamed(fs, ks[i].word) || CallArity(ks, i) != 1)
  }

  /** The subtype SpecifyNames gives the name at index i. */
  function NameSubtype(fs: seq<Function>, cs: seq<Constant>, ks: seq<Keyword>, i: nat): KeywordSubtype
    requires i < |ks|
  {
    if IsFunctionAt(fs, ks, i) then Function
    else if HasConstantNamed(cs, ks[i].word) then Constant
    else Argument
  }

  /** The keywords after SpecifyNames: every name gets its subtype, everything else is unchanged. */
  function SpecifiedNames(fs: seq<Function>, cs: seq<Constant>, ks: seq<Keyword>): (r: seq<Keyword>)
    ensures |r| == |ks|
    ensures forall i | 0 <= i < |ks| :: r[i].word == ks[i].word && r[i].kind == ks[i].kind
                                        && r[i].originalPosition == ks[i].originalPosition
    ensures forall i | 0 <= i < |ks| && ks[i].kind != Name :: r[i] == ks[i]
  {
    seq(|ks|, i requires 0 <= i < |ks| =>
      if ks[i].kind == Name then ks[i].(subtype := Some(NameSubtype(fs, cs, ks, i))) else ks[i])
  }

  /** Every function keyword is a name followed by '(' and at least one more keyword. */
  predicate CallsWellFormed(ks: seq<Keyword>)
  {
    forall i | 0 <= i < |ks| && ks[i].subtype == Some(Function) ::
      i + 2 < |ks| && ks[i].kind == Name && ks[i + 1].kind == LeftParenthesis
  }

  predicate NoSubtypes(ks: seq<Keyword>)
  {
    forall i | 0 <= i < |ks| :: ks[i].subtype.None?
  }

  predicate IsOperatorSubtype(st: Option<KeywordSubtype>)
  {
    st == Some(PrefixOperator) || st == Some(InfixOperator) || st == Some(PostfixOperator)
  }

  /**
   * On the lexer's keywords (no subtypes yet) SpecifyNames gives every name
   * a subtype and nothing else one, and makes the calls well formed: a
   * function keyword is always followed by its '(' and one more keyword.
   */
  lemma SpecifiedNamesShape(fs: seq<Function>, cs: seq<Constant>, ks: seq<Keyword>)
    requires NoSubtypes(ks)
    ensures CallsWellFormed(SpecifiedNames(fs, cs, ks))
    ensures forall i | 0 <= i < |ks| :: SpecifiedNames(fs, cs, ks)[i].subtype.Some? <==> ks[i].kind == Name
    ensures forall i | 0 <= i < |ks| :: !IsOperatorSubtype(SpecifiedNames(fs, cs, ks)[i].subtype)
  {
    var r := SpecifiedNames(fs, cs, ks);
    forall i | 0 <= i < |ks| && r[i].subtype == Some(Function)
      ensures i + 2 < |r| && r[i].kind == Name && r[i + 1].kind == LeftParenthesis
    {
      assert ks[i].kind == Name;
      assert IsFunctionAt(fs, ks, i);
    }
  }

  /**
   * How a name is classified: a function exactly when it is followed by
   * '(' and one more keyword and is registered or not called with one
   * argument; otherwise a constant exactly when a constant has that name;
   * otherwise an argument. In particular an unknown name applied to one
   * argument, "f(x)", is an argument.
   */
  lemma NameClassification(fs: seq<Function>, cs: seq<Constant>, ks: seq<Keyword>, i: nat)
    requires i < |ks| && ks[i].kind == Name
    ensures var st := SpecifiedNames(fs, cs, ks)[i].subtype;
      (st == Some(Function) <==>
         i + 2 < |ks| && ks[i + 1].kind == LeftParenthesis && (HasFunctionNamed(fs, ks[i].word) || CallArity(ks, i) != 1))
      && (st == Some(Constant) <==> st != Some(Function) && HasConstantNamed(cs, ks[i].word))
      && (st == Some(Argument) <==> st != Some(Function) && !HasConstantNamed(cs, ks[i].word))
    ensures !HasFunctionNamed(fs, ks[i].word) && !HasConstantNamed(cs, ks[i].word)
            && i + 2 < |ks| && ks[i + 1].kind == LeftParenthesis && CallArity(ks, i) == 1
            ==> SpecifiedNames(fs, cs, ks)[i].subtype == Some(Argument)
  {
  }

  // ---------------------------------------------------------------------
  // ValidateFunctions
  // ---------------------------------------------------------------------

  /** The error ValidateFunctions reports for the keyword at index i, if any. */
  function FunctionError(fs: seq<Function>, ks: seq<Keyword>, i: nat): (r: seq<Error>)
    requires i < |ks| && CallsWellFormed(ks)
    ensures |r| <= 1
  {
    if ks[i].subtype != Some(Function) then []
    else if !HasFunctionNamed(fs, ks[i].word) then [UndefinedFunction(ks[i].word, ks[i].originalPosition)]
    else if !HasOverload(fs, ks[i].word, CallArity(ks, i)) then
      [InvalidFunctionCalling(ks[i].word, ks[i].originalPosition, CallArity(ks, i))]
    else []
  }

  /** The errors of ValidateFunctions over the first n keywords. */
  function FunctionErrors(fs: seq<Function>, ks: seq<Keyword>, n: nat): (r: seq<Error>)
    requires n <= |ks| && CallsWellFormed(ks)
    ensures |r| <= n
    ensures forall e | e in r :: e.UndefinedFunction? || e.InvalidFunctionCalling?
  {
    if n == 0 then [] else FunctionErrors(fs, ks, n - 1) + FunctionError(fs, ks, n - 1)
  }

  /** ValidateFunctions passes exactly when every function keyword has an overload of the arity it is called with. */
  lemma {:induction false} FunctionErrorsIff(fs: seq<Function>, ks: seq<Keyword>, n: nat)
    requires n <= |ks| && CallsWellFormed(ks)
    ensures FunctionErrors(fs, ks, n) == [] <==>
      forall i | 0 <= i < n && ks[i].subtype == Some(Function) :: HasOverload(fs, ks[i].word, CallArity(ks, i))
  {
    if n > 0 {
      FunctionErrorsIff(fs, ks, n - 1);
      if ks[n - 1].subtype == Some(Function) && HasOverload(fs, ks[n - 1].word, CallArity(ks, n - 1)) {
        var f :| f in fs && f.name == ks[n - 1].word && f.Arity() == CallArity(ks, n - 1);
        assert HasFunctionNamed(fs, ks[n - 1].word);
      }
    }
  }

  /**
   * After SpecifyNames, UndefinedFunction is reported for exactly the
   * unregistered names called with zero or several arguments; a registered
   * name called with an arity it has no overload for gets
   * InvalidFunctionCalling instead.
   */
  lemma UndefinedFunctionsAfterSpecifyNames(fs: seq<Function>, cs: seq<Constant>, ks: seq<Keyword>, i: nat)
    requires NoSubtypes(ks) && i < |ks|
    ensures CallsWellFormed(SpecifiedNames(fs, cs, ks))
    ensures var r := SpecifiedNames(fs, cs, ks);
      FunctionError(fs, r, i) == [UndefinedFunction(ks[i].word, ks[i].originalPosition)] <==>
        ks[i].kind == Name && i + 2 < |ks| && ks[i + 1].kind == LeftParenthesis
        && !HasFunctionNamed(fs, ks[i].word) && CallArity(ks, i) != 1
  {
    SpecifiedNamesShape(fs, cs, ks);
  }
}

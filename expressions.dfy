// Expression: a parsed operation together with its formatted string, and
// the two ways of evaluating it.
module Expressions {
  import opened Wrappers
  import opened Domains
  import opened Errors
  import opened Operations

  /** An Expression never changes after construction: the string and the operation state. */
  datatype Expression = Expression(expressionString: string, op: OpState)

  /** The internal constructor: SetSourceIfValid on a fresh operation, then the string. */
  method NewExpression(expressionString: string, source: Source, arguments: seq<string>,
                       argumentTypes: seq<ValueDomain>, outputType: ValueDomain) returns (e: Expression)
    ensures e.expressionString == expressionString
    ensures IsValidSignature(arguments, argumentTypes) ==> e.op == OpState(source, arguments, argumentTypes, outputType)
    ensures !IsValidSignature(arguments, argumentTypes) ==> e.op == InitialState()
    ensures e.op.Valid()
  {
    var o := new Operation();
    o.SetSourceIfValid(source, arguments, argumentTypes, outputType);
    e := Expression(expressionString, o.State());
  }

  /** Every argument lies in the domain its position declares. */
  predicate ArgumentsFit(arguments: seq<Num>, types: seq<ValueDomain>)
    requires |arguments| <= |types|
  {
    forall i | 0 <= i < |arguments| :: CheckIfValueBelongsToType(arguments[i], types[i])
  }

  /** What Calculate yields: the arity check, then the domain check of each argument, then the delegate. */
  function Calculation(e: Expression, arguments: seq<Num>): (r: Result<Num, Error>)
    requires e.op.Valid()
    ensures |arguments| != e.op.Arity() ==> r == Err(ArityMismatch(e.op.Arity()))
    ensures |arguments| == e.op.Arity() && !ArgumentsFit(arguments, e.op.argumentTypes)
            ==> r == Err(SignatureMismatch(arguments, e.op.argumentTypes))
    ensures r.Ok? <==> |arguments| == e.op.Arity() && ArgumentsFit(arguments, e.op.argumentTypes)
    ensures r.Ok? ==> r.value == e.op.source(arguments)
  {
    if |arguments| != e.op.Arity() then Err(ArityMismatch(e.op.Arity()))
    else if exists i | 0 <= i < |arguments| :: !CheckIfValueBelongsToType(arguments[i], e.op.argumentTypes[i]) then
      Err(SignatureMismatch(arguments, e.op.argumentTypes))
    else Ok(e.op.source(arguments))
  }

  /** What TryCalculate yields: the same checks, reported as false with result 0 instead of an exception. */
  function TryCalculation(e: Expression, arguments: seq<Num>): (r: (bool, Num))
    requires e.op.Valid()
    ensures !r.0 ==> r.1 == Finite(0.0)
  {
    if |arguments| != e.op.Arity() then (false, Finite(0.0))
    else if exists i | 0 <= i < |arguments| :: !CheckIfValueBelongsToType(arguments[i], e.op.argumentTypes[i]) then (false, Finite(0.0))
    else (true, e.op.source(arguments))
  }

  /** Calculate: the arity check, then the loop over the arguments, stopping at the first outside its domain. */
  method Calculate(e: Expression, arguments: seq<Num>) returns (r: Result<Num, Error>)
    requires e.op.Valid()
    ensures r == Calculation(e, arguments)
  {
    if |arguments| != e.op.Arity() {
      return Err(ArityMismatch(e.op.Arity()));
    }
    for i := 0 to |arguments|
      invariant ArgumentsFit(arguments[..i], e.op.argumentTypes)
    {
      if !CheckIfValueBelongsToType(arguments[i], e.op.argumentTypes[i]) {
        return Err(SignatureMismatch(arguments, e.op.argumentTypes));
      }
    }
    assert arguments[..|arguments|] == arguments;
    return Ok(e.op.source(arguments));
  }

  /** TryCalculate: result 0 and false on a failed check, the delegate's value and true otherwise. */
  method TryCalculate(e: Expression, arguments: seq<Num>) returns (ok: bool, result: Num)
    requires e.op.Valid()
    ensures (ok, result) == TryCalculation(e, arguments)
  {
    result := Finite(0.0);
    if |arguments| != e.op.Arity() {
      return false, result;
    }
    for i := 0 to |arguments|
      invariant ArgumentsFit(arguments[..i], e.op.argumentTypes)
    {
      if !CheckIfValueBelongsToType(arguments[i], e.op.argumentTypes[i]) {
        return false, result;
      }
    }
    assert arguments[..|arguments|] == arguments;
    result := e.op.source(arguments);
    return true, result;
  }

  /** TryCalculate succeeds exactly when Calculate does not raise, and then yields the same value. */
  lemma TryCalculateAgreesWithCalculate(e: Expression, arguments: seq<Num>)
    requires e.op.Valid()
    ensures TryCalculation(e, arguments).0 <==> Calculation(e, arguments).Ok?
    ensures Calculation(e, arguments).Ok? ==> TryCalculation(e, arguments).1 == Calculation(e, arguments).value
  {
  }

  /** A Boolean argument outside {0, 1} is refused even when the arity is right. */
  lemma BooleanArgumentMustBeZeroOrOne(e: Expression)
    requires e.op.Valid() && e.op.argumentTypes == [Boolean]
    ensures Calculation(e, [Finite(2.0)]) == Err(SignatureMismatch([Finite(2.0)], [Boolean]))
    ensures Calculation(e, [Finite(1.0)]).Ok? && Calculation(e, []) == Err(ArityMismatch(1))
  {
    assert !CheckIfValueBelongsToType([Finite(2.0)][0], e.op.argumentTypes[0]);
  }
}

// The state every operation (operator, function, expression) carries: its
// source delegate, argument names and types, and output type; and the guard
// SetSourceIfValid uses before it installs a signature.
module Operations {
  import opened Domains
  import opened Seqs
  import ParserGlobal

  /** The compiled delegate Func<double[], double>. */
  type Source = seq<Num> -> Num

  /** The default delegate of a fresh operation returns NaN. */
  function NaNSource(): Source
  {
    (arguments: seq<Num>) => NaN
  }

  /**
   * The numeric delegates of MathSource, FunctionSource and OperatorSource
   * are not part of this model; every built-in operation carries this
   * placeholder. No property proved here depends on it.
   */
  function MathSourceDelegate(): Source
  {
    NaNSource()
  }

  /** The values of Operation's four private fields. */
  datatype OpState = OpState(source: Source, arguments: seq<string>, argumentTypes: seq<ValueDomain>, outputType: ValueDomain)
  {
    function Arity(): nat { |arguments| }

    /** What every reachable state satisfies: the signature passes the guard of SetSourceIfValid. */
    predicate Valid() { IsValidSignature(arguments, argumentTypes) }
  }

  /** A fresh operation: no arguments, Double output, NaN delegate. */
  function InitialState(): OpState
  {
    OpState(NaNSource(), [], [], Double)
  }

  /** What SetSourceIfValid demands: one type per argument, no repeated name, every name valid. */
  predicate IsValidSignature(arguments: seq<string>, argumentTypes: seq<ValueDomain>)
  {
    |arguments| == |argumentTypes| && NoDuplicates(arguments)
    && forall i | 0 <= i < |arguments| :: ParserGlobal.ValidateName(arguments[i])
  }

  /**
   * The state after SetSourceIfValid: the new signature and delegate when the
   * guard holds, the old state untouched otherwise.
   */
  function SetSourceIfValidResult(st: OpState, source: Source, arguments: seq<string>, argumentTypes: seq<ValueDomain>, outputType: ValueDomain): (r: OpState)
    ensures IsValidSignature(arguments, argumentTypes) ==> r == OpState(source, arguments, argumentTypes, outputType)
    ensures !IsValidSignature(arguments, argumentTypes) ==> r == st
  {
    DistinctKeepsLengthIff(arguments);
    if |arguments| != |argumentTypes| then st
    else if |arguments| != 0 && |Distinct(arguments)| != |argumentTypes| then st
    else if exists i | 0 <= i < |arguments| :: !ParserGlobal.ValidateName(arguments[i]) then st
    else OpState(source, arguments, argumentTypes, outputType)
  }

  /** Every state an operation can reach is valid, so Arity == |Arguments| == |ArgumentTypes| throughout. */
  lemma SetSourceIfValidKeepsValid(st: OpState, source: Source, arguments: seq<string>, argumentTypes: seq<ValueDomain>, outputType: ValueDomain)
    requires st.Valid()
    ensures InitialState().Valid()
    ensures SetSourceIfValidResult(st, source, arguments, argumentTypes, outputType).Valid()
    ensures SetSourceIfValidResult(st, source, arguments, argumentTypes, outputType).Arity()
         == |SetSourceIfValidResult(st, source, arguments, argumentTypes, outputType).argumentTypes|
  {
  }

  /** Operation: the mutable base object. Its setters are private; SetSourceIfValid and SetSource are the only writers. */
  class Operation {
    var source: Source
    var arguments: seq<string>
    var argumentTypes: seq<ValueDomain>
    var outputType: ValueDomain

    function State(): OpState
      reads this
    {
      OpState(source, arguments, argumentTypes, outputType)
    }

    constructor ()
      ensures State() == InitialState()
    {
      source := NaNSource();
      arguments := [];
      argumentTypes := [];
      outputType := Double;
    }

    function Arity(): (n: nat)
      reads this
      ensures n == State().Arity()
    {
      |arguments|
    }

    /** The Arguments getter: a fresh copy, so a caller cannot reach the private array. */
    method GetArguments() returns (r: array<string>)
      ensures fresh(r) && r[..] == arguments
    {
      r := new string[|arguments|];
      var i := 0;
      while i < |arguments|
        invariant 0 <= i <= |arguments|
        invariant forall k | 0 <= k < i :: r[k] == arguments[k]
      {
        r[i] := arguments[i];
        i := i + 1;
      }
    }

    /** The ArgumentTypes getter: a fresh copy. */
    method GetArgumentTypes() returns (r: array<ValueDomain>)
      ensures fresh(r) && r[..] == argumentTypes
    {
      r := new ValueDomain[|argumentTypes|];
      var i := 0;
      while i < |argumentTypes|
        invariant 0 <= i <= |argumentTypes|
        invariant forall k | 0 <= k < i :: r[k] == argumentTypes[k]
      {
        r[i] := argumentTypes[i];
        i := i + 1;
      }
    }

    /** SetSourceIfValid: returns early on a failed guard, otherwise installs all four fields. */
    method SetSourceIfValid(newSource: Source, newArguments: seq<string>, newArgumentTypes: seq<ValueDomain>, newOutputType: ValueDomain)
      modifies this
      ensures State() == SetSourceIfValidResult(old(State()), newSource, newArguments, newArgumentTypes, newOutputType)
    {
      if |newArguments| != |newArgumentTypes| {
        return;
      }
      DistinctKeepsLengthIff(newArguments);
      if |newArguments| != 0 && |Distinct(newArguments)| != |newArgumentTypes| {
        return;
      }
      var i := 0;
      while i < |newArguments|
        invariant 0 <= i <= |newArguments|
        invariant forall k | 0 <= k < i :: ParserGlobal.ValidateName(newArguments[k])
      {
        if !ParserGlobal.ValidateName(newArguments[i]) {
          return;
        }
        i := i + 1;
      }
      source := newSource;
      arguments := newArguments;
      argumentTypes := newArgumentTypes;
      outputType := newOutputType;
    }

    /** SetSource: copies the four fields of another operation. */
    method SetSource(other: Operation)
      modifies this
      ensures State() == old(other.State())
    {
      source, arguments, argumentTypes, outputType := other.source, other.arguments, other.argumentTypes, other.outputType;
    }
  }

  /** A guard that fails leaves the operation as it was; one that passes makes the new signature readable back. */
  lemma SetSourceIfValidExamples(st: OpState, src: Source)
    ensures SetSourceIfValidResult(st, src, ["x", "x"], [Double, Double], Boolean) == st
    ensures SetSourceIfValidResult(st, src, ["x"], [Double, Double], Boolean) == st
    ensures SetSourceIfValidResult(st, src, ["1x"], [Double], Boolean) == st
    ensures SetSourceIfValidResult(st, src, ["x", "y"], [Double, Boolean], Boolean).Arity() == 2
  {
    assert !NoDuplicates(["x", "x"]) by { assert ["x", "x"][0] == ["x", "x"][1]; }
    assert !ParserGlobal.ValidateName(["1x"][0]);
  }
}

// Typization: Validate the tree, then let the handler fix the arguments
// whose uses required a type, and repeat while that fixed something new.
// Arguments still unfixed and an output type still open fall back to the
// parser's default type.
module Typization {
  import opened Wrappers
  import opened Domains
  import opened Errors
  import opened Seqs
  import opened TypizationHandler
  import opened SyntaxNodes

  /** The tree, the handler's two dictionaries and the errors when the loop stops. */
  datatype Stopped = Stopped(node: Node, types: Types, reqs: Requirements, errors: seq<Error>)

  /**
   * The do-while loop from a given state. A pass whose validation or refresh
   * reports errors stops with them; a refresh that fixes nothing stops
   * cleanly; otherwise one more argument is fixed and the loop goes on.
   */
  function TypizeFrom(v: Version, n: Node, names: seq<string>, types: Types, reqs: Requirements): (r: Stopped)
    requires Ready(n) && Arguments(n) <= types.Keys && Arguments(n) <= reqs.Keys && Known(names, types, reqs)
    ensures r.types.Keys == types.Keys && r.reqs.Keys == reqs.Keys && Arguments(r.node) == Arguments(n)
    ensures r.errors == [] ==> Full(r.node)
    decreases |Unresolved(names, types)|
  {
    var checked := Validate(v, n, types, reqs);
    if checked.errors != [] then Stopped(checked.node, types, checked.reqs, checked.errors)
    else
      var refreshed := RefreshUpTo(names, types, checked.reqs, |names|);
      if refreshed.errors != [] then Stopped(checked.node, refreshed.types, checked.reqs, refreshed.errors)
      else if !refreshed.changed then Stopped(checked.node, refreshed.types, checked.reqs, [])
      else
        RefreshResolves(names, types, checked.reqs);
        FullIsReady(checked.node);
        TypizeFrom(v, checked.node, names, refreshed.types, checked.reqs)
  }

  /** The results of Typization: its verdict, the argument types, the output type and the errors. */
  datatype Typing = Typing(ok: bool, argumentTypes: seq<ValueDomain>, outputType: ValueDomain, errors: seq<Error>)

  /** What an unfixed type falls back to. */
  function OrDefault(t: Option<ValueDomain>, defaultType: ValueDomain): ValueDomain
  {
    if t.Some? then t.value else defaultType
  }

  function Typize(v: Version, n: Node, argumentNames: seq<string>, defaultType: ValueDomain): (r: Typing)
    requires Ready(n) && Arguments(n) <= set x | x in argumentNames
    ensures |r.argumentTypes| == |argumentNames|
    ensures r.ok <==> r.errors == []
    ensures !r.ok ==> r.outputType == defaultType
  {
    var names := Distinct(argumentNames);
    var s := TypizeFrom(v, n, names, NoTypes(argumentNames), NoRequirements(argumentNames));
    var types := seq(|argumentNames|, i requires 0 <= i < |argumentNames| => OrDefault(s.types[argumentNames[i]], defaultType));
    if s.errors == [] then Typing(true, types, OrDefault(OutputType(s.node, s.types), defaultType), [])
    else Typing(false, types, defaultType, s.errors)
  }

  // ---------------------------------------------------------------------
  // What the loop settles
  // ---------------------------------------------------------------------

  /** The errors Typization can report: a node no signature fits, or an argument whose uses disagree. */
  predicate TypingErrors(errors: seq<Error>)
  {
    forall e | e in errors ::
      e.OperatorTypizationError? || e.FunctionTypizationError? || e.InsertedMultiplicationTypizationError?
      || e.ArgumentTypizationError?
  }

  /**
   * Requirements only grow; a type once fixed is never changed; a type the
   * loop fixes is the first type the argument's uses required; and when the
   * loop stops without errors, every argument left unfixed had no use that
   * required a type.
   */
  lemma {:induction false} TypizeFacts(v: Version, n: Node, names: seq<string>, types: Types, reqs: Requirements)
    requires Ready(n) && Arguments(n) <= types.Keys && Arguments(n) <= reqs.Keys && Known(names, types, reqs)
    ensures var r := TypizeFrom(v, n, names, types, reqs);
      Grows(reqs, r.reqs) && TypingErrors(r.errors)
      && (forall x | x in types && types[x].Some? :: r.types[x] == types[x])
      && (forall x | x in names && types[x].None? && r.types[x].Some? :: r.reqs[x] != [] && r.types[x] == Some(r.reqs[x][0]))
      && (r.errors == [] ==> forall x | x in names && r.types[x].None? :: r.reqs[x] == [])
    decreases |Unresolved(names, types)|
  {
    var checked := Validate(v, n, types, reqs);
    ValidateFacts(v, n, types, reqs);
    if checked.errors == [] {
      var refreshed := RefreshUpTo(names, types, checked.reqs, |names|);
      RefreshFacts(names, types, checked.reqs);
      if refreshed.errors == [] && refreshed.changed {
        RefreshResolves(names, types, checked.reqs);
        FullIsReady(checked.node);
        TypizeFacts(v, checked.node, names, refreshed.types, checked.reqs);
        var r := TypizeFrom(v, checked.node, names, refreshed.types, checked.reqs);
        forall x | x in names && types[x].None? && r.types[x].Some?
          ensures r.reqs[x] != [] && r.types[x] == Some(r.reqs[x][0])
        {
          if refreshed.types[x].Some? {
            assert checked.reqs[x] <= r.reqs[x];
          }
        }
      }
    }
  }

  /**
   * When Typization succeeds, each argument gets the first type its uses
   * required, and the default type exactly when no use required one; on
   * failure every error is a typing error.
   */
  lemma TypizeSettlesArguments(v: Version, n: Node, argumentNames: seq<string>, defaultType: ValueDomain)
    requires Ready(n) && Arguments(n) <= set x | x in argumentNames
    ensures var s := TypizeFrom(v, n, Distinct(argumentNames), NoTypes(argumentNames), NoRequirements(argumentNames));
      var r := Typize(v, n, argumentNames, defaultType);
      TypingErrors(r.errors)
      && (r.ok ==> forall i | 0 <= i < |argumentNames| ::
            r.argumentTypes[i] == if s.reqs[argumentNames[i]] != [] then s.reqs[argumentNames[i]][0] else defaultType)
  {
    var names := Distinct(argumentNames);
    TypizeFacts(v, n, names, NoTypes(argumentNames), NoRequirements(argumentNames));
  }

  // ---------------------------------------------------------------------
  // The loop itself
  // ---------------------------------------------------------------------

  /**
   * One pass of the do-while loop: validate the tree, then refresh the
   * handler. A pass either stops the loop where TypizeFrom stops, or fixes
   * at least one more argument and leaves the rest of the loop unchanged.
   */
  method TypizationPass(v: Version, node: Node, h: ArgumentTypizationHandler) returns (stop: bool, m: Node, errors: seq<Error>)
    requires h.Valid() && Ready(node) && Arguments(node) <= h.types.Keys && Arguments(node) <= h.requirements.Keys
    modifies h
    ensures h.Valid()
    ensures stop ==> Stopped(m, h.types, h.requirements, errors) == TypizeFrom(v, node, h.names, old(h.types), old(h.requirements))
    ensures !stop ==>
      errors == [] && Ready(m) && Arguments(m) <= h.types.Keys && Arguments(m) <= h.requirements.Keys
      && |Unresolved(h.names, h.types)| < |Unresolved(h.names, old(h.types))|
      && TypizeFrom(v, m, h.names, h.types, h.requirements) == TypizeFrom(v, node, h.names, old(h.types), old(h.requirements))
  {
    ghost var types0 := h.types;
    var valid;
    valid, m, errors := ValidateNode(v, node, h);
    if !valid {
      return true, m, errors;
    }
    ghost var reqs1 := h.requirements;
    var refreshed, changed;
    refreshed, changed, errors := h.RefreshArgumentTypes();
    RefreshResolves(h.names, types0, reqs1);
    FullIsReady(m);
    stop := !refreshed || !changed;
  }

  /** The do-while loop of Parser.Typization: passes until one stops it. */
  method TypizationLoop(v: Version, tree: Node, h: ArgumentTypizationHandler) returns (node: Node, errors: seq<Error>)
    requires h.Valid() && Ready(tree) && Arguments(tree) <= h.types.Keys && Arguments(tree) <= h.requirements.Keys
    modifies h
    ensures h.Valid()
    ensures Stopped(node, h.types, h.requirements, errors) == TypizeFrom(v, tree, h.names, old(h.types), old(h.requirements))
  {
    ghost var goal := TypizeFrom(v, tree, h.names, h.types, h.requirements);
    node := tree;
    var stop := false;
    errors := [];
    while !stop
      invariant h.Valid()
      invariant !stop ==> errors == [] && Ready(node) && Arguments(node) <= h.types.Keys && Arguments(node) <= h.requirements.Keys
                          && TypizeFrom(v, node, h.names, h.types, h.requirements) == goal
      invariant stop ==> Stopped(node, h.types, h.requirements, errors) == goal
      decreases !stop, |Unresolved(h.names, h.types)|
    {
      var errs;
      stop, node, errs := TypizationPass(v, node, h);
      errors := errors + errs;
    }
  }

  /** Each argument's type as the handler holds it, or the default type where it is not fixed. */
  method ReadArgumentTypes(h: ArgumentTypizationHandler, argumentNames: seq<string>, defaultType: ValueDomain)
    returns (argumentTypes: seq<ValueDomain>)
    requires forall i | 0 <= i < |argumentNames| :: argumentNames[i] in h.types
    ensures |argumentTypes| == |argumentNames|
    ensures forall i | 0 <= i < |argumentNames| :: argumentTypes[i] == OrDefault(h.types[argumentNames[i]], defaultType)
  {
    argumentTypes := [];
    for i := 0 to |argumentNames|
      invariant |argumentTypes| == i
      invariant forall j | 0 <= j < i :: argumentTypes[j] == OrDefault(h.types[argumentNames[j]], defaultType)
    {
      var t := h.GetArgumentType(argumentNames[i]);
      argumentTypes := argumentTypes + [OrDefault(t, defaultType)];
    }
  }

  /**
   * Parser.Typization: the loop, then the argument types and, when there
   * were no errors, the tree's output type, each falling back to the
   * default type.
   */
  method RunTypization(v: Version, tree: Node, argumentNames: seq<string>, defaultType: ValueDomain)
    returns (ok: bool, argumentTypes: seq<ValueDomain>, outputType: ValueDomain, errors: seq<Error>)
    requires Ready(tree) && Arguments(tree) <= set x | x in argumentNames
    ensures Typing(ok, argumentTypes, outputType, errors) == Typize(v, tree, argumentNames, defaultType)
  {
    var h, node;
    h, node, errors := Settle(v, tree, argumentNames);
    argumentTypes := ReadArgumentTypes(h, argumentNames, defaultType);
    outputType := ReadOutputType(node, h, errors, defaultType);
    ok := errors == [];
  }

  /** A new handler over the argument names, and the loop run to its end. */
  method Settle(v: Version, tree: Node, argumentNames: seq<string>) returns (h: ArgumentTypizationHandler, node: Node, errors: seq<Error>)
    requires Ready(tree) && Arguments(tree) <= set x | x in argumentNames
    ensures forall i | 0 <= i < |argumentNames| :: argumentNames[i] in h.types
    ensures Stopped(node, h.types, h.requirements, errors)
         == TypizeFrom(v, tree, Distinct(argumentNames), NoTypes(argumentNames), NoRequirements(argumentNames))
  {
    h := new ArgumentTypizationHandler(argumentNames);
    node, errors := TypizationLoop(v, tree, h);
  }

  /** The tree's output type when the loop ended without errors, else the default type. */
  method ReadOutputType(node: Node, h: ArgumentTypizationHandler, errors: seq<Error>, defaultType: ValueDomain)
    returns (outputType: ValueDomain)
    requires errors == [] ==> Full(node) && Arguments(node) <= h.types.Keys
    ensures outputType == if errors == [] then OrDefault(OutputType(node, h.types), defaultType) else defaultType
  {
    if errors == [] {
      var t := GetOutputType(node, h);
      outputType := OrDefault(t, defaultType);
    } else {
      outputType := defaultType;
    }
  }
}

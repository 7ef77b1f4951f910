// Parser: runs the syntax analyzer, builds the typing tree from its
// keywords, types the tree (unless typization is switched off) and wraps
// the compiled tree in an Expression. Parse raises the errors; TryParse
// only reports whether it worked. An exception other than the ones Process
// collects (a failed First, an index out of range) escapes both.
module Parsing {
  import opened Wrappers
  import opened Domains
  import opened Errors
  import opened Keywords
  import opened Seqs
  import opened Operations
  import opened Expressions
  import opened SyntaxNodes
  import opened Typization
  import Text
  import ParserGlobal
  import Operators
  import MathCollections
  import Functions
  import OperatorSplit
  import OperatorContexts
  import Analyzer
  import Building
  import Brackets
  import Splitting
  import Nesting

  // ---------------------------------------------------------------------
  // Process, Parse and TryParse as functions of the input
  // ---------------------------------------------------------------------

  /** The symbol lists CreateAnalyzer hands the analyzer: each partition's symbols, in order. */
  function AnalyzerSets(ops: seq<Operators.Operator>): OperatorContexts.SymbolSets
  {
    OperatorContexts.SymbolSets(
      MathCollections.Symbols(MathCollections.PrefixOperators(ops)),
      MathCollections.Symbols(MathCollections.InfixOperators(ops)),
      MathCollections.Symbols(MathCollections.PostfixOperators(ops)))
  }

  /** The parser's settings that Process reads, with the node implementation the build uses. */
  datatype Settings = Settings(version: Version, defaultType: ValueDomain, enableTypization: bool)

  /** What Process ends with: an expression, the errors it collected, or an exception that escapes. */
  datatype Outcome = Parsed(expression: Expression) | Failed(errors: seq<Error>) | Crashed

  /** The Expression constructor: the signature is installed only when it passes the guard. */
  function ExpressionOf(expressionString: string, source: Source, arguments: seq<string>,
                        argumentTypes: seq<ValueDomain>, outputType: ValueDomain): (e: Expression)
    ensures e.expressionString == expressionString && e.op.Valid()
    ensures IsValidSignature(arguments, argumentTypes) ==> e.op == OpState(source, arguments, argumentTypes, outputType)
  {
    SetSourceIfValidKeepsValid(InitialState(), source, arguments, argumentTypes, outputType);
    Expression(expressionString, SetSourceIfValidResult(InitialState(), source, arguments, argumentTypes, outputType))
  }

  /** The typing Process uses when typization is switched off: every type is the default. */
  function Untyped(argumentNames: seq<string>, defaultType: ValueDomain): (r: Typing)
    ensures r.ok && r.errors == [] && |r.argumentTypes| == |argumentNames| && r.outputType == defaultType
    ensures forall i | 0 <= i < |r.argumentTypes| :: r.argumentTypes[i] == defaultType
  {
    Typing(true, seq(|argumentNames|, _ => defaultType), defaultType, [])
  }

  /** The argument keywords the tree may name are among the analyzer's argument names. */
  lemma NamedArgumentsAreListed(ks: seq<Keyword>)
    ensures Building.NamedArguments(ks) <= set x | x in Analyzer.ArgumentNames(ks)
  {
    Analyzer.ArgumentNamesAreTheArguments(ks);
    forall w | w in Building.NamedArguments(ks) ensures w in Analyzer.ArgumentNames(ks) {
      var k :| k in ks && k.kind == Name && k.subtype == Some(Argument) && k.word == w;
      var i :| 0 <= i < |ks| && ks[i] == k;
    }
  }

  /** A tree the build yields is ready for typing, and every argument it names is one of the analyzer's argument names. */
  lemma BuiltTreeIsReady(ks: seq<Keyword>, reg: Building.Registry, tree: Node)
    requires Building.WellFormed(reg) && Building.Build(ks, reg) == Building.Tree(tree)
    ensures Ready(tree) && Arguments(tree) <= set x | x in Analyzer.ArgumentNames(ks)
  {
    Building.BuildIsSound(ks, reg);
    FullIsReady(tree);
    NamedArgumentsAreListed(ks);
  }

  /**
   * Process: the analyzer's errors; an exception from the build; the
   * "Unmanaged error" when the build yields no tree; the typization errors;
   * otherwise the expression over the formatted string and the compiled tree.
   */
  function Processed(st: Settings, reg: Building.Registry, compile: Node -> Source, s: string): (r: Outcome)
    requires OperatorContexts.ValidSets(AnalyzerSets(reg.operators)) && Building.WellFormed(reg)
  {
    var a := Analyzer.Analyze(reg.functions, reg.constants, AnalyzerSets(reg.operators), s);
    if !a.ok then Failed(a.errors)
    else
      match Building.Build(a.keywords, reg)
      case Thrown => Crashed
      case Null => Failed([UnmanagedError])
      case Tree(tree) =>
        BuiltTreeIsReady(a.keywords, reg, tree);
        Finished(st, compile, tree, a.argumentNames, a.formatted)
  }

  /** The rest of Process once a tree was built: the typing, then its errors or the expression. */
  function Finished(st: Settings, compile: Node -> Source, tree: Node, argumentNames: seq<string>, formatted: string): (r: Outcome)
    requires Ready(tree) && Arguments(tree) <= set x | x in argumentNames
    ensures !r.Crashed?
    ensures r.Failed? ==> st.enableTypization && r.errors != []
    ensures r.Parsed? ==> r.expression.expressionString == formatted && r.expression.op.Valid()
  {
    var typing :=
      if st.enableTypization then Typize(st.version, tree, argumentNames, st.defaultType)
      else Untyped(argumentNames, st.defaultType);
    if !typing.ok then Failed(typing.errors)
    else Parsed(ExpressionOf(formatted, compile(tree), argumentNames, typing.argumentTypes, typing.outputType))
  }

  /** What a call of Parse or TryParse does: return, raise one of the library's errors, or let an exception escape. */
  datatype Call<T> = Returned(value: T) | Raised(error: Error) | Escaped

  /** Parse: a single error is raised as it is, several are wrapped in one. */
  function ParseResult(o: Outcome, s: string): Call<Expression>
  {
    match o
    case Parsed(e) => Returned(e)
    case Failed(errors) => Raised(if |errors| == 1 then errors[0] else SeveralErrorsWhileParsing(s, errors))
    case Crashed => Escaped
  }

  /** TryParse: whether Process succeeded, and the expression it produced. */
  function TryParseResult(o: Outcome): Call<(bool, Option<Expression>)>
  {
    match o
    case Parsed(e) => Returned((true, Some(e)))
    case Failed(_) => Returned((false, None))
    case Crashed => Escaped
  }

  // ---------------------------------------------------------------------
  // What Process promises
  // ---------------------------------------------------------------------

  /** A failure always carries at least one error, so Parse always has something to raise. */
  lemma ProcessFailuresCarryErrors(st: Settings, reg: Building.Registry, compile: Node -> Source, s: string)
    requires OperatorContexts.ValidSets(AnalyzerSets(reg.operators)) && Building.WellFormed(reg)
    ensures Processed(st, reg, compile, s).Failed? ==> Processed(st, reg, compile, s).errors != []
  {
  }

  /**
   * Parse and TryParse agree: TryParse succeeds with e exactly when Parse
   * returns e, fails exactly when Parse raises, and an exception escapes
   * both or neither.
   */
  lemma ParseAgreesWithTryParse(o: Outcome, s: string)
    ensures forall e :: TryParseResult(o) == Returned((true, Some(e))) <==> ParseResult(o, s) == Returned(e)
    ensures TryParseResult(o) == Returned((false, None)) <==> ParseResult(o, s).Raised?
    ensures TryParseResult(o).Escaped? <==> ParseResult(o, s).Escaped?
    ensures TryParseResult(o).Returned? ==> TryParseResult(o).value.0 == (TryParseResult(o).value.1).Some?
  {
  }

  /**
   * Typization can only turn a success into a failure: with it switched
   * off, the same text crashes in the same cases, fails with the same
   * errors wherever it failed before typing, and succeeds with the same
   * expression string wherever typing succeeds.
   */
  lemma TypizationOnlyAddsFailures(st: Settings, reg: Building.Registry, compile: Node -> Source, s: string)
    requires OperatorContexts.ValidSets(AnalyzerSets(reg.operators)) && Building.WellFormed(reg)
    ensures var on := Processed(st.(enableTypization := true), reg, compile, s);
      var off := Processed(st.(enableTypization := false), reg, compile, s);
      (on.Crashed? <==> off.Crashed?)
      && (off.Failed? ==> on == off)
      && (on.Parsed? ==> off.Parsed? && off.expression.expressionString == on.expression.expressionString)
      && (on.Failed? && off.Parsed? ==> forall e | e in on.errors :: TypingErrors([e]))
  {
    TypizationKeepsEarlierOutcomes(st, reg, compile, s);
    TypizationKeepsParses(st, reg, compile, s);
  }

  /** Crashes and the failures before the typing are the same with typization on or off. */
  lemma TypizationKeepsEarlierOutcomes(st: Settings, reg: Building.Registry, compile: Node -> Source, s: string)
    requires OperatorContexts.ValidSets(AnalyzerSets(reg.operators)) && Building.WellFormed(reg)
    ensures var on := Processed(st.(enableTypization := true), reg, compile, s);
      var off := Processed(st.(enableTypization := false), reg, compile, s);
      (on.Crashed? <==> off.Crashed?) && (off.Failed? ==> on == off)
  {
    var a := Analyzer.Analyze(reg.functions, reg.constants, AnalyzerSets(reg.operators), s);
    if a.ok {
      var b := Building.Build(a.keywords, reg);
      if b.Tree? {
        BuiltTreeIsReady(a.keywords, reg, b.node);
      }
    }
  }

  /** A parse with typization on is one with it off over the same text, and its failures are typing errors. */
  lemma TypizationKeepsParses(st: Settings, reg: Building.Registry, compile: Node -> Source, s: string)
    requires OperatorContexts.ValidSets(AnalyzerSets(reg.operators)) && Building.WellFormed(reg)
    ensures var on := Processed(st.(enableTypization := true), reg, compile, s);
      var off := Processed(st.(enableTypization := false), reg, compile, s);
      (on.Parsed? ==> off.Parsed? && off.expression.expressionString == on.expression.expressionString)
      && (on.Failed? && off.Parsed? ==> forall e | e in on.errors :: TypingErrors([e]))
  {
    var a := Analyzer.Analyze(reg.functions, reg.constants, AnalyzerSets(reg.operators), s);
    if a.ok {
      var b := Building.Build(a.keywords, reg);
      if b.Tree? {
        BuiltTreeIsReady(a.keywords, reg, b.node);
        TypingOnlyAddsFailures(st, compile, b.node, a.argumentNames, a.formatted);
      }
    }
  }

  /** TypizationOnlyAddsFailures after the build: only the typing differs. */
  lemma TypingOnlyAddsFailures(st: Settings, compile: Node -> Source, tree: Node, argumentNames: seq<string>, formatted: string)
    requires Ready(tree) && Arguments(tree) <= set x | x in argumentNames
    ensures var on := Finished(st.(enableTypization := true), compile, tree, argumentNames, formatted);
      on.Failed? ==> forall e | e in on.errors :: TypingErrors([e])
  {
    TypizeSettlesArguments(st.version, tree, argumentNames, st.defaultType);
  }

  /**
   * A parsed expression carries the formatted string, and when its
   * signature is installed, the analyzer's argument names in order; with
   * typization switched off every type is the default, and with it on an
   * argument gets the first type one of its uses required.
   */
  lemma ParsedExpressionFacts(st: Settings, reg: Building.Registry, compile: Node -> Source, s: string)
    requires OperatorContexts.ValidSets(AnalyzerSets(reg.operators)) && Building.WellFormed(reg)
    requires Processed(st, reg, compile, s).Parsed?
    ensures var a := Analyzer.Analyze(reg.functions, reg.constants, AnalyzerSets(reg.operators), s);
      var e := Processed(st, reg, compile, s).expression;
      a.ok && e.expressionString == a.formatted && e.op.Valid() && NoDuplicates(a.argumentNames)
      && (e.op.arguments == a.argumentNames || e.op == InitialState())
      && (!st.enableTypization && e.op.arguments == a.argumentNames ==>
            e.op.outputType == st.defaultType && forall i | 0 <= i < |e.op.argumentTypes| :: e.op.argumentTypes[i] == st.defaultType)
  {
    var a := Analyzer.Analyze(reg.functions, reg.constants, AnalyzerSets(reg.operators), s);
    Analyzer.ArgumentNamesAreTheArguments(a.keywords);
    var b := Building.Build(a.keywords, reg);
    BuiltTreeIsReady(a.keywords, reg, b.node);
    FinishedExpressionFacts(st, compile, b.node, a.argumentNames, a.formatted);
  }

  /** ParsedExpressionFacts after the build: the expression's signature and, without typization, its types. */
  lemma FinishedExpressionFacts(st: Settings, compile: Node -> Source, tree: Node, argumentNames: seq<string>, formatted: string)
    requires Ready(tree) && Arguments(tree) <= set x | x in argumentNames
    requires Finished(st, compile, tree, argumentNames, formatted).Parsed?
    ensures var e := Finished(st, compile, tree, argumentNames, formatted).expression;
      (e.op.arguments == argumentNames || e.op == InitialState())
      && (!st.enableTypization && e.op.arguments == argumentNames ==>
            e.op.outputType == st.defaultType && forall i | 0 <= i < |e.op.argumentTypes| :: e.op.argumentTypes[i] == st.defaultType)
  {
  }

  // ---------------------------------------------------------------------
  // The operator symbols the analyzer is given
  // ---------------------------------------------------------------------

  lemma OperatorCharactersAreNotSpaces(c: char)
    requires ParserGlobal.IsOperatorCharacter(c)
    ensures !Text.IsWhiteSpace(c)
  {
  }

  lemma SymbolsAreValid(ops: seq<Operators.Operator>, part: seq<Operators.Operator>)
    requires forall o | o in ops :: Operators.IsOperatorSymbol(o.symbol)
    requires forall o | o in part :: o in ops
    ensures OperatorSplit.ValidSymbols(MathCollections.Symbols(part))
  {
    var syms := MathCollections.Symbols(part);
    forall x | x in syms ensures OperatorSplit.ValidSymbol(x) {
      var i :| 0 <= i < |syms| && syms[i] == x;
      assert part[i] in ops;
      forall k | 0 <= k < |x| ensures !Text.IsWhiteSpace(x[k]) {
        OperatorCharactersAreNotSpaces(x[k]);
      }
    }
  }

  /** Operator symbols are runs of operator characters, so none of the analyzer's symbols is blank or holds a space. */
  lemma AnalyzerSetsAreValid(ops: seq<Operators.Operator>)
    requires forall o | o in ops :: Operators.IsOperatorSymbol(o.symbol)
    ensures OperatorContexts.ValidSets(AnalyzerSets(ops))
  {
    Building.WhereIsSubset(ops, (o: Operators.Operator) => o.IsPrefix());
    Building.WhereIsSubset(ops, (o: Operators.Operator) => o.IsInfix());
    Building.WhereIsSubset(ops, (o: Operators.Operator) => o.IsPostfix());
    SymbolsAreValid(ops, MathCollections.PrefixOperators(ops));
    SymbolsAreValid(ops, MathCollections.InfixOperators(ops));
    SymbolsAreValid(ops, MathCollections.PostfixOperators(ops));
  }

  /** What the builder needs of an operator list: symbols of operator characters, and operand counts that fit the category. */
  ghost predicate OperatorsAreShaped(ops: seq<Operators.Operator>)
  {
    forall o | o in ops ::
      Operators.IsOperatorSymbol(o.symbol)
      && |o.Signature()| == o.op.Arity() + 1 && o.op.Arity() == (if o.IsInfix() then 2 else 1)
  }

  lemma BuiltInOperatorsAreShaped()
    ensures OperatorsAreShaped(Operators.BuiltInOperators())
  {
    Operators.BuiltInOperatorsAreWellFormed();
  }

  /** A registry with shaped operators and valid functions is one the parser can work with. */
  lemma RegistryIsWellFormed(reg: Building.Registry)
    requires OperatorsAreShaped(reg.operators)
    requires forall f | f in reg.functions :: f.op.Valid()
    ensures OperatorContexts.ValidSets(AnalyzerSets(reg.operators)) && Building.WellFormed(reg)
  {
    AnalyzerSetsAreValid(reg.operators);
  }

  /** The part of Process after a tree was built: typization or the default types, then the expression. */
  method Complete(st: Settings, tree: Node, argumentNames: seq<string>, formatted: string, compile: Node -> Source) returns (r: Outcome)
    requires Ready(tree) && Arguments(tree) <= set x | x in argumentNames
    ensures r == Finished(st, compile, tree, argumentNames, formatted)
  {
    var typing;
    if st.enableTypization {
      var typed, argumentTypes, outputType, errors := RunTypization(st.version, tree, argumentNames, st.defaultType);
      typing := Typing(typed, argumentTypes, outputType, errors);
    } else {
      var argumentTypes := DefaultTypes(|argumentNames|, st.defaultType);
      typing := Typing(true, argumentTypes, st.defaultType, []);
      assert typing == Untyped(argumentNames, st.defaultType);
    }
    if !typing.ok {
      return Failed(typing.errors);
    }
    var e := NewExpression(formatted, compile(tree), argumentNames, typing.argumentTypes, typing.outputType);
    assert e == ExpressionOf(formatted, compile(tree), argumentNames, typing.argumentTypes, typing.outputType);
    r := Parsed(e);
  }

  /** The new array of argument types filled with the default type. */
  method DefaultTypes(n: nat, defaultType: ValueDomain) returns (types: seq<ValueDomain>)
    ensures |types| == n && forall i | 0 <= i < n :: types[i] == defaultType
  {
    var filled := new ValueDomain[n](_ => defaultType);
    types := filled[..];
  }

  // ---------------------------------------------------------------------
  // The parser object
  // ---------------------------------------------------------------------

  /** The loop that copies a signature: the output type, then the first arity argument types. */
  method CopySignature(outputType: ValueDomain, argumentTypes: seq<ValueDomain>, arity: nat) returns (signature: seq<ValueDomain>)
    requires arity <= |argumentTypes|
    ensures signature == [outputType] + argumentTypes[..arity]
  {
    var a := new ValueDomain[arity + 1](_ => outputType);
    for i := 1 to arity + 1
      invariant a[0] == outputType
      invariant forall j | 1 <= j < i :: a[j] == argumentTypes[j - 1]
    {
      a[i] := argumentTypes[i - 1];
    }
    signature := a[..];
  }

  /** The foreach of the operator builders: one signature per candidate, in order. */
  method CollectSignatures(possible: seq<Operators.Operator>) returns (signatures: seq<Signature>)
    requires forall i | 0 <= i < |possible| :: |possible[i].op.argumentTypes| == possible[i].op.Arity()
    ensures signatures == Building.SignaturesOf(possible)
  {
    signatures := [];
    for j := 0 to |possible|
      invariant |signatures| == j
      invariant forall i | 0 <= i < j :: signatures[i] == possible[i].Signature()
    {
      var o := possible[j];
      var signature := CopySignature(o.op.outputType, o.op.argumentTypes, o.op.Arity());
      assert o.op.argumentTypes[..o.op.Arity()] == o.op.argumentTypes;
      signatures := signatures + [signature];
    }
  }

  /** The operators of ops that the builder may pick for word: registered ones, with one type per operand. */
  lemma CandidatesAreRegistered(ops: seq<Operators.Operator>, part: seq<Operators.Operator>, word: string)
    requires OperatorsAreShaped(ops) && forall o | o in part :: o in ops
    ensures var possible := Building.WithSymbol(part, word);
      forall i | 0 <= i < |possible| :: |possible[i].op.argumentTypes| == possible[i].op.Arity()
  {
    var possible := Building.WithSymbol(part, word);
    Building.WhereIsSubset(part, (o: Operators.Operator) => o.symbol == word);
    forall i | 0 <= i < |possible| ensures |possible[i].op.argumentTypes| == possible[i].op.Arity() {
      assert possible[i] in part;
    }
  }

  /** The registry a new parser keeps: a clone of the given one, or the default registry. */
  method OwnCollection(mathCollection: MathCollections.MathCollection?) returns (c: MathCollections.MathCollection)
    requires mathCollection != null ==> mathCollection.Valid()
    requires mathCollection != null ==> forall f | f in mathCollection.functions :: f.op.Valid()
    ensures fresh(c) && c.Valid() && OperatorsAreShaped(c.operators) && forall f | f in c.functions :: f.op.Valid()
    ensures OperatorContexts.ValidSets(AnalyzerSets(c.operators))
    ensures Building.WellFormed(Building.Registry(c.operators, c.functions, c.constants))
    ensures mathCollection != null ==> c.functions == mathCollection.functions && c.constants == mathCollection.constants
  {
    if mathCollection == null {
      c := MathCollections.MathCollection.Default();
    } else {
      c := mathCollection.Clone();
    }
    BuiltInOperatorsAreShaped();
    RegistryIsWellFormed(Building.Registry(c.operators, c.functions, c.constants));
  }

  class Parser {
    /** The parser's private copy of the registry. */
    const collection: MathCollections.MathCollection
    /** Which of the two syntax node implementations the build uses. */
    const version: Version
    var DefaultType: ValueDomain
    var EnableTypization: bool
    /** Handed to the analyzer in the source; the analyzer modelled here takes no such setting. */
    var MultiplicationSignInsertion: bool

    ghost predicate Valid()
      reads this, collection
    {
      collection.Valid() && OperatorsAreShaped(collection.operators)
      && (forall f | f in collection.functions :: f.op.Valid())
      && OperatorContexts.ValidSets(AnalyzerSets(collection.operators)) && Building.WellFormed(Reg())
    }

    /** The registry the builder reads. */
    function Reg(): Building.Registry
      reads this, collection
    {
      Building.Registry(collection.operators, collection.functions, collection.constants)
    }

    function Current(): Settings
      reads this
    {
      Settings(version, DefaultType, EnableTypization)
    }

    /** A copy of the given registry, or the default one; typization on, Double by default. */
    constructor (mathCollection: MathCollections.MathCollection?, version: Version)
      requires mathCollection != null ==> mathCollection.Valid()
      requires mathCollection != null ==> forall f | f in mathCollection.functions :: f.op.Valid()
      ensures Valid() && fresh(collection) && this.version == version
      ensures mathCollection != null ==>
        collection.functions == mathCollection.functions && collection.constants == mathCollection.constants
      ensures DefaultType == Double && EnableTypization && MultiplicationSignInsertion
    {
      var c := OwnCollection(mathCollection);
      collection := c;
      this.version := version;
      DefaultType := Double;
      EnableTypization := true;
      MultiplicationSignInsertion := true;
    }

    /** Parse: the expression, or the single error raised as it is, or several wrapped in one. */
    method Parse(s: string, compile: Node -> Source) returns (r: Call<Expression>)
      requires Valid()
      ensures r == ParseResult(Processed(Current(), Reg(), compile, s), s)
    {
      var o := Process(s, compile);
      match o
      case Parsed(e) => r := Returned(e);
      case Failed(errors) =>
        if |errors| == 1 {
          r := Raised(errors[0]);
        } else {
          r := Raised(SeveralErrorsWhileParsing(s, errors));
        }
      case Crashed => r := Escaped;
    }

    /** TryParse: whether Process succeeded, with the expression it produced. */
    method TryParse(s: string, compile: Node -> Source) returns (r: Call<(bool, Option<Expression>)>)
      requires Valid()
      ensures r == TryParseResult(Processed(Current(), Reg(), compile, s))
    {
      var o := Process(s, compile);
      match o
      case Parsed(e) => r := Returned((true, Some(e)));
      case Failed(_) => r := Returned((false, None));
      case Crashed => r := Escaped;
    }

    /** Process: the analyzer, the build, the typization (or the default types), then the expression. */
    method Process(s: string, compile: Node -> Source) returns (r: Outcome)
      requires Valid()
      ensures r == Processed(Current(), Reg(), compile, s)
    {
      var analyzer := CreateAnalyzer();
      var ok, keywords, argumentNames, formatted, exceptions := analyzer.Run(s);
      if !ok {
        return Failed(exceptions);
      }
      var root := Build(keywords);
      match root
      case Thrown => r := Crashed;
      case Null => r := Failed([UnmanagedError]);
      case Tree(tree) =>
        BuiltTreeIsReady(keywords, Reg(), tree);
        r := Complete(Current(), tree, argumentNames, formatted, compile);
    }

    /** CreateAnalyzer: the registry's constants and functions with the symbols of each operator partition. */
    method CreateAnalyzer() returns (analyzer: Analyzer.SyntaxAnalyzer)
      requires Valid()
      ensures fresh(analyzer) && analyzer.accumulated == []
      ensures analyzer.usedConstants == collection.constants && analyzer.usedFunctions == collection.functions
      ensures analyzer.sets == AnalyzerSets(collection.operators) && OperatorContexts.ValidSets(analyzer.sets)
    {
      var ops := collection.operators;
      analyzer := new Analyzer.SyntaxAnalyzer(collection.constants, collection.functions,
        MathCollections.Symbols(MathCollections.PrefixOperators(ops)),
        MathCollections.Symbols(MathCollections.InfixOperators(ops)),
        MathCollections.Symbols(MathCollections.PostfixOperators(ops)));
    }

    /** The MathCollection getter hands out a copy, never the parser's own registry. */
    method GetMathCollection() returns (c: MathCollections.MathCollection)
      requires Valid()
      ensures fresh(c) && c.Valid() && c.functions == collection.functions && c.constants == collection.constants
    {
      c := collection.Clone();
    }

    method Build(ks: seq<Keyword>) returns (r: Building.Built)
      requires Valid()
      ensures r == Building.Build(ks, Reg())
      decreases |ks|, 3, 0
    {
      var u := Brackets.RemoveOuterBrackets(ks);
      if |u| == 1 {
        r := BuildValueNode(u[0]);
      } else if |u| > 1 {
        r := BuildOperationNode(u);
      } else {
        r := Building.Null;
      }
    }

    method BuildValueNode(k: Keyword) returns (r: Building.Built)
      ensures r == Building.BuildValueNode(k, Reg())
    {
      if k.kind == Literal {
        r := Building.BuildLiteralNode(k);
      } else if k.kind == Name && k.subtype == Some(Constant) {
        var c := Building.FirstConstant(collection.constants, k.word);
        r := if c.None? then Building.Thrown else Building.Tree(ConstantNode(k, c.value.domain));
      } else if k.kind == Name && k.subtype == Some(Argument) {
        r := Building.Tree(ArgumentNode(k));
      } else {
        r := Building.Null;
      }
    }

    method BuildOperationNode(ks: seq<Keyword>) returns (r: Building.Built)
      requires Valid() && |ks| >= 2
      ensures r == Building.BuildOperationNode(ks, Reg())
      decreases |ks|, 2, 0
    {
      var p, found := Splitting.FindSplittingPoint(ks, collection.operators);
      if p.None? {
        return Building.Thrown;
      }
      Splitting.SplittingPointIsLowest(ks, collection.operators);
      if found {
        r := BuildOperatorNode(ks, p.value);
      } else {
        r := BuildFunctionNode(ks);
      }
    }

    method BuildOperatorNode(ks: seq<Keyword>, p: nat) returns (r: Building.Built)
      requires Valid() && 2 <= |ks| && p < |ks|
      ensures r == Building.BuildOperatorNode(ks, p, Reg())
      decreases |ks|, 1, 0
    {
      var ops := collection.operators;
      if p == 0 {
        Building.WhereIsSubset(ops, (o: Operators.Operator) => o.IsPrefix());
        r := BuildUnaryOperatorNode(ks[0], ks[1..], MathCollections.PrefixOperators(ops));
      } else if p == |ks| - 1 {
        Building.WhereIsSubset(ops, (o: Operators.Operator) => o.IsPostfix());
        r := BuildUnaryOperatorNode(ks[p], ks[..p], MathCollections.PostfixOperators(ops));
      } else {
        Building.WhereIsSubset(ops, (o: Operators.Operator) => o.IsInfix());
        r := BuildBinaryOperatorNode(ks[p], ks[..p], ks[p + 1..], MathCollections.InfixOperators(ops));
      }
    }

    method BuildUnaryOperatorNode(k: Keyword, operand: seq<Keyword>, unaryOperators: seq<Operators.Operator>)
      returns (r: Building.Built)
      requires Valid() && forall o | o in unaryOperators :: o in collection.operators
      ensures r == Building.UnaryNode(k, unaryOperators, Building.Build(operand, Reg()))
      decreases |operand| + 1, 0, 0
    {
      var possible := Building.WithSymbol(unaryOperators, k.word);
      CandidatesAreRegistered(collection.operators, unaryOperators, k.word);
      var signatures := CollectSignatures(possible);
      var c := Build(operand);
      if c.Thrown? || c.Null? {
        return c;
      }
      if possible == [] {
        return Building.Thrown;
      }
      r := Building.Tree(OperationNode(k, signatures, [c.node]));
    }

    method BuildBinaryOperatorNode(k: Keyword, first: seq<Keyword>, second: seq<Keyword>, binaryOperators: seq<Operators.Operator>)
      returns (r: Building.Built)
      requires Valid() && forall o | o in binaryOperators :: o in collection.operators
      ensures r == Building.BinaryNode(k, binaryOperators, Building.Build(first, Reg()), Building.Build(second, Reg()))
      decreases |first| + |second| + 1, 0, 0
    {
      var possible := Building.WithSymbol(binaryOperators, k.word);
      CandidatesAreRegistered(collection.operators, binaryOperators, k.word);
      var signatures := CollectSignatures(possible);
      var a := Build(first);
      if a.Thrown? {
        return Building.Thrown;
      }
      var b := Build(second);
      if b.Thrown? {
        return Building.Thrown;
      }
      if a.Null? || b.Null? {
        return Building.Null;
      }
      if possible == [] {
        return Building.Thrown;
      }
      r := Building.Tree(OperationNode(k, signatures, [a.node, b.node]));
    }

    method BuildFunctionNode(ks: seq<Keyword>) returns (r: Building.Built)
      requires Valid() && |ks| >= 2
      ensures r == Building.BuildFunctionNode(ks, Reg())
      decreases |ks|, 1, 0
    {
      var nested := Nesting.GetNestedExpressions(ks);
      if nested.None? {
        return Building.Thrown;
      }
      var parts := nested.value;
      var found := Building.FirstFunction(collection.functions, ks[0].word, |parts|);
      if found.None? {
        return Building.Thrown;
      }
      var f := found.value;
      var signature := CopySignature(f.op.outputType, f.op.argumentTypes, f.Arity());
      assert f.op.argumentTypes[..f.Arity()] == f.op.argumentTypes;
      Nesting.NestedExpressionsAreShorter(ks);
      var children := BuildArguments(parts, |ks|);
      if children.ThrownIn? {
        return Building.Thrown;
      }
      if children.NullIn? {
        return Building.Null;
      }
      r := Building.Tree(FunctionNode(ks[0], signature, children.nodes));
    }

    /** The loop of BuildFunctionNode: each argument in turn, stopping at the first null or exception. */
    method BuildArguments(parts: seq<seq<Keyword>>, bound: nat) returns (r: Building.BuiltList)
      requires Valid() && forall p | p in parts :: |p| < bound
      ensures r == Building.BuildArguments(parts, Reg(), bound)
      decreases bound, 0, 0
    {
      var children := [];
      for i := 0 to |parts|
        invariant Building.BuildArguments(parts[..i], Reg(), bound) == Building.Trees(children)
      {
        assert parts[..i + 1][..i] == parts[..i];
        assert parts[i] in parts;
        var c := Build(parts[i]);
        if !c.Tree? {
          r := if c.Thrown? then Building.ThrownIn else Building.NullIn;
          assert forall p | p in parts[..i + 1] :: p in parts;
          Building.StoppedArguments(parts, Reg(), bound, i + 1);
          return;
        }
        children := children + [c.node];
      }
      assert parts[..|parts|] == parts;
      r := Building.Trees(children);
    }
  }
}

// Build: the parser's recursive descent from a keyword sequence to a typing
// tree. Outer brackets are stripped; one keyword is a value node; more are
// split at the lowest-priority top-level operator, or read as a function
// call when there is none. Null marks a sequence that yields no tree; an
// exception thrown on the way (a failed lookup, an index out of range, a
// literal double.Parse rejects) is Thrown.
module Building {
  import opened Wrappers
  import opened Domains
  import opened Keywords
  import opened SyntaxNodes
  import ParserGlobal
  import Operators
  import MathCollections
  import Functions
  import Constants
  import Brackets
  import Splitting
  import Nesting

  /** What Build hands back: a tree, null, or an exception. */
  datatype Built = Tree(node: Node) | Null | Thrown

  /** What the loop of BuildFunctionNode hands back: every argument's tree, or the first null or exception. */
  datatype BuiltList = Trees(nodes: seq<Node>) | NullIn | ThrownIn

  /** The registry the builder looks things up in. */
  datatype Registry = Registry(operators: seq<Operators.Operator>, functions: seq<Functions.Function>, constants: seq<Constants.Constant>)

  // ---------------------------------------------------------------------
  // Lookups
  // ---------------------------------------------------------------------

  /** Constants.First(c => c.Name == word): None where it throws. */
  function FirstConstant(cs: seq<Constants.Constant>, word: string): (r: Option<Constants.Constant>)
    ensures r.None? <==> forall i | 0 <= i < |cs| :: cs[i].name != word
    ensures r.Some? ==> r.value in cs && r.value.name == word
  {
    if cs == [] then None
    else if cs[0].name == word then Some(cs[0])
    else
      var r := FirstConstant(cs[1..], word);
      assert forall i | 1 <= i < |cs| :: cs[i] == cs[1..][i - 1];
      r
  }

  /** Functions.First(f => f.Name == name && f.Arity == arity): None where it throws. */
  function FirstFunction(fs: seq<Functions.Function>, name: string, arity: nat): (r: Option<Functions.Function>)
    ensures r.None? <==> forall i | 0 <= i < |fs| :: !(fs[i].name == name && fs[i].Arity() == arity)
    ensures r.Some? ==> r.value in fs && r.value.name == name && r.value.Arity() == arity
  {
    if fs == [] then None
    else if fs[0].name == name && fs[0].Arity() == arity then Some(fs[0])
    else
      var r := FirstFunction(fs[1..], name, arity);
      assert forall i | 1 <= i < |fs| :: fs[i] == fs[1..][i - 1];
      r
  }

  /** The operators of one partition whose symbol is the keyword's word, in order. */
  function WithSymbol(ops: seq<Operators.Operator>, word: string): seq<Operators.Operator>
  {
    MathCollections.OperatorsWhere(ops, (o: Operators.Operator) => o.symbol == word)
  }

  /** The signature of each operator: its output type, then its argument types. */
  function SignaturesOf(ops: seq<Operators.Operator>): (r: seq<Signature>)
    ensures |r| == |ops| && forall i | 0 <= i < |ops| :: r[i] == ops[i].Signature()
  {
    if ops == [] then [] else [ops[0].Signature()] + SignaturesOf(ops[1..])
  }

  /** The signature BuildFunctionNode copies out of a function. */
  function FunctionSignature(f: Functions.Function): Signature
  {
    [f.op.outputType] + f.op.argumentTypes
  }

  // ---------------------------------------------------------------------
  // Build
  // ---------------------------------------------------------------------

  /** BuildLiteralNode: the value double.Parse reads, or an exception. */
  function BuildLiteralNode(k: Keyword): Built
  {
    if ParserGlobal.ValidateLiteral(k.word, None) then
      Tree(MakeLiteralNode(k, Finite(ParserGlobal.LiteralValue(k.word))))
    else Thrown
  }

  /** BuildValueNode: a literal, a known constant or an argument; anything else is null. */
  function BuildValueNode(k: Keyword, reg: Registry): Built
  {
    if k.kind == Literal then BuildLiteralNode(k)
    else if k.kind == Name && k.subtype == Some(Constant) then
      match FirstConstant(reg.constants, k.word)
      case None => Thrown
      case Some(c) => Tree(ConstantNode(k, c.domain))
    else if k.kind == Name && k.subtype == Some(Argument) then Tree(ArgumentNode(k))
    else Null
  }

  /** BuildUnaryOperatorNode once its operand is built: the first candidate is looked up after the null check. */
  function UnaryNode(k: Keyword, candidates: seq<Operators.Operator>, operand: Built): Built
  {
    var possible := WithSymbol(candidates, k.word);
    match operand
    case Thrown => Thrown
    case Null => Null
    case Tree(c) => if possible == [] then Thrown else Tree(OperationNode(k, SignaturesOf(possible), [c]))
  }

  /** BuildBinaryOperatorNode once both operands are built, the first before the second. */
  function BinaryNode(k: Keyword, candidates: seq<Operators.Operator>, first: Built, second: Built): Built
  {
    var possible := WithSymbol(candidates, k.word);
    if first.Thrown? || second.Thrown? then Thrown
    else if first.Null? || second.Null? then Null
    else if possible == [] then Thrown
    else Tree(OperationNode(k, SignaturesOf(possible), [first.node, second.node]))
  }

  /** Build: strips the outer brackets, then one keyword is a value, several an operation, none null. */
  function Build(ks: seq<Keyword>, reg: Registry): Built
    decreases |ks|, 3, 0
  {
    var u := Brackets.Unwrapped(ks);
    if |u| == 1 then BuildValueNode(u[0], reg)
    else if |u| > 1 then BuildOperationNode(u, reg)
    else Null
  }

  /** BuildOperationNode: an operator node at the splitting point, a function node when there is none. */
  function BuildOperationNode(ks: seq<Keyword>, reg: Registry): Built
    requires |ks| >= 2
    decreases |ks|, 2, 0
  {
    match Splitting.SplittingPoint(ks, reg.operators)
    case None => Thrown
    case Some(p) =>
      Splitting.SplittingPointIsLowest(ks, reg.operators);
      if p >= 0 then BuildOperatorNode(ks, p, reg) else BuildFunctionNode(ks, reg)
  }

  /** BuildOperatorNode: prefix at the front, postfix at the back, infix anywhere else. */
  function BuildOperatorNode(ks: seq<Keyword>, p: nat, reg: Registry): Built
    requires 2 <= |ks| && p < |ks|
    decreases |ks|, 1, 0
  {
    if p == 0 then
      UnaryNode(ks[0], MathCollections.PrefixOperators(reg.operators), Build(ks[1..], reg))
    else if p == |ks| - 1 then
      UnaryNode(ks[p], MathCollections.PostfixOperators(reg.operators), Build(ks[..p], reg))
    else
      BinaryNode(ks[p], MathCollections.InfixOperators(reg.operators), Build(ks[..p], reg), Build(ks[p + 1..], reg))
  }

  /** BuildFunctionNode: the nested expressions, the function of that name and arity, then each argument in turn. */
  function BuildFunctionNode(ks: seq<Keyword>, reg: Registry): Built
    requires |ks| >= 2
    decreases |ks|, 1, 0
  {
    match Nesting.NestedExpressions(ks)
    case None => Thrown
    case Some(parts) =>
      match FirstFunction(reg.functions, ks[0].word, |parts|)
      case None => Thrown
      case Some(f) =>
        Nesting.NestedExpressionsAreShorter(ks);
        match BuildArguments(parts, reg, |ks|)
        case ThrownIn => Thrown
        case NullIn => Null
        case Trees(children) => Tree(FunctionNode(ks[0], FunctionSignature(f), children))
  }

  /** The loop of BuildFunctionNode over the first |parts| arguments: it stops at the first null or exception. */
  function BuildArguments(parts: seq<seq<Keyword>>, reg: Registry, bound: nat): (r: BuiltList)
    requires forall p | p in parts :: |p| < bound
    ensures r.Trees? ==> |r.nodes| == |parts|
    decreases bound, 0, |parts|
  {
    if parts == [] then Trees([])
    else
      var n := |parts| - 1;
      match BuildArguments(parts[..n], reg, bound)
      case Trees(ns) =>
        (match Build(parts[n], reg)
         case Thrown => ThrownIn
         case Null => NullIn
         case Tree(c) => Trees(ns + [c]))
      case other => other
  }

  /** Once an argument has come back null or thrown, the later ones change nothing. */
  lemma {:induction false} StoppedArguments(parts: seq<seq<Keyword>>, reg: Registry, bound: nat, i: nat)
    requires i <= |parts| && forall p | p in parts :: |p| < bound
    requires forall p | p in parts[..i] :: |p| < bound
    requires !BuildArguments(parts[..i], reg, bound).Trees?
    ensures BuildArguments(parts, reg, bound) == BuildArguments(parts[..i], reg, bound)
    decreases |parts|
  {
    if i < |parts| {
      var n := |parts| - 1;
      assert parts[..n][..i] == parts[..i];
      assert forall p | p in parts[..n] :: p in parts;
      StoppedArguments(parts[..n], reg, bound, i);
    } else {
      assert parts[..i] == parts;
    }
  }

  // ---------------------------------------------------------------------
  // What a built tree is
  // ---------------------------------------------------------------------

  /** The registry as MathCollection hands it out: unary operators take one operand, the others two, and every function one type per argument. */
  ghost predicate WellFormed(reg: Registry)
  {
    (forall o | o in reg.operators ::
       |o.Signature()| == o.op.Arity() + 1 && o.op.Arity() == (if o.IsInfix() then 2 else 1))
    && forall f | f in reg.functions :: |f.op.argumentTypes| == f.Arity()
  }

  /** The words of the argument keywords. */
  function NamedArguments(ks: seq<Keyword>): set<string>
  {
    set k | k in ks && k.kind == Name && k.subtype == Some(Argument) :: k.word
  }

  /** A built tree can be typed, and it names only arguments that occur in the keywords. */
  predicate Sound(r: Built, ks: seq<Keyword>)
  {
    r.Tree? ==> Full(r.node) && Arguments(r.node) <= NamedArguments(ks)
  }

  predicate SoundAll(r: BuiltList, parts: seq<seq<Keyword>>, ks: seq<Keyword>)
  {
    r.Trees? ==> (forall i | 0 <= i < |r.nodes| :: Full(r.nodes[i])) && ArgumentsAll(r.nodes) <= NamedArguments(ks)
  }

  lemma {:induction false} WhereIsSubset(ops: seq<Operators.Operator>, p: Operators.Operator -> bool)
    ensures forall o | o in MathCollections.OperatorsWhere(ops, p) :: o in ops && p(o)
    decreases |ops|
  {
    if ops != [] {
      WhereIsSubset(ops[1..], p);
    }
  }

  lemma {:induction false} UnwrappedWithin(ks: seq<Keyword>)
    ensures forall k | k in Brackets.Unwrapped(ks) :: k in ks
    decreases |ks|
  {
    if Brackets.Wrapped(ks) && Brackets.Balanced(Brackets.Inner(ks)) {
      UnwrappedWithin(Brackets.Inner(ks));
    }
  }

  /** Every operator the unary or binary builder may pick takes as many operands as it is given. */
  lemma CandidatesFit(ops: seq<Operators.Operator>, word: string, part: int, arity: nat)
    requires forall o | o in ops ::
       |o.Signature()| == o.op.Arity() + 1 && o.op.Arity() == (if o.IsInfix() then 2 else 1)
    requires part == 0 || part == 1 || part == 2
    requires arity == if part == 2 then 2 else 1
    ensures var candidates :=
        if part == 0 then MathCollections.PrefixOperators(ops)
        else if part == 1 then MathCollections.PostfixOperators(ops)
        else MathCollections.InfixOperators(ops);
      forall s | s in SignaturesOf(WithSymbol(candidates, word)) :: |s| == arity + 1
  {
    var candidates :=
      if part == 0 then MathCollections.PrefixOperators(ops)
      else if part == 1 then MathCollections.PostfixOperators(ops)
      else MathCollections.InfixOperators(ops);
    if part == 0 {
      WhereIsSubset(ops, (o: Operators.Operator) => o.IsPrefix());
    } else if part == 1 {
      WhereIsSubset(ops, (o: Operators.Operator) => o.IsPostfix());
    } else {
      WhereIsSubset(ops, (o: Operators.Operator) => o.IsInfix());
    }
    WhereIsSubset(candidates, (o: Operators.Operator) => o.symbol == word);
  }

  lemma {:induction false} BuildIsSound(ks: seq<Keyword>, reg: Registry)
    requires WellFormed(reg)
    ensures Sound(Build(ks, reg), ks)
    decreases |ks|, 3, 0
  {
    var u := Brackets.Unwrapped(ks);
    UnwrappedWithin(ks);
    if |u| == 1 {
      assert u[0] in ks;
    } else if |u| > 1 {
      BuildOperationIsSound(u, reg);
    }
  }

  lemma {:induction false} BuildOperationIsSound(ks: seq<Keyword>, reg: Registry)
    requires |ks| >= 2 && WellFormed(reg)
    ensures Sound(BuildOperationNode(ks, reg), ks)
    decreases |ks|, 2, 0
  {
    match Splitting.SplittingPoint(ks, reg.operators)
    case None =>
    case Some(p) =>
      Splitting.SplittingPointIsLowest(ks, reg.operators);
      if p >= 0 {
        BuildOperatorIsSound(ks, p, reg);
      } else {
        BuildFunctionIsSound(ks, reg);
      }
  }

  lemma WordsWithin(sub: seq<Keyword>, ks: seq<Keyword>)
    requires forall x | x in sub :: x in ks
    ensures NamedArguments(sub) <= NamedArguments(ks)
  {
  }

  lemma UnaryNodeIsSound(k: Keyword, candidates: seq<Operators.Operator>, operand: Built, sub: seq<Keyword>, ks: seq<Keyword>)
    requires forall s | s in SignaturesOf(WithSymbol(candidates, k.word)) :: |s| == 2
    requires Sound(operand, sub) && forall x | x in sub :: x in ks
    ensures Sound(UnaryNode(k, candidates, operand), ks)
  {
    var r := UnaryNode(k, candidates, operand);
    if r.Tree? {
      var sigs := SignaturesOf(WithSymbol(candidates, k.word));
      assert forall i | 0 <= i < |sigs| :: sigs[i] in sigs;
      WordsWithin(sub, ks);
      ArgumentsAllAppend([], operand.node);
      assert [] + [operand.node] == [operand.node];
    }
  }

  lemma BinaryNodeIsSound(k: Keyword, candidates: seq<Operators.Operator>, first: Built, second: Built,
                          left: seq<Keyword>, right: seq<Keyword>, ks: seq<Keyword>)
    requires forall s | s in SignaturesOf(WithSymbol(candidates, k.word)) :: |s| == 3
    requires Sound(first, left) && Sound(second, right)
    requires (forall x | x in left :: x in ks) && forall x | x in right :: x in ks
    ensures Sound(BinaryNode(k, candidates, first, second), ks)
  {
    var r := BinaryNode(k, candidates, first, second);
    if r.Tree? {
      var sigs := SignaturesOf(WithSymbol(candidates, k.word));
      assert forall i | 0 <= i < |sigs| :: sigs[i] in sigs;
      WordsWithin(left, ks);
      WordsWithin(right, ks);
      ArgumentsAllAppend([], first.node);
      ArgumentsAllAppend([first.node], second.node);
      assert [first.node] + [second.node] == [first.node, second.node];
    }
  }

  lemma {:induction false} BuildOperatorIsSound(ks: seq<Keyword>, p: nat, reg: Registry)
    requires 2 <= |ks| && p < |ks| && WellFormed(reg)
    ensures Sound(BuildOperatorNode(ks, p, reg), ks)
    decreases |ks|, 1, 0
  {
    if p == 0 {
      BuildIsSound(ks[1..], reg);
      CandidatesFit(reg.operators, ks[0].word, 0, 1);
      UnaryNodeIsSound(ks[0], MathCollections.PrefixOperators(reg.operators), Build(ks[1..], reg), ks[1..], ks);
    } else if p == |ks| - 1 {
      BuildIsSound(ks[..p], reg);
      CandidatesFit(reg.operators, ks[p].word, 1, 1);
      UnaryNodeIsSound(ks[p], MathCollections.PostfixOperators(reg.operators), Build(ks[..p], reg), ks[..p], ks);
    } else {
      BuildIsSound(ks[..p], reg);
      BuildIsSound(ks[p + 1..], reg);
      CandidatesFit(reg.operators, ks[p].word, 2, 2);
      BinaryNodeIsSound(ks[p], MathCollections.InfixOperators(reg.operators), Build(ks[..p], reg), Build(ks[p + 1..], reg),
                        ks[..p], ks[p + 1..], ks);
    }
  }

  lemma {:induction false} BuildFunctionIsSound(ks: seq<Keyword>, reg: Registry)
    requires |ks| >= 2 && WellFormed(reg)
    ensures Sound(BuildFunctionNode(ks, reg), ks)
    decreases |ks|, 1, 0
  {
    match Nesting.NestedExpressions(ks)
    case None =>
    case Some(parts) =>
      match FirstFunction(reg.functions, ks[0].word, |parts|)
      case None =>
      case Some(f) =>
        Nesting.NestedExpressionsAreShorter(ks);
        BuildArgumentsAreSound(parts, reg, |ks|, ks);
  }

  lemma {:induction false} BuildArgumentsAreSound(parts: seq<seq<Keyword>>, reg: Registry, bound: nat, ks: seq<Keyword>)
    requires forall p | p in parts :: |p| < bound && forall k | k in p :: k in ks
    requires WellFormed(reg)
    ensures SoundAll(BuildArguments(parts, reg, bound), parts, ks)
    decreases bound, 0, |parts|
  {
    if parts != [] {
      var n := |parts| - 1;
      BuildArgumentsAreSound(parts[..n], reg, bound, ks);
      BuildIsSound(parts[n], reg);
      var front := BuildArguments(parts[..n], reg, bound);
      if front.Trees? && Build(parts[n], reg).Tree? {
        ArgumentsAllAppend(front.nodes, Build(parts[n], reg).node);
      }
    }
  }

  // ---------------------------------------------------------------------
  // An input the analyzer lets through
  // ---------------------------------------------------------------------

  /**
   * "()+1": the split is at "+", and the left operand "()" is two keywords
   * with no operator, read as a function call whose third keyword does not
   * exist, so the index is out of range and the exception escapes.
   */
  lemma EmptyBracketsCrashBuild(open: Keyword, close: Keyword, plus: Keyword, one: Keyword, reg: Registry)
    requires open.kind == LeftParenthesis && close.kind == RightParenthesis
    requires plus.kind == Operator && plus.subtype == Some(InfixOperator) && one.kind == Literal
    ensures Build([open, close, plus, one], reg) == Thrown
  {
    var ks := [open, close, plus, one];
    var pair := [open, close];
    assert Brackets.Unwrapped(ks) == ks;
    assert Brackets.Unwrapped(pair) == pair;
    assert Splitting.ScanFrom(pair, reg.operators, 2) == Some(Splitting.Scan(0, Splitting.IntMax, -1));
    assert Splitting.ScanFrom(pair, reg.operators, 1) == Some(Splitting.Scan(1, Splitting.IntMax, -1));
    assert Splitting.ScanFrom(pair, reg.operators, 0) == Some(Splitting.Scan(0, Splitting.IntMax, -1));
    assert Splitting.SplittingPoint(pair, reg.operators) == Some(-1);
    assert Nesting.NestedExpressions(pair) == None;
    assert BuildFunctionNode(pair, reg) == Thrown;
    assert BuildOperationNode(pair, reg) == Thrown;
    assert Build(pair, reg) == Thrown;
    assert Splitting.ScanFrom(ks, reg.operators, 4) == Some(Splitting.Scan(0, Splitting.IntMax, -1));
    assert Splitting.ScanFrom(ks, reg.operators, 3) == Some(Splitting.Scan(0, Splitting.IntMax, -1));
    match Splitting.KeywordPriority(plus, reg.operators)
    case None =>
      assert Splitting.ScanFrom(ks, reg.operators, 2) == None;
      Splitting.ThrowPropagates(ks, reg.operators, 0, 2);
    case Some(p) =>
      assert Splitting.ScanFrom(ks, reg.operators, 2) == Some(Splitting.Scan(0, p, 2));
      assert Splitting.ScanFrom(ks, reg.operators, 1) == Some(Splitting.Scan(1, p, 2));
      assert Splitting.ScanFrom(ks, reg.operators, 0) == Some(Splitting.Scan(0, p, 2));
      assert Splitting.SplittingPoint(ks, reg.operators) == Some(2);
      assert ks[..2] == pair;
      assert BuildOperatorNode(ks, 2, reg) == Thrown;
      assert BuildOperationNode(ks, reg) == Thrown;
  }
}

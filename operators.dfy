// Operators: name, category (which doubles as the binding priority), symbol
// and signature; the presets that build them; and the built-in table.
module Operators {
  import opened Domains
  import opened Operations
  import ParserGlobal

  datatype OperatorName =
    | UnaryPlus | UnaryMinus
    | Addition | Subtraction | Multiplication | Division | Modulation | Exponentiation
    | Factorial
    | LogicNegation
    | Conjunction | Disjunction | Equivalence | Implication | ConverseImplication
    | Equality | Inequality
    | LessThan | LessThanOrEqual | GreaterThan | GreaterThanOrEqual
    | CoalesceOperation

  /** Declared in increasing binding strength; the declaration index is the priority. */
  datatype OperatorCategory =
    | Coalesce | ImplicationCategory | EquivalenceCategory | DisjunctionCategory | ConjunctionCategory
    | EqualityCategory | Relational | Additive | Multiplicative | ExponentiationCategory
    | UnaryPrefix | UnaryPostfix

  /** The enum's integer value, which FindSplittingPoint compares. */
  function Priority(c: OperatorCategory): (p: nat)
    ensures p < 12
    ensures c == Coalesce <==> p == 0
    ensures c == UnaryPostfix <==> p == 11
  {
    match c
    case Coalesce => 0
    case ImplicationCategory => 1
    case EquivalenceCategory => 2
    case DisjunctionCategory => 3
    case ConjunctionCategory => 4
    case EqualityCategory => 5
    case Relational => 6
    case Additive => 7
    case Multiplicative => 8
    case ExponentiationCategory => 9
    case UnaryPrefix => 10
    case UnaryPostfix => 11
  }

  /** Distinct categories have distinct priorities, so the order is total. */
  lemma PriorityIsInjective(a: OperatorCategory, b: OperatorCategory)
    ensures Priority(a) == Priority(b) <==> a == b
  {
  }

  datatype Operator = Operator(name: OperatorName, category: OperatorCategory, symbol: string, op: OpState)
  {
    predicate IsPrefix() { category == UnaryPrefix }
    predicate IsPostfix() { category == UnaryPostfix }
    predicate IsInfix() { !IsPrefix() && !IsPostfix() }
    /** The signature a syntax node is offered: output first, then the operand types. */
    function Signature(): seq<ValueDomain> { [op.outputType] + op.argumentTypes }
  }

  /** The internal constructor: SetSourceIfValid on a fresh operation, then the three init properties. */
  function NewOperator(name: OperatorName, category: OperatorCategory, symbol: string, source: Source,
                       operands: seq<string>, operandTypes: seq<ValueDomain>, outputType: ValueDomain): (o: Operator)
    ensures o.name == name && o.category == category && o.symbol == symbol
    ensures IsValidSignature(operands, operandTypes) ==> o.op == OpState(source, operands, operandTypes, outputType)
    ensures !IsValidSignature(operands, operandTypes) ==> o.op == InitialState()
  {
    Operator(name, category, symbol, SetSourceIfValidResult(InitialState(), source, operands, operandTypes, outputType))
  }

  lemma PresetOperandNamesAreValid()
    ensures IsValidSignature(["value"], [Double]) && IsValidSignature(["value"], [Boolean])
    ensures forall t, u :: IsValidSignature(["a", "b"], [t, u])
  {
    assert ParserGlobal.ValidateName("value");
    assert ParserGlobal.ValidateName("a") && ParserGlobal.ValidateName("b");
  }

  function UnaryArithmeticalPrefixOperator(name: OperatorName, symbol: string, source: Source): Operator
  {
    NewOperator(name, UnaryPrefix, symbol, source, ["value"], [Double], Double)
  }

  function UnaryArithmeticalPostfixOperator(name: OperatorName, symbol: string, source: Source): Operator
  {
    NewOperator(name, UnaryPostfix, symbol, source, ["value"], [Double], Double)
  }

  function BinaryArithmeticalOperator(name: OperatorName, category: OperatorCategory, symbol: string, source: Source): Operator
  {
    NewOperator(name, category, symbol, source, ["a", "b"], [Double, Double], Double)
  }

  function UnaryLogicalPrefixOperator(name: OperatorName, symbol: string, source: Source): Operator
  {
    NewOperator(name, UnaryPrefix, symbol, source, ["value"], [Boolean], Boolean)
  }

  function UnaryLogicalPostfixOperator(name: OperatorName, symbol: string, source: Source): Operator
  {
    NewOperator(name, UnaryPostfix, symbol, source, ["value"], [Boolean], Boolean)
  }

  function BinaryLogicalOperator(name: OperatorName, category: OperatorCategory, symbol: string, source: Source): Operator
  {
    NewOperator(name, category, symbol, source, ["a", "b"], [Boolean, Boolean], Boolean)
  }

  function BinaryRelation(name: OperatorName, category: OperatorCategory, symbol: string, source: Source): Operator
  {
    NewOperator(name, category, symbol, source, ["a", "b"], [Double, Double], Boolean)
  }

  /** The signature each preset installs: operand types and output, with arity 1 exactly for the unary categories. */
  lemma PresetSignatures(name: OperatorName, category: OperatorCategory, symbol: string, source: Source)
    ensures UnaryArithmeticalPrefixOperator(name, symbol, source).Signature() == [Double, Double]
    ensures UnaryArithmeticalPostfixOperator(name, symbol, source).Signature() == [Double, Double]
    ensures UnaryLogicalPrefixOperator(name, symbol, source).Signature() == [Boolean, Boolean]
    ensures UnaryLogicalPostfixOperator(name, symbol, source).Signature() == [Boolean, Boolean]
    ensures BinaryArithmeticalOperator(name, category, symbol, source).Signature() == [Double, Double, Double]
    ensures BinaryLogicalOperator(name, category, symbol, source).Signature() == [Boolean, Boolean, Boolean]
    ensures BinaryRelation(name, category, symbol, source).Signature() == [Boolean, Double, Double]
  {
    PresetOperandNamesAreValid();
  }

  /** The seven presets of Operator.cs; each fixes the operand and output types. */
  datatype Preset =
    | ArithmeticalPrefix | ArithmeticalPostfix | ArithmeticalBinary
    | LogicalPrefix | LogicalPostfix | LogicalBinary | Relation

  function ApplyPreset(p: Preset, name: OperatorName, category: OperatorCategory, symbol: string, source: Source): Operator
  {
    match p
    case ArithmeticalPrefix => UnaryArithmeticalPrefixOperator(name, symbol, source)
    case ArithmeticalPostfix => UnaryArithmeticalPostfixOperator(name, symbol, source)
    case ArithmeticalBinary => BinaryArithmeticalOperator(name, category, symbol, source)
    case LogicalPrefix => UnaryLogicalPrefixOperator(name, symbol, source)
    case LogicalPostfix => UnaryLogicalPostfixOperator(name, symbol, source)
    case LogicalBinary => BinaryLogicalOperator(name, category, symbol, source)
    case Relation => BinaryRelation(name, category, symbol, source)
  }

  /** One built-in operator of Operator.cs: its name, category, symbol and preset. */
  datatype TableEntry = Entry(name: OperatorName, category: OperatorCategory, symbol: string, preset: Preset)

  /** The arithmetic entries of GetBuiltInOperators. */
  function ArithmeticEntries(): seq<TableEntry>
  {
    [
      Entry(UnaryPlus, UnaryPrefix, "+", ArithmeticalPrefix),
      Entry(UnaryMinus, UnaryPrefix, "-", ArithmeticalPrefix),
      Entry(Addition, Additive, "+", ArithmeticalBinary),
      Entry(Subtraction, Additive, "-", ArithmeticalBinary),
      Entry(Division, Multiplicative, "/", ArithmeticalBinary),
      Entry(Modulation, Multiplicative, "%", ArithmeticalBinary),
      Entry(Multiplication, Multiplicative, "*", ArithmeticalBinary),
      Entry(Exponentiation, ExponentiationCategory, "^", ArithmeticalBinary),
      Entry(Factorial, UnaryPostfix, "!", ArithmeticalPostfix)
    ]
  }

  /** The logical entries of GetBuiltInOperators. */
  function LogicalEntries(): seq<TableEntry>
  {
    [
      Entry(LogicNegation, UnaryPrefix, "!", LogicalPrefix),
      Entry(LogicNegation, UnaryPrefix, "~", LogicalPrefix),
      Entry(Conjunction, ConjunctionCategory, "&", LogicalBinary),
      Entry(Conjunction, ConjunctionCategory, "&&", LogicalBinary),
      Entry(Disjunction, DisjunctionCategory, "|", LogicalBinary),
      Entry(Disjunction, DisjunctionCategory, "||", LogicalBinary),
      Entry(Equivalence, EquivalenceCategory, "<->", LogicalBinary),
      Entry(Implication, ImplicationCategory, "->", LogicalBinary),
      Entry(ConverseImplication, ImplicationCategory, "<-", LogicalBinary)
    ]
  }

  /** The equality entries: each symbol once over doubles, once over booleans. */
  function EqualityEntries(): seq<TableEntry>
  {
    [
      Entry(Equality, EqualityCategory, "=", Relation),
      Entry(Equality, EqualityCategory, "==", Relation),
      Entry(Inequality, EqualityCategory, "!=", Relation),
      Entry(Inequality, EqualityCategory, "~=", Relation),
      Entry(Equality, EqualityCategory, "=", LogicalBinary),
      Entry(Equality, EqualityCategory, "==", LogicalBinary),
      Entry(Inequality, EqualityCategory, "!=", LogicalBinary),
      Entry(Inequality, EqualityCategory, "~=", LogicalBinary)
    ]
  }

  /** The order relations and the two coalesce operators. */
  function RelationalEntries(): seq<TableEntry>
  {
    [
      Entry(LessThan, Relational, "<", Relation),
      Entry(LessThanOrEqual, Relational, "<=", Relation),
      Entry(GreaterThan, Relational, ">", Relation),
      Entry(GreaterThanOrEqual, Relational, ">=", Relation),
      Entry(CoalesceOperation, Coalesce, "??", ArithmeticalBinary),
      Entry(CoalesceOperation, Coalesce, "??", LogicalBinary)
    ]
  }

  /** The entries GetBuiltInOperators lists, in its order. */
  function BuiltInOperatorTable(): (t: seq<TableEntry>)
    ensures |t| == 32
  {
    ArithmeticEntries() + LogicalEntries() + EqualityEntries() + RelationalEntries()
  }

  function MakeOperators(t: seq<TableEntry>): (ops: seq<Operator>)
    ensures |ops| == |t|
  {
    if t == [] then [] else [ApplyPreset(t[0].preset, t[0].name, t[0].category, t[0].symbol, MathSourceDelegate())] + MakeOperators(t[1..])
  }

  /** Each operator is its entry's preset applied to the entry, in table order. */
  lemma {:induction false} MakeOperatorsApplies(t: seq<TableEntry>)
    ensures forall i | 0 <= i < |t| ::
      MakeOperators(t)[i] == ApplyPreset(t[i].preset, t[i].name, t[i].category, t[i].symbol, MathSourceDelegate())
  {
    if t != [] {
      MakeOperatorsApplies(t[1..]);
    }
  }

  /** GetBuiltInOperators. */
  function BuiltInOperators(): (ops: seq<Operator>)
    ensures |ops| == 32
  {
    MakeOperators(BuiltInOperatorTable())
  }

  /** Symbols are non-empty runs of operator characters (no spaces), which the operator splitter relies on. */
  predicate IsOperatorSymbol(s: string)
  {
    |s| > 0 && forall i | 0 <= i < |s| :: ParserGlobal.IsOperatorCharacter(s[i])
  }

  /** A table entry whose preset agrees with its category: unary presets exactly for the unary categories. */
  predicate EntryIsConsistent(e: TableEntry)
  {
    IsOperatorSymbol(e.symbol)
    && (e.preset in {ArithmeticalPrefix, LogicalPrefix} <==> e.category == UnaryPrefix)
    && (e.preset in {ArithmeticalPostfix, LogicalPostfix} <==> e.category == UnaryPostfix)
  }

  /** A consistent entry yields an operator of its category with one operand when unary and two otherwise. */
  lemma ApplyPresetShape(e: TableEntry, source: Source)
    requires EntryIsConsistent(e)
    ensures var o := ApplyPreset(e.preset, e.name, e.category, e.symbol, source);
      o.name == e.name && o.category == e.category && o.symbol == e.symbol
      && |o.Signature()| == o.op.Arity() + 1
      && o.op.Arity() == (if o.IsInfix() then 2 else 1)
  {
    PresetOperandNamesAreValid();
  }

  lemma ArithmeticEntriesAreConsistent()
    ensures forall e | e in ArithmeticEntries() :: EntryIsConsistent(e)
  {
    AdditiveEntriesAreConsistent();
    assert EntryIsConsistent(ArithmeticEntries()[4]);
    assert EntryIsConsistent(ArithmeticEntries()[5]);
    assert EntryIsConsistent(ArithmeticEntries()[6]);
    assert EntryIsConsistent(ArithmeticEntries()[7]);
    assert EntryIsConsistent(ArithmeticEntries()[8]);
  }

  /** The signs, additions and subtractions of the arithmetic table. */
  lemma AdditiveEntriesAreConsistent()
    ensures forall i | 0 <= i < 4 :: EntryIsConsistent(ArithmeticEntries()[i])
  {
    var t := ArithmeticEntries();
    assert EntryIsConsistent(t[0]);
    assert EntryIsConsistent(t[1]);
    assert EntryIsConsistent(t[2]);
    assert EntryIsConsistent(t[3]);
  }

  lemma LogicalEntriesAreConsistent()
    ensures forall e | e in LogicalEntries() :: EntryIsConsistent(e)
  {
    LogicalConnectivesAreConsistent();
    assert EntryIsConsistent(LogicalEntries()[6]);
    assert EntryIsConsistent(LogicalEntries()[7]);
    assert EntryIsConsistent(LogicalEntries()[8]);
  }

  /** The negations, conjunctions and disjunctions of the logical table. */
  lemma LogicalConnectivesAreConsistent()
    ensures forall i | 0 <= i < 6 :: EntryIsConsistent(LogicalEntries()[i])
  {
    var t := LogicalEntries();
    assert EntryIsConsistent(t[0]);
    assert EntryIsConsistent(t[1]);
    assert EntryIsConsistent(t[2]);
    assert EntryIsConsistent(t[3]);
    assert EntryIsConsistent(t[4]);
    assert EntryIsConsistent(t[5]);
  }

  lemma EqualityEntriesAreConsistent()
    ensures forall e | e in EqualityEntries() :: EntryIsConsistent(e)
  {
    var t := EqualityEntries();
    assert EntryIsConsistent(t[0]);
    assert EntryIsConsistent(t[1]);
    assert EntryIsConsistent(t[2]);
    assert EntryIsConsistent(t[3]);
    assert EntryIsConsistent(t[4]);
    assert EntryIsConsistent(t[5]);
    assert EntryIsConsistent(t[6]);
    assert EntryIsConsistent(t[7]);
  }

  lemma RelationalEntriesAreConsistent()
    ensures forall e | e in RelationalEntries() :: EntryIsConsistent(e)
  {
    var t := RelationalEntries();
    assert EntryIsConsistent(t[0]);
    assert EntryIsConsistent(t[1]);
    assert EntryIsConsistent(t[2]);
    assert EntryIsConsistent(t[3]);
    assert EntryIsConsistent(t[4]);
    assert EntryIsConsistent(t[5]);
  }

  lemma BuiltInTableIsConsistent()
    ensures forall i | 0 <= i < |BuiltInOperatorTable()| :: EntryIsConsistent(BuiltInOperatorTable()[i])
  {
    ArithmeticEntriesAreConsistent();
    LogicalEntriesAreConsistent();
    EqualityEntriesAreConsistent();
    RelationalEntriesAreConsistent();
    var t := BuiltInOperatorTable();
    forall i | 0 <= i < |t| ensures EntryIsConsistent(t[i]) {
      assert t[i] in ArithmeticEntries() || t[i] in LogicalEntries() || t[i] in EqualityEntries() || t[i] in RelationalEntries();
    }
  }

  /** Every built-in has a well-formed symbol and a signature of one operand for the unary categories and two otherwise. */
  lemma BuiltInOperatorsAreWellFormed()
    ensures forall o | o in BuiltInOperators() :: IsOperatorSymbol(o.symbol)
    ensures forall o | o in BuiltInOperators() :: |o.Signature()| == o.op.Arity() + 1 && o.op.Arity() == (if o.IsInfix() then 2 else 1)
  {
    var t := BuiltInOperatorTable();
    var ops := BuiltInOperators();
    BuiltInTableIsConsistent();
    MakeOperatorsApplies(t);
    forall i | 0 <= i < |ops|
      ensures IsOperatorSymbol(ops[i].symbol)
      ensures |ops[i].Signature()| == ops[i].op.Arity() + 1 && ops[i].op.Arity() == (if ops[i].IsInfix() then 2 else 1)
    {
      ApplyPresetShape(t[i], MathSourceDelegate());
    }
  }
}

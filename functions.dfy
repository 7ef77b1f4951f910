// Function: a named operation. Its constructors check the name first and
// then install the signature through Operation.SetSourceIfValid.
module Functions {
  import opened Wrappers
  import opened Domains
  import opened Errors
  import opened Operations
  import opened Naming
  import opened Expressions
  import ParserGlobal
  import Seqs

  /**
   * A Function object. Its state is settled by the constructor and never
   * changes afterwards, so both parts are constants; reference identity
   * is what the registry's removal compares.
   */
  class Function {
    const name: string
    const op: OpState

    constructor (name: string, op: OpState)
      ensures this.name == name && this.op == op
    {
      this.name := name;
      this.op := op;
    }

    function Arity(): nat { op.Arity() }
  }

  /** The internal constructor: the name guard, then SetSourceIfValid on a fresh operation. */
  method NewFunction(name: string, source: Source, arguments: seq<string>,
                     argumentTypes: seq<ValueDomain>, outputType: ValueDomain) returns (r: Result<Function, Error>)
    ensures r.Err? <==> NameGuard(name).Some?
    ensures r.Err? ==> r.error == NameGuard(name).value
    ensures r.Ok? ==> fresh(r.value) && r.value.name == name
                      && r.value.op == SetSourceIfValidResult(InitialState(), source, arguments, argumentTypes, outputType)
  {
    var guard := NameGuard(name);
    if guard.Some? {
      return Err(guard.value);
    }
    var o := new Operation();
    o.SetSourceIfValid(source, arguments, argumentTypes, outputType);
    var f := new Function(name, o.State());
    r := Ok(f);
  }

  /** Function(name, expression): the name guard, then a copy of the expression's operation. */
  method FunctionFromExpression(name: string, expression: Expression) returns (r: Result<Function, Error>)
    ensures r.Err? <==> NameGuard(name).Some?
    ensures r.Err? ==> r.error == NameGuard(name).value
    ensures r.Ok? ==> fresh(r.value) && r.value.name == name && r.value.op == expression.op
  {
    var guard := NameGuard(name);
    if guard.Some? {
      return Err(guard.value);
    }
    var f := new Function(name, expression.op);
    r := Ok(f);
  }

  /** The four presets of Function.cs. */
  datatype Preset = ArithmeticalOfOneArgument | ArithmeticalOfTwoArguments | LogicalOfOneArgument | LogicalOfTwoArguments

  /** The argument names each preset passes by default. */
  function PresetArguments(p: Preset): seq<string>
  {
    match p
    case ArithmeticalOfOneArgument => ["value"]
    case LogicalOfOneArgument => ["value"]
    case ArithmeticalOfTwoArguments => ["x", "y"]
    case LogicalOfTwoArguments => ["x", "y"]
  }

  /** The domain a preset uses for every argument and for the output. */
  function PresetDomain(p: Preset): ValueDomain
  {
    if p == ArithmeticalOfOneArgument || p == ArithmeticalOfTwoArguments then Double else Boolean
  }

  function PresetArgumentTypes(p: Preset): seq<ValueDomain>
  {
    if p == ArithmeticalOfOneArgument || p == LogicalOfOneArgument then [PresetDomain(p)]
    else [PresetDomain(p), PresetDomain(p)]
  }

  /** The state a preset installs: its defaults pass the guard, so they are installed as given. */
  function PresetState(p: Preset): (st: OpState)
    ensures st == OpState(MathSourceDelegate(), PresetArguments(p), PresetArgumentTypes(p), PresetDomain(p))
    ensures st.Valid()
    ensures st.Arity() == (if p == ArithmeticalOfOneArgument || p == LogicalOfOneArgument then 1 else 2)
  {
    assert ParserGlobal.ValidateName("value") && ParserGlobal.ValidateName("x") && ParserGlobal.ValidateName("y");
    assert NoDuplicatesOfXY: Seqs.NoDuplicates(["x", "y"]) by {
      assert ["x", "y"][0] != ["x", "y"][1];
    }
    SetSourceIfValidResult(InitialState(), MathSourceDelegate(), PresetArguments(p), PresetArgumentTypes(p), PresetDomain(p))
  }

  /** One built-in function: its name and its preset. */
  datatype Entry = Entry(name: string, preset: Preset)

  /** The arithmetic built-ins, in the order GetBuiltInFunctions lists them. */
  function ArithmeticalEntries(): seq<Entry>
  {
    [
      Entry("Abs", ArithmeticalOfOneArgument), Entry("Sqrt", ArithmeticalOfOneArgument),
      Entry("Cbrt", ArithmeticalOfOneArgument), Entry("Exp", ArithmeticalOfOneArgument),
      Entry("Pow", ArithmeticalOfTwoArguments), Entry("Log", ArithmeticalOfTwoArguments),
      Entry("Log2", ArithmeticalOfOneArgument), Entry("Log10", ArithmeticalOfOneArgument),
      Entry("Ln", ArithmeticalOfOneArgument), Entry("Sin", ArithmeticalOfOneArgument),
      Entry("Cos", ArithmeticalOfOneArgument), Entry("Tan", ArithmeticalOfOneArgument),
      Entry("Asin", ArithmeticalOfOneArgument), Entry("Acos", ArithmeticalOfOneArgument),
      Entry("Atan", ArithmeticalOfOneArgument), Entry("Sinh", ArithmeticalOfOneArgument),
      Entry("Cosh", ArithmeticalOfOneArgument), Entry("Tanh", ArithmeticalOfOneArgument),
      Entry("Asinh", ArithmeticalOfOneArgument), Entry("Acosh", ArithmeticalOfOneArgument),
      Entry("Atanh", ArithmeticalOfOneArgument)
    ]
  }

  /** The logical built-ins, in the order GetBuiltInFunctions lists them. */
  function LogicalEntries(): seq<Entry>
  {
    [
      Entry("Not", LogicalOfOneArgument), Entry("And", LogicalOfTwoArguments),
      Entry("Or", LogicalOfTwoArguments), Entry("Eqv", LogicalOfTwoArguments),
      Entry("Imp", LogicalOfTwoArguments), Entry("Xor", LogicalOfTwoArguments),
      Entry("Nand", LogicalOfTwoArguments), Entry("Nor", LogicalOfTwoArguments)
    ]
  }

  /** GetBuiltInFunctions, as a table. */
  function BuiltInFunctionTable(): (t: seq<Entry>)
    ensures |t| == 29
  {
    ArithmeticalEntries() + LogicalEntries()
  }

  /** Pow and Log take two Doubles, every other arithmetic built-in one Double. */
  lemma ArithmeticalSignatures()
    ensures forall i | 0 <= i < |ArithmeticalEntries()| :: PresetDomain(ArithmeticalEntries()[i].preset) == Double
    ensures forall i | 0 <= i < |ArithmeticalEntries()| ::
      (ArithmeticalEntries()[i].preset == ArithmeticalOfTwoArguments <==> i == 4 || i == 5)
    ensures ArithmeticalEntries()[4].name == "Pow" && ArithmeticalEntries()[5].name == "Log"
  {
  }

  /** Not takes one Boolean, every other logical built-in two Booleans. */
  lemma LogicalSignatures()
    ensures forall i | 0 <= i < |LogicalEntries()| :: PresetDomain(LogicalEntries()[i].preset) == Boolean
    ensures forall i | 0 <= i < |LogicalEntries()| ::
      (LogicalEntries()[i].preset == LogicalOfOneArgument <==> i == 0)
    ensures LogicalEntries()[0].name == "Not"
  {
  }

  /** Every name in t starts with a Latin letter and holds only naming characters. */
  predicate NamesAreValid(t: seq<Entry>)
  {
    forall i | 0 <= i < |t| :: ParserGlobal.ValidateName(t[i].name)
  }

  /** A name of Latin letters and digits that starts with a letter passes ValidateName. */
  lemma PlainNameIsValid(n: string)
    requires |n| > 0 && ParserGlobal.IsLatinLetter(n[0])
    requires forall k | 0 <= k < |n| :: ParserGlobal.IsLatinLetter(n[k]) || ParserGlobal.IsDigit(n[k])
    ensures ParserGlobal.ValidateName(n)
  {
  }

  lemma ArithmeticalNamesAreValid()
    ensures NamesAreValid(ArithmeticalEntries())
  {
    PlainNameIsValid("Abs");
    PlainNameIsValid("Sqrt");
    PlainNameIsValid("Cbrt");
    PlainNameIsValid("Exp");
    PlainNameIsValid("Pow");
    PlainNameIsValid("Log");
    PlainNameIsValid("Log2");
    PlainNameIsValid("Log10");
    PlainNameIsValid("Ln");
    PlainNameIsValid("Sin");
    PlainNameIsValid("Cos");
    PlainNameIsValid("Tan");
    PlainNameIsValid("Asin");
    PlainNameIsValid("Acos");
    PlainNameIsValid("Atan");
    PlainNameIsValid("Sinh");
    PlainNameIsValid("Cosh");
    PlainNameIsValid("Tanh");
    PlainNameIsValid("Asinh");
    PlainNameIsValid("Acosh");
    PlainNameIsValid("Atanh");
  }

  lemma LogicalNamesAreValid()
    ensures NamesAreValid(LogicalEntries())
  {
    PlainNameIsValid("Not");
    PlainNameIsValid("And");
    PlainNameIsValid("Or");
    PlainNameIsValid("Eqv");
    PlainNameIsValid("Imp");
    PlainNameIsValid("Xor");
    PlainNameIsValid("Nand");
    PlainNameIsValid("Nor");
  }

  /** Every built-in name passes the name guard, so the table can be built without an error. */
  lemma BuiltInFunctionNamesAreValid()
    ensures forall i | 0 <= i < |BuiltInFunctionTable()| :: NameGuard(BuiltInFunctionTable()[i].name) == None
  {
    ArithmeticalNamesAreValid();
    LogicalNamesAreValid();
    var a: seq<Entry>, l: seq<Entry> := ArithmeticalEntries(), LogicalEntries();
    forall i | 0 <= i < |a + l| ensures ParserGlobal.ValidateName((a + l)[i].name) {
      if i < |a| {
        assert (a + l)[i] == a[i];
      } else {
        assert (a + l)[i] == l[i - |a|];
      }
    }
  }

  /** GetBuiltInFunctions: one fresh Function per table entry, in table order. */
  method GetBuiltInFunctions() returns (fs: seq<Function>)
    ensures |fs| == |BuiltInFunctionTable()|
    ensures forall i | 0 <= i < |fs| :: fresh(fs[i]) && fs[i].name == BuiltInFunctionTable()[i].name
                                        && fs[i].op == PresetState(BuiltInFunctionTable()[i].preset)
  {
    BuiltInFunctionNamesAreValid();
    fs := NewBuiltIns(BuiltInFunctionTable());
  }

  /** The loop of GetBuiltInFunctions over the entries t. */
  method NewBuiltIns(t: seq<Entry>) returns (fs: seq<Function>)
    requires forall i | 0 <= i < |t| :: NameGuard(t[i].name) == None
    ensures |fs| == |t|
    ensures forall i | 0 <= i < |fs| :: fresh(fs[i]) && fs[i].name == t[i].name && fs[i].op == PresetState(t[i].preset)
  {
    fs := [];
    var i := 0;
    while i < |t|
      invariant 0 <= i <= |t| && |fs| == i
      invariant forall k | 0 <= k < i :: fresh(fs[k]) && fs[k].name == t[k].name && fs[k].op == PresetState(t[k].preset)
    {
      var f := NewBuiltIn(t[i]);
      fs := fs + [f];
      i := i + 1;
    }
  }

  /** One entry of the table: its name passes the guard, so the Function is created with the preset's state. */
  method NewBuiltIn(e: Entry) returns (f: Function)
    requires NameGuard(e.name) == None
    ensures fresh(f) && f.name == e.name && f.op == PresetState(e.preset)
  {
    var p := e.preset;
    var r := NewFunction(e.name, MathSourceDelegate(), PresetArguments(p), PresetArgumentTypes(p), PresetDomain(p));
    f := r.value;
  }
}

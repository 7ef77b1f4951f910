// Constant: a named value of a declared domain, checked once at construction.
module Constants {
  import opened Wrappers
  import opened Domains
  import opened Errors
  import opened Naming
  import ParserGlobal

  /** A Constant object: its init-only properties; identity matters to the registry's removal. */
  class Constant {
    const name: string
    const domain: ValueDomain
    const value: Num

    constructor (name: string, domain: ValueDomain, value: Num)
      ensures this.name == name && this.domain == domain && this.value == value
    {
      this.name := name;
      this.domain := domain;
      this.value := value;
    }
  }

  /** The three guards of the constructor, in order: blank name, invalid name, value outside the domain. */
  function ConstantGuard(name: string, domain: ValueDomain, value: Num): (e: Option<Error>)
    ensures e == None <==> ParserGlobal.ValidateName(name) && CheckIfValueBelongsToType(value, domain)
    ensures NameGuard(name).Some? ==> e == NameGuard(name)
    ensures NameGuard(name).None? && !CheckIfValueBelongsToType(value, domain) ==> e == Some(ValueTypeMismatch(value, domain))
  {
    if NameGuard(name).Some? then NameGuard(name)
    else if !CheckIfValueBelongsToType(value, domain) then Some(ValueTypeMismatch(value, domain))
    else None
  }

  /** The public constructor: an error for a failed guard, otherwise a fresh constant with the given fields. */
  method NewConstant(name: string, domain: ValueDomain, value: Num) returns (r: Result<Constant, Error>)
    ensures r.Err? <==> ConstantGuard(name, domain, value).Some?
    ensures r.Err? ==> r.error == ConstantGuard(name, domain, value).value
    ensures r.Ok? ==> fresh(r.value) && r.value.name == name && r.value.domain == domain && r.value.value == value
  {
    var guard := ConstantGuard(name, domain, value);
    if guard.Some? {
      return Err(guard.value);
    }
    var c := new Constant(name, domain, value);
    r := Ok(c);
  }

  /** A Boolean constant can only hold 0 or 1; a Double one any finite value. */
  lemma BooleanConstantsAreZeroOrOne(name: string, value: Num)
    requires ParserGlobal.ValidateName(name)
    ensures ConstantGuard(name, Boolean, value).None? <==> value == Finite(0.0) || value == Finite(1.0)
    ensures ConstantGuard(name, Boolean, Finite(0.5)) == Some(ValueTypeMismatch(Finite(0.5), Boolean))
    ensures ConstantGuard(name, Double, NaN) == Some(ValueTypeMismatch(NaN, Double))
  {
  }

  /** One built-in constant. Math.PI, Math.E and Math.Tau are given to the precision of their double literals. */
  datatype Entry = Entry(name: string, domain: ValueDomain, value: Num)

  /** GetBuiltInConstants, as a table. */
  function BuiltInConstantTable(): (t: seq<Entry>)
    ensures |t| == 5
  {
    [
      Entry("Pi", Double, Finite(3.141592653589793)),
      Entry("E", Double, Finite(2.718281828459045)),
      Entry("Tau", Double, Finite(6.283185307179586)),
      Entry("True", Boolean, Finite(1.0)),
      Entry("False", Boolean, Finite(0.0))
    ]
  }

  /** Every built-in passes all three guards; True is Boolean 1 and False is Boolean 0. */
  lemma BuiltInConstantsPassTheGuards()
    ensures forall i | 0 <= i < |BuiltInConstantTable()| ::
      ConstantGuard(BuiltInConstantTable()[i].name, BuiltInConstantTable()[i].domain, BuiltInConstantTable()[i].value) == None
    ensures BuiltInConstantTable()[3] == Entry("True", Boolean, Finite(1.0))
    ensures BuiltInConstantTable()[4] == Entry("False", Boolean, Finite(0.0))
  {
    var t := BuiltInConstantTable();
    forall i | 0 <= i < |t| ensures ParserGlobal.ValidateName(t[i].name) {
      var n := t[i].name;
      assert ParserGlobal.IsLatinLetter(n[0]);
      assert forall k | 0 <= k < |n| :: ParserGlobal.IsNamingCharacter(n[k]);
    }
  }

  /** GetBuiltInConstants: one fresh Constant per table entry, in table order. */
  method GetBuiltInConstants() returns (cs: seq<Constant>)
    ensures |cs| == |BuiltInConstantTable()|
    ensures forall i | 0 <= i < |cs| ::
              fresh(cs[i]) && cs[i].name == BuiltInConstantTable()[i].name
              && cs[i].domain == BuiltInConstantTable()[i].domain && cs[i].value == BuiltInConstantTable()[i].value
  {
    var t := BuiltInConstantTable();
    BuiltInConstantsPassTheGuards();
    cs := [];
    var i := 0;
    while i < |t|
      invariant 0 <= i <= |t| && |cs| == i
      invariant forall k | 0 <= k < i :: fresh(cs[k]) && cs[k].name == t[k].name && cs[k].domain == t[k].domain && cs[k].value == t[k].value
    {
      var r := NewConstant(t[i].name, t[i].domain, t[i].value);
      assert r.Ok?;
      cs := cs + [r.value];
      i := i + 1;
    }
  }
}

// The name guard that the Function and Constant constructors apply before
// anything else.
module Naming {
  import opened Wrappers
  import opened Errors
  import opened Text
  import ParserGlobal

  /** A null or whitespace name is reported first; any other invalid identifier second. */
  function NameGuard(name: string): (e: Option<Error>)
    ensures e == None <==> ParserGlobal.ValidateName(name)
    ensures e.Some? ==> e.value == NameIsNullOrWhitespace || e.value == InvalidNaming(name)
  {
    if IsNullOrWhiteSpace(name) then ValidIdentifiersAreNotBlank(name); Some(NameIsNullOrWhitespace)
    else if !ParserGlobal.ValidateName(name) then Some(InvalidNaming(name))
    else None
  }

  /** A valid identifier holds at least one character that is not whitespace. */
  lemma ValidIdentifiersAreNotBlank(name: string)
    ensures ParserGlobal.ValidateName(name) ==> !IsNullOrWhiteSpace(name)
  {
    if ParserGlobal.ValidateName(name) {
      assert ParserGlobal.IsNamingCharacter(name[0]);
    }
  }

  /** The two guards in the order the constructors apply them. */
  lemma NameGuardOrder(name: string)
    ensures IsNullOrWhiteSpace(name) ==> NameGuard(name) == Some(NameIsNullOrWhitespace)
    ensures !IsNullOrWhiteSpace(name) && !ParserGlobal.ValidateName(name) ==> NameGuard(name) == Some(InvalidNaming(name))
    ensures NameGuard("") == Some(NameIsNullOrWhitespace) && NameGuard("  ") == Some(NameIsNullOrWhitespace)
    ensures NameGuard("2x") == Some(InvalidNaming("2x")) && NameGuard("x") == None
  {
    assert !ParserGlobal.ValidateName("2x") by { assert ParserGlobal.IsDigit("2x"[0]); }
    assert !IsNullOrWhiteSpace("2x") by { assert !IsWhiteSpace("2x"[0]); }
    assert !IsNullOrWhiteSpace("x") by { assert !IsWhiteSpace("x"[0]); }
  }
}

// ArgumentTypizationHandler: for every argument name, the type fixed so far
// (or none) and the list of types its uses required; Refresh fixes each
// unfixed argument to its first requirement and reports every requirement
// that disagrees with it.
module TypizationHandler {
  import opened Wrappers
  import opened Domains
  import opened Errors
  import opened Seqs

  type Types = map<string, Option<ValueDomain>>
  type Requirements = map<string, seq<ValueDomain>>

  /** Every name has an entry in both dictionaries. */
  predicate Known(names: seq<string>, types: Types, reqs: Requirements)
  {
    forall x | x in names :: x in types && x in reqs
  }

  /** The type Refresh fixes an argument to: the first requirement, if there is one. */
  function FirstRequirement(reqs: seq<ValueDomain>): Option<ValueDomain>
  {
    if reqs == [] then None else Some(reqs[0])
  }

  /** The errors of the inner loop over the first n requirements: one per requirement other than the first. */
  function Conflicts(name: string, reqs: seq<ValueDomain>, n: nat): (r: seq<Error>)
    requires n <= |reqs|
    ensures forall e | e in r :: e == ArgumentTypizationError(name)
  {
    if n == 0 then []
    else Conflicts(name, reqs, n - 1) + (if reqs[n - 1] != reqs[0] then [ArgumentTypizationError(name)] else [])
  }

  /** All requirements of an argument agree. */
  predicate Agree(reqs: seq<ValueDomain>)
  {
    forall j | 0 <= j < |reqs| :: reqs[j] == reqs[0]
  }

  /** An argument is reported exactly when its requirements disagree. */
  lemma {:induction false} ConflictsIff(name: string, reqs: seq<ValueDomain>, n: nat)
    requires n <= |reqs|
    ensures Conflicts(name, reqs, n) == [] <==> forall j | 0 <= j < n :: reqs[j] == reqs[0]
  {
    if n > 0 {
      ConflictsIff(name, reqs, n - 1);
    }
  }

  /** The new types, the typesChanged flag and the errors of RefreshArgumentTypes. */
  datatype Refreshed = Refreshed(types: Types, changed: bool, errors: seq<Error>)

  /** RefreshArgumentTypes over the first n names, in the dictionary's order. */
  function RefreshUpTo(names: seq<string>, types: Types, reqs: Requirements, n: nat): (r: Refreshed)
    requires n <= |names| && Known(names, types, reqs)
    ensures r.types.Keys == types.Keys
  {
    if n == 0 then Refreshed(types, false, [])
    else
      var p := RefreshUpTo(names, types, reqs, n - 1);
      var x := names[n - 1];
      if p.types[x].Some? then p
      else
        var e := Conflicts(x, reqs[x], |reqs[x]|);
        match FirstRequirement(reqs[x])
        case None => Refreshed(p.types, p.changed, p.errors + e)
        case Some(t) => Refreshed(p.types[x := Some(t)], true, p.errors + e)
  }

  /** One iteration of the outer loop: a fixed argument is skipped, an unfixed one takes its first requirement. */
  function RefreshName(p: Refreshed, x: string, reqs: seq<ValueDomain>): (r: Refreshed)
    requires x in p.types
    ensures r.types.Keys == p.types.Keys
  {
    if p.types[x].Some? then p
    else
      var e := Conflicts(x, reqs, |reqs|);
      match FirstRequirement(reqs)
      case None => Refreshed(p.types, p.changed, p.errors + e)
      case Some(t) => Refreshed(p.types[x := Some(t)], true, p.errors + e)
  }

  /** Each iteration of the outer loop does what RefreshName says. */
  lemma RefreshUpToNext(names: seq<string>, types: Types, reqs: Requirements, n: nat)
    requires n < |names| && Known(names, types, reqs)
    ensures RefreshUpTo(names, types, reqs, n + 1) == RefreshName(RefreshUpTo(names, types, reqs, n), names[n], reqs[names[n]])
  {
  }

  /** One iteration reports nothing exactly when nothing was reported before and an unfixed argument's requirements agree. */
  lemma RefreshNameErrors(p: Refreshed, x: string, reqs: seq<ValueDomain>)
    requires x in p.types
    ensures RefreshName(p, x, reqs).errors == [] <==> p.errors == [] && (p.types[x].None? ==> Agree(reqs))
  {
    ConflictsIff(x, reqs, |reqs|);
  }

  /** Refresh reports only argument typization errors. */
  lemma {:induction false} RefreshReportsArgumentErrors(names: seq<string>, types: Types, reqs: Requirements, n: nat)
    requires n <= |names| && Known(names, types, reqs)
    ensures forall e | e in RefreshUpTo(names, types, reqs, n).errors :: e.ArgumentTypizationError?
  {
    if n > 0 {
      RefreshReportsArgumentErrors(names, types, reqs, n - 1);
    }
  }

  /** The arguments whose type is not fixed yet. */
  function Unresolved(names: seq<string>, types: Types): set<string>
  {
    set x | x in names && x in types && types[x].None?
  }

  /**
   * What Refresh does to each entry: an argument that was not fixed and has
   * a requirement is fixed to its first requirement; every other entry,
   * in particular every type already fixed, stays as it was.
   */
  lemma {:induction false} RefreshChanges(names: seq<string>, types: Types, reqs: Requirements, n: nat)
    requires n <= |names| && Known(names, types, reqs)
    ensures forall x | x in types ::
      (RefreshUpTo(names, types, reqs, n).types[x]
       == if x in names[..n] && types[x].None? && reqs[x] != [] then Some(reqs[x][0]) else types[x])
  {
    if n > 0 {
      RefreshChanges(names, types, reqs, n - 1);
      assert names[..n] == names[..n - 1] + [names[n - 1]];
    }
  }

  /** typesChanged is true exactly when some unfixed argument had a requirement. */
  lemma {:induction false} RefreshChangedIff(names: seq<string>, types: Types, reqs: Requirements, n: nat)
    requires n <= |names| && Known(names, types, reqs)
    ensures RefreshUpTo(names, types, reqs, n).changed <==>
      exists i | 0 <= i < n :: types[names[i]].None? && reqs[names[i]] != []
  {
    if n > 0 {
      RefreshChangedIff(names, types, reqs, n - 1);
      RefreshChanges(names, types, reqs, n - 1);
      var x := names[n - 1];
      if types[x].None? && reqs[x] != [] && x in names[..n - 1] {
        var i :| 0 <= i < n - 1 && names[..n - 1][i] == x;
        assert names[i] == x;
      }
    }
  }

  /** Every unfixed argument among the first n names has requirements that agree. */
  predicate UnfixedAgree(names: seq<string>, types: Types, reqs: Requirements, n: nat)
    requires n <= |names| && Known(names, types, reqs)
  {
    forall i | 0 <= i < n && types[names[i]].None? :: Agree(reqs[names[i]])
  }

  /** With distinct names, Refresh reports nothing exactly when every unfixed argument's requirements agree. */
  lemma {:induction false} RefreshErrorsIff(names: seq<string>, types: Types, reqs: Requirements, n: nat)
    requires n <= |names| && Known(names, types, reqs) && NoDuplicates(names)
    ensures RefreshUpTo(names, types, reqs, n).errors == [] <==>
      UnfixedAgree(names, types, reqs, n)
  {
    if n > 0 {
      RefreshErrorsIff(names, types, reqs, n - 1);
      RefreshChanges(names, types, reqs, n - 1);
      var x := names[n - 1];
      assert x !in names[..n - 1];
      var p := RefreshUpTo(names, types, reqs, n - 1);
      RefreshUpToNext(names, types, reqs, n - 1);
      RefreshNameErrors(p, x, reqs[x]);
      assert p.types[x] == types[x];
      assert UnfixedAgree(names, types, reqs, n)
          == (UnfixedAgree(names, types, reqs, n - 1) && (types[x].None? ==> Agree(reqs[x])));
    }
  }

  /** No argument becomes unresolved again, and when the flag is set one more argument is resolved. */
  lemma RefreshResolves(names: seq<string>, types: Types, reqs: Requirements)
    requires Known(names, types, reqs)
    ensures var r := RefreshUpTo(names, types, reqs, |names|);
      Unresolved(names, r.types) <= Unresolved(names, types)
      && (r.changed ==> Unresolved(names, r.types) < Unresolved(names, types))
      && (r.changed ==> |Unresolved(names, r.types)| < |Unresolved(names, types)|)
  {
    var r := RefreshUpTo(names, types, reqs, |names|);
    RefreshChanges(names, types, reqs, |names|);
    RefreshChangedIff(names, types, reqs, |names|);
    assert names[..|names|] == names;
    if r.changed {
      var i :| 0 <= i < |names| && types[names[i]].None? && reqs[names[i]] != [];
      var before, after := Unresolved(names, types), Unresolved(names, r.types);
      assert names[i] in before - after;
      assert before == after + (before - after);
      assert |before| == |after| + |before - after|;
    }
  }

  /**
   * One full Refresh: fixed types stay; a newly fixed type is the first
   * requirement; when nothing changed, every unfixed argument has no
   * requirement; and only argument typization errors are reported.
   */
  lemma RefreshFacts(names: seq<string>, types: Types, reqs: Requirements)
    requires Known(names, types, reqs)
    ensures var r := RefreshUpTo(names, types, reqs, |names|);
      (forall x | x in types && types[x].Some? :: r.types[x] == types[x])
      && (forall x | x in names && types[x].None? && r.types[x].Some? :: reqs[x] != [] && r.types[x] == Some(reqs[x][0]))
      && (!r.changed ==> forall x | x in names && r.types[x].None? :: reqs[x] == [])
      && (forall e | e in r.errors :: e.ArgumentTypizationError?)
  {
    var r := RefreshUpTo(names, types, reqs, |names|);
    RefreshChanges(names, types, reqs, |names|);
    RefreshReportsArgumentErrors(names, types, reqs, |names|);
    assert names[..|names|] == names;
    if !r.changed {
      RefreshChangedIff(names, types, reqs, |names|);
      forall x | x in names && r.types[x].None? ensures reqs[x] == [] {
        var i :| 0 <= i < |names| && names[i] == x;
      }
    }
  }

  /** The dictionaries a new handler starts with: every argument unfixed and without requirements. */
  function NoTypes(argumentNames: seq<string>): (types: Types)
    ensures forall x :: x in types <==> x in argumentNames
    ensures forall x | x in types :: types[x] == None
  {
    map x | x in argumentNames :: None
  }

  function NoRequirements(argumentNames: seq<string>): (reqs: Requirements)
    ensures forall x :: x in reqs <==> x in argumentNames
    ensures forall x | x in reqs :: reqs[x] == []
  {
    map x | x in argumentNames :: []
  }

  class ArgumentTypizationHandler {
    /** The argument names, in the order the dictionaries enumerate them. */
    const names: seq<string>
    var types: Types
    var requirements: Requirements

    ghost predicate Valid()
      reads this
    {
      NoDuplicates(names)
      && (forall x :: x in types <==> x in names)
      && (forall x :: x in requirements <==> x in names)
    }

    /** Every argument starts unfixed, with no requirement. */
    constructor (argumentNames: seq<string>)
      ensures Valid() && names == Distinct(argumentNames)
      ensures types == NoTypes(argumentNames) && requirements == NoRequirements(argumentNames)
    {
      names := Distinct(argumentNames);
      types := NoTypes(argumentNames);
      requirements := NoRequirements(argumentNames);
    }

    /** Appends a requirement to one argument's list; nothing else changes. */
    method RequireArgumentType(name: string, t: ValueDomain)
      requires Valid() && name in requirements
      modifies this
      ensures requirements == old(requirements)[name := old(requirements)[name] + [t]]
      ensures types == old(types) && Valid()
    {
      requirements := requirements[name := requirements[name] + [t]];
    }

    function GetArgumentType(name: string): Option<ValueDomain>
      reads this
      requires name in types
    {
      types[name]
    }

    /** The inner loop of RefreshArgumentTypes over one argument's requirements. */
    static method ScanRequirements(name: string, reqs: seq<ValueDomain>) returns (required: Option<ValueDomain>, errors: seq<Error>)
      ensures required == FirstRequirement(reqs) && errors == Conflicts(name, reqs, |reqs|)
    {
      required := None;
      errors := [];
      for j := 0 to |reqs|
        invariant required == (if j == 0 then None else Some(reqs[0]))
        invariant errors == Conflicts(name, reqs, j)
      {
        if required.None? {
          required := Some(reqs[j]);
        } else if required.value != reqs[j] {
          errors := errors + [ArgumentTypizationError(name)];
        }
      }
    }

    /** One iteration of RefreshArgumentTypes' outer loop, on the loop's variables. */
    static method RefreshOne(p: Refreshed, name: string, reqs: seq<ValueDomain>) returns (q: Refreshed)
      requires name in p.types
      ensures q == RefreshName(p, name, reqs)
    {
      if p.types[name].Some? {
        return p;
      }
      var required, more := ScanRequirements(name, reqs);
      q := p.(errors := p.errors + more);
      if required.Some? {
        q := q.(types := q.types[name := required], changed := true);
      }
    }

    /** The outer loop of RefreshArgumentTypes, on the loop's variables. */
    static method RefreshAll(names: seq<string>, types: Types, reqs: Requirements) returns (acc: Refreshed)
      requires Known(names, types, reqs)
      ensures acc == RefreshUpTo(names, types, reqs, |names|)
    {
      acc := Refreshed(types, false, []);
      for i := 0 to |names|
        invariant acc == RefreshUpTo(names, types, reqs, i)
      {
        RefreshUpToNext(names, types, reqs, i);
        acc := RefreshOne(acc, names[i], reqs[names[i]]);
      }
    }

    /** RefreshArgumentTypes: the outer loop over the names, the inner one over each list of requirements. */
    method RefreshArgumentTypes() returns (ok: bool, typesChanged: bool, errors: seq<Error>)
      requires Valid()
      modifies this
      ensures Refreshed(types, typesChanged, errors) == RefreshUpTo(names, old(types), old(requirements), |names|)
      ensures ok <==> errors == []
      ensures requirements == old(requirements) && Valid()
    {
      var acc := RefreshAll(names, types, requirements);
      types, typesChanged, errors := acc.types, acc.changed, acc.errors;
      ok := |errors| == 0;
    }
  }
}

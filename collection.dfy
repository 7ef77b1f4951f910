// MathCollection: the registry of operators, functions and constants a
// parser resolves names against. Functions are keyed by name and arity,
// constants by name; removal goes by object reference (List.Remove).
//
// Every mutator is stated against a value-level outcome function over the
// registry's lists, and the lemmas about those functions carry the
// properties: keys stay distinct, an add is undone by a remove, a range
// operation is all-or-nothing.
module MathCollections {
  import opened Wrappers
  import opened Errors
  import opened Seqs
  import opened Duplicates
  import Operators
  import opened Functions
  import opened Constants

  /** The comparison FindDuplicates and Exists use for functions: same name and same arity. */
  datatype FunctionKey = FunctionKey(name: string, arity: nat)

  function FunctionKeyOf(f: Function): FunctionKey
  {
    FunctionKey(f.name, f.Arity())
  }

  function ConstantKeyOf(c: Constant): string
  {
    c.name
  }

  // ---------------------------------------------------------------------
  // Value-level outcomes
  // ---------------------------------------------------------------------

  /** List.Exists with the key comparison. */
  predicate HasKey<T, K(==)>(s: seq<T>, key: T -> K, k: K)
  {
    exists i | 0 <= i < |s| :: key(s[i]) == k
  }

  /** One error per element of s, in order (the foreach over FindDuplicates' result). */
  function MapErrors<T>(s: seq<T>, err: T -> Error): (r: seq<Error>)
    ensures |r| == |s|
    ensures forall i | 0 <= i < |s| :: r[i] == err(s[i])
  {
    if s == [] then [] else [err(s[0])] + MapErrors(s[1..], err)
  }

  /** The errors reported for the repeated keys of an input array. */
  function DuplicateErrors<T(==), K(==)>(xs: seq<T>, key: T -> K, err: T -> Error): (r: seq<Error>)
    ensures r == [] <==> KeysDistinct(xs, key)
  {
    NoReportIffKeysDistinct(xs, key);
    MapErrors(ReportedUpTo(xs, key, |xs|), err)
  }

  /**
   * The loop over an input array that adds an error for every element whose
   * key is (present == true) or is not (present == false) among s's keys.
   */
  function KeyErrors<T, K(==)>(s: seq<T>, xs: seq<T>, key: T -> K, present: bool, err: T -> Error): (r: seq<Error>)
    ensures r == [] <==> forall i | 0 <= i < |xs| :: HasKey(s, key, key(xs[i])) != present
    ensures |r| <= |xs|
  {
    if xs == [] then []
    else
      var rest := KeyErrors(s, xs[1..], key, present, err);
      assert forall i | 1 <= i < |xs| :: xs[i] == xs[1..][i - 1];
      (if HasKey(s, key, key(xs[0])) == present then [err(xs[0])] else []) + rest
  }

  /** The foreach that removes every element of xs by reference, in order. */
  function RemoveEach<T(==)>(s: seq<T>, xs: seq<T>): (r: seq<T>)
    ensures |r| <= |s|
    ensures forall i | 0 <= i < |r| :: r[i] in s
    decreases |xs|
  {
    if xs == [] then s else RemoveEach(RemoveFirst(s, xs[0]), xs[1..])
  }

  /** What a mutator reports and the list it leaves. */
  datatype Outcome<T> = Outcome(error: Option<Error>, items: seq<T>)

  /** Add: a conflict on the key, or the element appended. */
  function AddOne<T, K(==)>(s: seq<T>, x: T, key: T -> K, conflict: T -> Error): (o: Outcome<T>)
    ensures o.error.None? <==> !HasKey(s, key, key(x))
    ensures o.error.None? ==> o.items == s + [x]
    ensures o.error.Some? ==> o.error == Some(conflict(x)) && o.items == s
  {
    if HasKey(s, key, key(x)) then Outcome(Some(conflict(x)), s) else Outcome(None, s + [x])
  }

  /** AddRange: duplicates in the input first, then conflicts with the registry, otherwise all appended. */
  function AddRange<T(==), K(==)>(s: seq<T>, xs: seq<T>, key: T -> K, duplicate: T -> Error, conflict: T -> Error): (o: Outcome<T>)
    ensures o.error.None? <==> KeysDistinct(xs, key) && forall i | 0 <= i < |xs| :: !HasKey(s, key, key(xs[i]))
    ensures o.error.None? ==> o.items == s + xs
    ensures o.error.Some? ==> o.items == s && o.error.value.SeveralErrorsDuringMathCollectionProcessing?
  {
    var d := DuplicateErrors(xs, key, duplicate);
    if d != [] then Outcome(Some(SeveralErrorsDuringMathCollectionProcessing(d)), s)
    else
      var c := KeyErrors(s, xs, key, true, conflict);
      if c != [] then Outcome(Some(SeveralErrorsDuringMathCollectionProcessing(c)), s)
      else Outcome(None, s + xs)
  }

  /** Remove: the object itself must be registered; the first occurrence goes. */
  function RemoveOne<T(==)>(s: seq<T>, x: T, notFound: T -> Error): (o: Outcome<T>)
    ensures o.error.None? <==> x in s
    ensures o.error.None? ==> |o.items| == |s| - 1 && multiset(o.items) == multiset(s) - multiset{x}
    ensures o.error.Some? ==> o.error == Some(notFound(x)) && o.items == s
  {
    if x in s then
      RemoveFirstMultiset(s, x);
      Outcome(None, RemoveFirst(s, x))
    else Outcome(Some(notFound(x)), s)
  }

  /**
   * RemoveRange as the function overload does it, and as the constant
   * overload evidently intends: duplicates in the input first, then a
   * NotFound error for every key the registry lacks, otherwise every
   * element removed by reference.
   */
  function RemoveRange<T(==), K(==)>(s: seq<T>, xs: seq<T>, key: T -> K, duplicate: T -> Error, notFound: T -> Error): (o: Outcome<T>)
    ensures o.error.None? <==> KeysDistinct(xs, key) && forall i | 0 <= i < |xs| :: HasKey(s, key, key(xs[i]))
    ensures o.error.None? ==> o.items == RemoveEach(s, xs)
    ensures o.error.Some? ==> o.items == s && o.error.value.SeveralErrorsDuringMathCollectionProcessing?
  {
    var d := DuplicateErrors(xs, key, duplicate);
    if d != [] then Outcome(Some(SeveralErrorsDuringMathCollectionProcessing(d)), s)
    else
      var m := KeyErrors(s, xs, key, false, notFound);
      if m != [] then Outcome(Some(SeveralErrorsDuringMathCollectionProcessing(m)), s)
      else Outcome(None, RemoveEach(s, xs))
  }

  /**
   * RemoveRange(Constant[]) as written: its second loop raises a
   * ConflictOnConstantInsertion for every name the registry HAS, so it gets
   * past that loop only when no name is present.
   */
  function RemoveConstantRangeAsWritten(s: seq<Constant>, xs: seq<Constant>): (o: Outcome<Constant>)
    ensures o.error.None? <==> KeysDistinct(xs, ConstantKeyOf) && forall i | 0 <= i < |xs| :: !HasKey(s, ConstantKeyOf, xs[i].name)
  {
    var d := DuplicateErrors(xs, ConstantKeyOf, DuplicateConstant);
    if d != [] then Outcome(Some(SeveralErrorsDuringMathCollectionProcessing(d)), s)
    else
      var c := KeyErrors(s, xs, ConstantKeyOf, true, ConstantConflict);
      if c != [] then Outcome(Some(SeveralErrorsDuringMathCollectionProcessing(c)), s)
      else Outcome(None, RemoveEach(s, xs))
  }

  function DuplicateFunction(f: Function): Error { DuplicateInInputFunctionArray(f.name, f.Arity()) }
  function FunctionConflict(f: Function): Error { ConflictOnFunctionInsertion(f.name, f.Arity()) }
  function MissingFunction(f: Function): Error { FunctionNotFound(f.name, f.Arity()) }
  function DuplicateConstant(c: Constant): Error { DuplicateInInputConstantArray(c.name) }
  function ConstantConflict(c: Constant): Error { ConflictOnConstantInsertion(c.name) }
  function MissingConstant(c: Constant): Error { ConstantNotFound(c.name) }

  /** The constructor's errors: function duplicates, then constant duplicates. */
  function CreationErrors(fs: seq<Function>, cs: seq<Constant>): seq<Error>
  {
    DuplicateErrors(fs, FunctionKeyOf, DuplicateFunction) + DuplicateErrors(cs, ConstantKeyOf, DuplicateConstant)
  }

  // ---------------------------------------------------------------------
  // Properties of the outcomes
  // ---------------------------------------------------------------------

  /** The constructor throws exactly when some function key or some constant name repeats. */
  lemma CreationSucceedsIffKeysDistinct(fs: seq<Function>, cs: seq<Constant>)
    ensures CreationErrors(fs, cs) == [] <==> KeysDistinct(fs, FunctionKeyOf) && KeysDistinct(cs, ConstantKeyOf)
  {
  }

  /** The registry's invariant survives every add. */
  lemma {:induction false} AddKeepsKeysDistinct<T, K>(s: seq<T>, xs: seq<T>, key: T -> K)
    requires KeysDistinct(s, key) && KeysDistinct(xs, key)
    requires forall i | 0 <= i < |xs| :: !HasKey(s, key, key(xs[i]))
    ensures KeysDistinct(s + xs, key)
  {
    var r := s + xs;
    forall i, j | 0 <= i < j < |r| ensures key(r[i]) != key(r[j]) {
      if j >= |s| && i < |s| {
        assert r[j] == xs[j - |s|];
        assert !HasKey(s, key, key(xs[j - |s|]));
        assert r[i] == s[i];
      } else if i >= |s| {
        assert r[i] == xs[i - |s|] && r[j] == xs[j - |s|];
      } else {
        assert r[i] == s[i] && r[j] == s[j];
      }
    }
  }

  /** Removing one occurrence keeps the rest of the keys distinct. */
  lemma {:induction false} RemoveFirstKeepsKeysDistinct<T, K>(s: seq<T>, x: T, key: T -> K)
    requires KeysDistinct(s, key)
    ensures KeysDistinct(RemoveFirst(s, x), key)
  {
    if s != [] && s[0] != x {
      var tail := s[1..];
      assert KeysDistinct(tail, key) by {
        forall i, j | 0 <= i < j < |tail| ensures key(tail[i]) != key(tail[j]) { assert tail[i] == s[i + 1] && tail[j] == s[j + 1]; }
      }
      RemoveFirstKeepsKeysDistinct(tail, x, key);
      var rest := RemoveFirst(tail, x);
      forall i | 0 <= i < |rest| ensures key(rest[i]) != key(s[0]) {
        var k :| 0 <= k < |tail| && tail[k] == rest[i];
        assert tail[k] == s[k + 1];
      }
      var r := [s[0]] + rest;
      forall i, j | 0 <= i < j < |r| ensures key(r[i]) != key(r[j]) {
        if i == 0 { assert r[j] == rest[j - 1]; } else { assert r[i] == rest[i - 1] && r[j] == rest[j - 1]; }
      }
    } else if s != [] {
      var tail := s[1..];
      forall i, j | 0 <= i < j < |tail| ensures key(tail[i]) != key(tail[j]) { assert tail[i] == s[i + 1] && tail[j] == s[j + 1]; }
    }
  }

  lemma {:induction false} RemoveEachKeepsKeysDistinct<T, K>(s: seq<T>, xs: seq<T>, key: T -> K)
    requires KeysDistinct(s, key)
    ensures KeysDistinct(RemoveEach(s, xs), key)
    decreases |xs|
  {
    if xs != [] {
      RemoveFirstKeepsKeysDistinct(s, xs[0], key);
      RemoveEachKeepsKeysDistinct(RemoveFirst(s, xs[0]), xs[1..], key);
    }
  }

  /** Every outcome of every range mutator keeps the keys of the registry distinct. */
  lemma OutcomesKeepKeysDistinct<T, K>(s: seq<T>, xs: seq<T>, key: T -> K, e1: T -> Error, e2: T -> Error)
    requires KeysDistinct(s, key)
    ensures KeysDistinct(AddRange(s, xs, key, e1, e2).items, key)
    ensures KeysDistinct(RemoveRange(s, xs, key, e1, e2).items, key)
  {
    if AddRange(s, xs, key, e1, e2).error.None? {
      AddKeepsKeysDistinct(s, xs, key);
    }
    RemoveEachKeepsKeysDistinct(s, xs, key);
  }

  /** Every outcome of every single-element mutator keeps the keys of the registry distinct. */
  lemma OutcomeKeepsKeysDistinct<T, K>(s: seq<T>, x: T, key: T -> K, e1: T -> Error, e2: T -> Error)
    requires KeysDistinct(s, key)
    ensures KeysDistinct(AddOne(s, x, key, e1).items, key)
    ensures KeysDistinct(RemoveOne(s, x, e2).items, key)
  {
    if !HasKey(s, key, key(x)) {
      AddKeepsKeysDistinct(s, [x], key);
    }
    RemoveFirstKeepsKeysDistinct(s, x, key);
  }

  /** Remove undoes a successful Add. */
  lemma AddThenRemove<T, K>(s: seq<T>, x: T, key: T -> K, conflict: T -> Error, notFound: T -> Error)
    requires AddOne(s, x, key, conflict).error.None?
    ensures RemoveOne(AddOne(s, x, key, conflict).items, x, notFound) == Outcome(None, s)
  {
    forall k | 0 <= k < |s| ensures s[k] != x {
      assert key(s[k]) != key(x);
    }
    RemoveFirstOfAppended(s, x);
  }

  /** RemoveRange undoes a successful AddRange of the same objects. */
  lemma {:induction false} RemoveEachOfAppended<T>(s: seq<T>, xs: seq<T>)
    requires NoDuplicates(xs) && forall i | 0 <= i < |xs| :: xs[i] !in s
    ensures RemoveEach(s + xs, xs) == s
  {
    if xs != [] {
      assert s + xs == (s + [xs[0]]) + xs[1..];
      RemoveFirstIsFirstOccurrence(s, xs[0], xs[1..]);
      assert RemoveFirst(s + xs, xs[0]) == s + xs[1..];
      forall i | 0 <= i < |xs[1..]| ensures xs[1..][i] !in s { assert xs[1..][i] == xs[i + 1]; }
      assert NoDuplicates(xs[1..]) by {
        forall i, j | 0 <= i < j < |xs[1..]| ensures xs[1..][i] != xs[1..][j] { assert xs[1..][i] == xs[i + 1] && xs[1..][j] == xs[j + 1]; }
      }
      RemoveEachOfAppended(s, xs[1..]);
    }
  }

  /** Removal passes over a prefix that does not hold the element. */
  lemma {:induction false} RemoveFirstSkips<T>(a: seq<T>, b: seq<T>, x: T)
    requires x !in a
    ensures RemoveFirst(a + b, x) == a + RemoveFirst(b, x)
  {
    if a != [] {
      assert (a + b)[0] == a[0] && (a + b)[1..] == a[1..] + b;
      RemoveFirstSkips(a[1..], b, x);
      assert a + RemoveFirst(b, x) == [a[0]] + (a[1..] + RemoveFirst(b, x));
    } else {
      assert a + b == b && a + RemoveFirst(b, x) == RemoveFirst(b, x);
    }
  }

  lemma RemoveFirstIsFirstOccurrence<T>(s: seq<T>, x: T, rest: seq<T>)
    requires x !in s
    ensures RemoveFirst(s + [x] + rest, x) == s + rest
  {
    assert s + [x] + rest == s + ([x] + rest);
    RemoveFirstSkips(s, [x] + rest, x);
    assert ([x] + rest)[1..] == rest;
  }

  /** Keys that differ make objects that differ, so an admitted range holds no registered object. */
  lemma AbsentKeysAreAbsentObjects<T, K>(s: seq<T>, xs: seq<T>, key: T -> K)
    requires KeysDistinct(xs, key) && forall i | 0 <= i < |xs| :: !HasKey(s, key, key(xs[i]))
    ensures NoDuplicates(xs) && forall i | 0 <= i < |xs| :: xs[i] !in s
  {
    forall i, k | 0 <= i < |xs| && 0 <= k < |s| ensures s[k] != xs[i] {
      assert key(s[k]) != key(xs[i]);
    }
  }

  /** AddRange then RemoveRange of the same array gives the registry back. */
  lemma AddRangeThenRemoveRange<T, K>(s: seq<T>, xs: seq<T>, key: T -> K, e1: T -> Error, e2: T -> Error, e3: T -> Error)
    requires AddRange(s, xs, key, e1, e2).error.None?
    ensures RemoveRange(AddRange(s, xs, key, e1, e2).items, xs, key, e1, e3) == Outcome(None, s)
  {
    AbsentKeysAreAbsentObjects(s, xs, key);
    RemoveEachOfAppended(s, xs);
    forall i | 0 <= i < |xs| ensures HasKey(s + xs, key, key(xs[i])) {
      assert (s + xs)[|s| + i] == xs[i];
    }
  }

  /** Whatever the as-written constant RemoveRange admits, it removes nothing. */
  lemma {:induction false} RemoveEachOfAbsent<T>(s: seq<T>, xs: seq<T>)
    requires forall i | 0 <= i < |xs| :: xs[i] !in s
    ensures RemoveEach(s, xs) == s
  {
    if xs != [] {
      forall i | 0 <= i < |xs[1..]| ensures xs[1..][i] !in s { assert xs[1..][i] == xs[i + 1]; }
      RemoveEachOfAbsent(s, xs[1..]);
    }
  }

  lemma RemoveConstantRangeAsWrittenRemovesNothing(s: seq<Constant>, xs: seq<Constant>)
    ensures RemoveConstantRangeAsWritten(s, xs).items == s
  {
    if RemoveConstantRangeAsWritten(s, xs).error.None? {
      AbsentKeysAreAbsentObjects(s, xs, ConstantKeyOf);
      RemoveEachOfAbsent(s, xs);
    }
  }

  /** Removing a registered constant by range: refused as written, done by the corrected version. */
  lemma RemoveConstantRangeDiscrepancy(c: Constant)
    ensures RemoveConstantRangeAsWritten([c], [c]).error == Some(SeveralErrorsDuringMathCollectionProcessing([ConflictOnConstantInsertion(c.name)]))
    ensures RemoveRange([c], [c], ConstantKeyOf, DuplicateConstant, MissingConstant) == Outcome(None, [])
  {
    assert HasKey([c], ConstantKeyOf, c.name) by { assert ConstantKeyOf([c][0]) == c.name; }
    assert DuplicateErrors([c], ConstantKeyOf, DuplicateConstant) == [];
    assert [c][1..] == [];
    assert KeyErrors([c], [c], ConstantKeyOf, true, ConstantConflict) == [ConstantConflict(c)];
  }

  /** The built-in names repeat nowhere, so Default never throws. */
  lemma ArithmeticalNamesAreDistinct()
    ensures forall i, j | 0 <= i < j < |ArithmeticalEntries()| :: ArithmeticalEntries()[i].name != ArithmeticalEntries()[j].name
  {
  }

  lemma LogicalNamesAreDistinct()
    ensures forall i, j | 0 <= i < j < |LogicalEntries()| :: LogicalEntries()[i].name != LogicalEntries()[j].name
  {
  }

  lemma ArithmeticalAndLogicalNamesDiffer()
    ensures forall i, j | 0 <= i < |ArithmeticalEntries()| && 0 <= j < |LogicalEntries()| :: ArithmeticalEntries()[i].name != LogicalEntries()[j].name
  {
  }

  lemma BuiltInFunctionNamesAreDistinct()
    ensures forall i, j | 0 <= i < j < |BuiltInFunctionTable()| :: BuiltInFunctionTable()[i].name != BuiltInFunctionTable()[j].name
  {
    ArithmeticalNamesAreDistinct();
    LogicalNamesAreDistinct();
    ArithmeticalAndLogicalNamesDiffer();
    var a, l := ArithmeticalEntries(), LogicalEntries();
    var t := BuiltInFunctionTable();
    forall i, j | 0 <= i < j < |t| ensures t[i].name != t[j].name {
      if j < |a| { assert t[i] == a[i] && t[j] == a[j]; }
      else if i >= |a| { assert t[i] == l[i - |a|] && t[j] == l[j - |a|]; }
      else { assert t[i] == a[i] && t[j] == l[j - |a|]; }
    }
  }

  lemma BuiltInConstantNamesAreDistinct()
    ensures forall i, j | 0 <= i < j < |BuiltInConstantTable()| :: BuiltInConstantTable()[i].name != BuiltInConstantTable()[j].name
  {
  }

  // ---------------------------------------------------------------------
  // The loops of the source
  // ---------------------------------------------------------------------

  /** FindDuplicates followed by the foreach that turns every reported element into an error. */
  method ReportDuplicates<T(==), K(==)>(xs: seq<T>, key: T -> K, err: T -> Error) returns (errs: seq<Error>)
    ensures errs == DuplicateErrors(xs, key, err)
  {
    var dups := FindDuplicates(xs, key);
    errs := [];
    var i := 0;
    while i < |dups|
      invariant 0 <= i <= |dups|
      invariant errs == MapErrors(dups[..i], err)
    {
      assert dups[..i + 1] == dups[..i] + [dups[i]];
      MapErrorsAppend(dups[..i], dups[i], err);
      errs := errs + [err(dups[i])];
      i := i + 1;
    }
    assert dups[..|dups|] == dups;
  }

  lemma MapErrorsAppend<T>(s: seq<T>, x: T, err: T -> Error)
    ensures MapErrors(s + [x], err) == MapErrors(s, err) + [err(x)]
  {
  }

  /** The for loop over an input array with List.Exists inside. */
  method CollectKeyErrors<T, K(==)>(s: seq<T>, xs: seq<T>, key: T -> K, present: bool, err: T -> Error) returns (errs: seq<Error>)
    ensures errs == KeyErrors(s, xs, key, present, err)
  {
    errs := [];
    var i := |xs|;
    while i > 0
      invariant 0 <= i <= |xs|
      invariant errs == KeyErrors(s, xs[i..], key, present, err)
    {
      i := i - 1;
      assert xs[i..][1..] == xs[i + 1..];
      var found := Exists(s, key, key(xs[i]));
      if found == present {
        errs := [err(xs[i])] + errs;
      }
    }
    assert xs[0..] == xs;
  }

  /** List.Exists over the registry. */
  method Exists<T, K(==)>(s: seq<T>, key: T -> K, k: K) returns (found: bool)
    ensures found == HasKey(s, key, k)
  {
    var i := 0;
    while i < |s|
      invariant 0 <= i <= |s|
      invariant forall j | 0 <= j < i :: key(s[j]) != k
    {
      if key(s[i]) == k {
        return true;
      }
      i := i + 1;
    }
    return false;
  }

  /** The foreach of List.Remove calls. */
  method RemoveAll<T(==)>(s: seq<T>, xs: seq<T>) returns (r: seq<T>)
    ensures r == RemoveEach(s, xs)
  {
    r := s;
    var i := 0;
    while i < |xs|
      invariant 0 <= i <= |xs|
      invariant RemoveEach(r, xs[i..]) == RemoveEach(s, xs)
    {
      assert xs[i..][1..] == xs[i + 1..];
      r := RemoveFirst(r, xs[i]);
      i := i + 1;
    }
  }

  /** The body of AddRange on the registry's list. */
  method AddRangeTo<T(==), K(==)>(s: seq<T>, xs: seq<T>, key: T -> K, duplicate: T -> Error, conflict: T -> Error) returns (o: Outcome<T>)
    ensures o == AddRange(s, xs, key, duplicate, conflict)
  {
    var d := ReportDuplicates(xs, key, duplicate);
    if |d| != 0 {
      return Outcome(Some(SeveralErrorsDuringMathCollectionProcessing(d)), s);
    }
    var conflicts := CollectKeyErrors(s, xs, key, true, conflict);
    if |conflicts| != 0 {
      return Outcome(Some(SeveralErrorsDuringMathCollectionProcessing(conflicts)), s);
    }
    return Outcome(None, s + xs);
  }

  /** The body of RemoveRange on the registry's list. */
  method RemoveRangeFrom<T(==), K(==)>(s: seq<T>, xs: seq<T>, key: T -> K, duplicate: T -> Error, notFound: T -> Error) returns (o: Outcome<T>)
    ensures o == RemoveRange(s, xs, key, duplicate, notFound)
  {
    var d := ReportDuplicates(xs, key, duplicate);
    if |d| != 0 {
      return Outcome(Some(SeveralErrorsDuringMathCollectionProcessing(d)), s);
    }
    var missing := CollectKeyErrors(s, xs, key, false, notFound);
    if |missing| != 0 {
      return Outcome(Some(SeveralErrorsDuringMathCollectionProcessing(missing)), s);
    }
    var r := RemoveAll(s, xs);
    return Outcome(None, r);
  }

  /** Partitions of the operator array by category, as the three getters filter it. */
  function OperatorsWhere(ops: seq<Operators.Operator>, p: Operators.Operator -> bool): (r: seq<Operators.Operator>)
    ensures |r| <= |ops|
    ensures forall i | 0 <= i < |r| :: p(r[i])
  {
    if ops == [] then [] else (if p(ops[0]) then [ops[0]] else []) + OperatorsWhere(ops[1..], p)
  }

  function PrefixOperators(ops: seq<Operators.Operator>): seq<Operators.Operator>
  {
    OperatorsWhere(ops, (o: Operators.Operator) => o.IsPrefix())
  }

  function PostfixOperators(ops: seq<Operators.Operator>): seq<Operators.Operator>
  {
    OperatorsWhere(ops, (o: Operators.Operator) => o.IsPostfix())
  }

  function InfixOperators(ops: seq<Operators.Operator>): seq<Operators.Operator>
  {
    OperatorsWhere(ops, (o: Operators.Operator) => o.IsInfix())
  }

  /** The Select(o => o.Symbol) of the symbol getters. */
  function Symbols(ops: seq<Operators.Operator>): (r: seq<string>)
    ensures |r| == |ops| && forall i | 0 <= i < |ops| :: r[i] == ops[i].symbol
  {
    if ops == [] then [] else [ops[0].symbol] + Symbols(ops[1..])
  }

  /** The three partitions split the operators: every operator lands in exactly one, none is lost. */
  lemma {:induction false} PartitionsCoverOperators(ops: seq<Operators.Operator>)
    ensures |PrefixOperators(ops)| + |PostfixOperators(ops)| + |InfixOperators(ops)| == |ops|
    ensures forall i | 0 <= i < |ops| :: ops[i].IsPrefix() ==> ops[i] in PrefixOperators(ops)
    ensures forall i | 0 <= i < |ops| :: ops[i].IsPostfix() ==> ops[i] in PostfixOperators(ops)
    ensures forall i | 0 <= i < |ops| :: ops[i].IsInfix() ==> ops[i] in InfixOperators(ops)
  {
    if ops != [] {
      PartitionsCoverOperators(ops[1..]);
      forall i | 1 <= i < |ops| ensures ops[i] == ops[1..][i - 1] { }
    }
  }

  // ---------------------------------------------------------------------
  // The registry object
  // ---------------------------------------------------------------------

  class MathCollection {
    const operators: seq<Operators.Operator>
    var functions: seq<Function>
    var constants: seq<Constant>

    /** What the constructor establishes and every mutator keeps: no key twice. */
    ghost predicate Valid()
      reads this
    {
      KeysDistinct(functions, FunctionKeyOf) && KeysDistinct(constants, ConstantKeyOf)
    }

    constructor (fs: seq<Function>, cs: seq<Constant>)
      requires KeysDistinct(fs, FunctionKeyOf) && KeysDistinct(cs, ConstantKeyOf)
      ensures operators == Operators.BuiltInOperators() && functions == fs && constants == cs
      ensures Valid()
    {
      operators := Operators.BuiltInOperators();
      functions := fs;
      constants := cs;
    }

    /** The public constructor: throws the aggregate of all duplicate errors, else keeps both arrays. */
    static method Create(fs: seq<Function>, cs: seq<Constant>) returns (r: Result<MathCollection, Error>)
      ensures r.Err? <==> CreationErrors(fs, cs) != []
      ensures r.Err? ==> r.error == SeveralErrorsDuringMathCollectionProcessing(CreationErrors(fs, cs))
      ensures r.Ok? ==> fresh(r.value) && r.value.Valid() && r.value.functions == fs && r.value.constants == cs
      ensures r.Ok? ==> r.value.operators == Operators.BuiltInOperators()
    {
      var fe := ReportDuplicates(fs, FunctionKeyOf, DuplicateFunction);
      var ce := ReportDuplicates(cs, ConstantKeyOf, DuplicateConstant);
      var exceptions := fe + ce;
      if |exceptions| != 0 {
        return Err(SeveralErrorsDuringMathCollectionProcessing(exceptions));
      }
      CreationSucceedsIffKeysDistinct(fs, cs);
      var c := new MathCollection(fs, cs);
      return Ok(c);
    }

    /** Default: the built-in functions and constants, which never clash. */
    static method Default() returns (c: MathCollection)
      ensures fresh(c) && c.Valid()
      ensures |c.functions| == |BuiltInFunctionTable()| && |c.constants| == |BuiltInConstantTable()|
      ensures c.operators == Operators.BuiltInOperators() && forall f | f in c.functions :: f.op.Valid()
    {
      var fs := DistinctBuiltInFunctions();
      var cs := DistinctBuiltInConstants();
      CreationSucceedsIffKeysDistinct(fs, cs);
      var r := Create(fs, cs);
      c := r.value;
    }

    /** The built-in functions, whose keys never clash. */
    static method DistinctBuiltInFunctions() returns (fs: seq<Function>)
      ensures |fs| == |BuiltInFunctionTable()| && KeysDistinct(fs, FunctionKeyOf)
      ensures forall f | f in fs :: f.op.Valid()
    {
      fs := GetBuiltInFunctions();
      BuiltInFunctionNamesAreDistinct();
      assert KeysDistinct(fs, FunctionKeyOf);
    }

    /** The built-in constants, whose names never clash. */
    static method DistinctBuiltInConstants() returns (cs: seq<Constant>)
      ensures |cs| == |BuiltInConstantTable()| && KeysDistinct(cs, ConstantKeyOf)
    {
      cs := GetBuiltInConstants();
      BuiltInConstantNamesAreDistinct();
      assert KeysDistinct(cs, ConstantKeyOf);
    }

    method AddFunction(f: Function) returns (e: Option<Error>)
      requires Valid()
      modifies this
      ensures Outcome(e, functions) == AddOne(old(functions), f, FunctionKeyOf, FunctionConflict)
      ensures constants == old(constants) && Valid()
    {
      var found := Exists(functions, FunctionKeyOf, FunctionKeyOf(f));
      if found {
        return Some(FunctionConflict(f));
      }
      AddKeepsKeysDistinct(functions, [f], FunctionKeyOf);
      functions := functions + [f];
      return None;
    }

    method AddConstant(c: Constant) returns (e: Option<Error>)
      requires Valid()
      modifies this
      ensures Outcome(e, constants) == AddOne(old(constants), c, ConstantKeyOf, ConstantConflict)
      ensures functions == old(functions) && Valid()
    {
      var found := Exists(constants, ConstantKeyOf, c.name);
      if found {
        return Some(ConstantConflict(c));
      }
      AddKeepsKeysDistinct(constants, [c], ConstantKeyOf);
      constants := constants + [c];
      return None;
    }

    method TryAddFunction(f: Function) returns (ok: bool)
      requires Valid()
      modifies this
      ensures ok == AddOne(old(functions), f, FunctionKeyOf, FunctionConflict).error.None?
      ensures functions == AddOne(old(functions), f, FunctionKeyOf, FunctionConflict).items
      ensures constants == old(constants) && Valid()
    {
      var e := AddFunction(f);
      ok := e.None?;
    }

    method TryAddConstant(c: Constant) returns (ok: bool)
      requires Valid()
      modifies this
      ensures ok == AddOne(old(constants), c, ConstantKeyOf, ConstantConflict).error.None?
      ensures constants == AddOne(old(constants), c, ConstantKeyOf, ConstantConflict).items
      ensures functions == old(functions) && Valid()
    {
      var e := AddConstant(c);
      ok := e.None?;
    }

    method AddFunctionRange(fs: seq<Function>) returns (e: Option<Error>)
      requires Valid()
      modifies this
      ensures Outcome(e, functions) == AddRange(old(functions), fs, FunctionKeyOf, DuplicateFunction, FunctionConflict)
      ensures constants == old(constants) && Valid()
    {
      var o := AddRangeTo(functions, fs, FunctionKeyOf, DuplicateFunction, FunctionConflict);
      OutcomesKeepKeysDistinct(functions, fs, FunctionKeyOf, DuplicateFunction, FunctionConflict);
      e, functions := o.error, o.items;
    }

    method AddConstantRange(cs: seq<Constant>) returns (e: Option<Error>)
      requires Valid()
      modifies this
      ensures Outcome(e, constants) == AddRange(old(constants), cs, ConstantKeyOf, DuplicateConstant, ConstantConflict)
      ensures functions == old(functions) && Valid()
    {
      var o := AddRangeTo(constants, cs, ConstantKeyOf, DuplicateConstant, ConstantConflict);
      OutcomesKeepKeysDistinct(constants, cs, ConstantKeyOf, DuplicateConstant, ConstantConflict);
      e, constants := o.error, o.items;
    }
  
    method RemoveFunction(f: Function) returns (e: Option<Error>)
      requires Valid()
      modifies this
      ensures Outcome(e, functions) == RemoveOne(old(functions), f, MissingFunction)
      ensures constants == old(constants) && Valid()
    {
      OutcomeKeepsKeysDistinct(functions, f, FunctionKeyOf, FunctionConflict, MissingFunction);
      if f !in functions {
        return Some(MissingFunction(f));
      }
      functions := RemoveFirst(functions, f);
      return None;
    }

    method RemoveConstant(c: Constant) returns (e: Option<Error>)
      requires Valid()
      modifies this
      ensures Outcome(e, constants) == RemoveOne(old(constants), c, MissingConstant)
      ensures functions == old(functions) && Valid()
    {
      OutcomeKeepsKeysDistinct(constants, c, ConstantKeyOf, ConstantConflict, MissingConstant);
      if c !in constants {
        return Some(MissingConstant(c));
      }
      constants := RemoveFirst(constants, c);
      return None;
    }

    method TryRemoveFunction(f: Function) returns (ok: bool)
      requires Valid()
      modifies this
      ensures ok == RemoveOne(old(functions), f, MissingFunction).error.None?
      ensures functions == RemoveOne(old(functions), f, MissingFunction).items
      ensures constants == old(constants) && Valid()
    {
      var e := RemoveFunction(f);
      ok := e.None?;
    }

    method TryRemoveConstant(c: Constant) returns (ok: bool)
      requires Valid()
      modifies this
      ensures ok == RemoveOne(old(constants), c, MissingConstant).error.None?
      ensures constants == RemoveOne(old(constants), c, MissingConstant).items
      ensures functions == old(functions) && Valid()
    {
      var e := RemoveConstant(c);
      ok := e.None?;
    }

    method TryAddFunctionRange(fs: seq<Function>) returns (ok: bool)
      requires Valid()
      modifies this
      ensures ok == AddRange(old(functions), fs, FunctionKeyOf, DuplicateFunction, FunctionConflict).error.None?
      ensures functions == AddRange(old(functions), fs, FunctionKeyOf, DuplicateFunction, FunctionConflict).items
      ensures constants == old(constants) && Valid()
    {
      var e := AddFunctionRange(fs);
      ok := e.None?;
    }

    method TryAddConstantRange(cs: seq<Constant>) returns (ok: bool)
      requires Valid()
      modifies this
      ensures ok == AddRange(old(constants), cs, ConstantKeyOf, DuplicateConstant, ConstantConflict).error.None?
      ensures constants == AddRange(old(constants), cs, ConstantKeyOf, DuplicateConstant, ConstantConflict).items
      ensures functions == old(functions) && Valid()
    {
      var e := AddConstantRange(cs);
      ok := e.None?;
    }

    method RemoveFunctionRange(fs: seq<Function>) returns (e: Option<Error>)
      requires Valid()
      modifies this
      ensures Outcome(e, functions) == RemoveRange(old(functions), fs, FunctionKeyOf, DuplicateFunction, MissingFunction)
      ensures constants == old(constants) && Valid()
    {
      var o := RemoveRangeFrom(functions, fs, FunctionKeyOf, DuplicateFunction, MissingFunction);
      OutcomesKeepKeysDistinct(functions, fs, FunctionKeyOf, DuplicateFunction, MissingFunction);
      e, functions := o.error, o.items;
    }

    /** RemoveRange(Constant[]) with the NotFound check it evidently intends (the as-written check is RemoveConstantRangeAsWritten). */
    method RemoveConstantRange(cs: seq<Constant>) returns (e: Option<Error>)
      requires Valid()
      modifies this
      ensures Outcome(e, constants) == RemoveRange(old(constants), cs, ConstantKeyOf, DuplicateConstant, MissingConstant)
      ensures functions == old(functions) && Valid()
    {
      var o := RemoveRangeFrom(constants, cs, ConstantKeyOf, DuplicateConstant, MissingConstant);
      OutcomesKeepKeysDistinct(constants, cs, ConstantKeyOf, DuplicateConstant, MissingConstant);
      e, constants := o.error, o.items;
    }

    method TryRemoveFunctionRange(fs: seq<Function>) returns (ok: bool)
      requires Valid()
      modifies this
      ensures ok == RemoveRange(old(functions), fs, FunctionKeyOf, DuplicateFunction, MissingFunction).error.None?
      ensures functions == RemoveRange(old(functions), fs, FunctionKeyOf, DuplicateFunction, MissingFunction).items
      ensures constants == old(constants) && Valid()
    {
      var e := RemoveFunctionRange(fs);
      ok := e.None?;
    }

    method TryRemoveConstantRange(cs: seq<Constant>) returns (ok: bool)
      requires Valid()
      modifies this
      ensures ok == RemoveRange(old(constants), cs, ConstantKeyOf, DuplicateConstant, MissingConstant).error.None?
      ensures constants == RemoveRange(old(constants), cs, ConstantKeyOf, DuplicateConstant, MissingConstant).items
      ensures functions == old(functions) && Valid()
    {
      var e := RemoveConstantRange(cs);
      ok := e.None?;
    }

    /** Clone: a new registry built from copies of both lists; the duplicate check cannot fail on a valid registry. */
    method Clone() returns (c: MathCollection)
      requires Valid()
      ensures fresh(c) && c.Valid() && c.functions == functions && c.constants == constants
      ensures c.operators == Operators.BuiltInOperators()
    {
      var fa := GetFunctions();
      var ca := GetConstants();
      var fs, cs := fa[..], ca[..];
      CreationSucceedsIffKeysDistinct(fs, cs);
      var r := Create(fs, cs);
      c := r.value;
    }

    /** The Functions getter: a fresh array with the registered functions in order. */
    method GetFunctions() returns (a: array<Function>)
      ensures fresh(a) && a[..] == functions
    {
      var fs := functions;
      a := new Function[|fs|](i requires 0 <= i < |fs| => fs[i]);
    }

    /** The Constants getter: a fresh array with the registered constants in order. */
    method GetConstants() returns (a: array<Constant>)
      ensures fresh(a) && a[..] == constants
    {
      var cs := constants;
      a := new Constant[|cs|](i requires 0 <= i < |cs| => cs[i]);
    }

    /** The Operators getter: a fresh array with the operators in order. */
    method GetOperators() returns (a: array<Operators.Operator>)
      ensures fresh(a) && |a[..]| == |operators| && forall i | 0 <= i < |operators| :: a[i] == operators[i]
    {
      var ops := operators;
      a := new Operators.Operator[|ops|](i requires 0 <= i < |ops| => ops[i]);
    }
  }
}

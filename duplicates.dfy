// FindDuplicates of the registry: which elements of an input array it
// reports for a key comparison, stated in closed form and proved of the
// loop that marks checked indices.
module Duplicates {
  import opened Seqs

  /** Array.FindAll with the comparison "same key as k". */
  function FindAll<T, K(==)>(a: seq<T>, key: T -> K, k: K): (r: seq<T>)
    ensures |r| <= |a|
    ensures forall j | 0 <= j < |r| :: key(r[j]) == k && r[j] in a
  {
    if a == [] then [] else (if key(a[0]) == k then [a[0]] else []) + FindAll(a[1..], key, k)
  }

  /** Array.IndexOf: the first index holding x (reference equality for objects). */
  function IndexOf<T(==)>(a: seq<T>, x: T): (i: nat)
    requires x in a
    ensures i < |a| && a[i] == x
    ensures forall j | 0 <= j < i :: a[j] != x
  {
    if a[0] == x then 0 else 1 + IndexOf(a[1..], x)
  }

  /** The first index whose element has the same key as a[i]. */
  function FirstKeyIndex<T, K(==)>(a: seq<T>, key: T -> K, i: nat): (f: nat)
    requires i < |a|
    ensures f <= i && key(a[f]) == key(a[i])
    ensures forall j | 0 <= j < f :: key(a[j]) != key(a[i])
  {
    if key(a[0]) == key(a[i]) then 0 else 1 + FirstKeyIndex(a[1..], key, i - 1)
  }

  /** FindAll keeps exactly the elements with the wanted key, and the first of them comes first. */
  lemma {:induction false} FindAllMembers<T, K>(a: seq<T>, key: T -> K, k: K)
    ensures forall j | 0 <= j < |a| && key(a[j]) == k :: a[j] in FindAll(a, key, k)
  {
    if a != [] {
      FindAllMembers(a[1..], key, k);
      forall j | 0 <= j < |a| && key(a[j]) == k ensures a[j] in FindAll(a, key, k) {
        if j > 0 { assert a[j] == a[1..][j - 1]; }
      }
    }
  }

  lemma {:induction false} FindAllHead<T, K>(a: seq<T>, key: T -> K, i: nat)
    requires i < |a|
    ensures |FindAll(a, key, key(a[i]))| > 0
    ensures FindAll(a, key, key(a[i]))[0] == a[FirstKeyIndex(a, key, i)]
  {
    if key(a[0]) != key(a[i]) {
      FindAllHead(a[1..], key, i - 1);
    }
  }

  /** Two indices with the same key belong to one group: a second member makes the group larger than one. */
  lemma {:induction false} FindAllCountsTwo<T, K>(a: seq<T>, key: T -> K, i: nat, j: nat)
    requires i < j < |a| && key(a[i]) == key(a[j])
    ensures |FindAll(a, key, key(a[i]))| > 1
  {
    if i == 0 {
      FindAllMembers(a[1..], key, key(a[i]));
      assert a[1..][j - 1] == a[j];
    } else {
      FindAllCountsTwo(a[1..], key, i - 1, j - 1);
    }
  }

  /** A group of size more than one has a member other than the first. */
  lemma {:induction false} FindAllSecond<T, K>(a: seq<T>, key: T -> K, i: nat) returns (j: nat)
    requires i < |a| && |FindAll(a, key, key(a[i]))| > 1
    ensures j < |a| && j != FirstKeyIndex(a, key, i) && key(a[j]) == key(a[i])
  {
    if key(a[0]) == key(a[i]) {
      var rest := FindAll(a[1..], key, key(a[i]));
      assert |rest| > 0;
      FindAllMembers(a[1..], key, key(a[i]));
      var x := rest[0];
      var p :| 0 <= p < |a[1..]| && a[1..][p] == x;
      j := p + 1;
    } else {
      var j' := FindAllSecond(a[1..], key, i - 1);
      j := j' + 1;
    }
  }

  /** The group of index i: every index with its key. */
  function GroupSize<T, K(==)>(a: seq<T>, key: T -> K, i: nat): nat
    requires i < |a|
  {
    |FindAll(a, key, key(a[i]))|
  }

  /**
   * Whether the loop reports at index i: i's group has more than one member
   * and i is either the first member or holds an object already seen
   * (IndexOf then finds the earlier occurrence, so i is never marked checked).
   */
  predicate IsReported<T(==), K(==)>(a: seq<T>, key: T -> K, i: nat)
    requires i < |a|
  {
    GroupSize(a, key, i) > 1 && (i == FirstKeyIndex(a, key, i) || IndexOf(a, a[i]) < i)
  }

  /** What the loop has reported after its first n iterations: a group's first member for each reporting index. */
  function ReportedUpTo<T(==), K(==)>(a: seq<T>, key: T -> K, n: nat): (r: seq<T>)
    requires n <= |a|
    ensures |r| <= n
  {
    if n == 0 then []
    else ReportedUpTo(a, key, n - 1) + (if IsReported(a, key, n - 1) then [a[FirstKeyIndex(a, key, n - 1)]] else [])
  }

  /** The indices the loop has marked checked before iteration i, among those it has not reached. */
  predicate Marked<T(==), K(==)>(a: seq<T>, key: T -> K, i: nat, q: nat)
    requires q < |a|
  {
    FirstKeyIndex(a, key, q) < i && GroupSize(a, key, q) > 1 && IndexOf(a, a[q]) == q
  }

  /** Indices with the same key share their first index. */
  lemma {:induction false} FirstKeyIndexOfSameKey<T, K>(a: seq<T>, key: T -> K, i: nat, q: nat)
    requires i < |a| && q < |a| && key(a[i]) == key(a[q])
    ensures FirstKeyIndex(a, key, i) == FirstKeyIndex(a, key, q)
  {
    if key(a[0]) != key(a[i]) {
      FirstKeyIndexOfSameKey(a[1..], key, i - 1, q - 1);
    }
  }

  /** Whether marking the members F[1..n] through IndexOf reaches index q. */
  predicate ReachedBy<T(==)>(a: seq<T>, F: seq<T>, n: nat, q: nat)
    requires n <= |F| && forall j | 0 <= j < |F| :: F[j] in a
  {
    exists jj | 1 <= jj < n :: IndexOf(a, F[jj]) == q
  }

  /** The indices that marking the group of a[i] reaches beyond its first member. */
  lemma MarkingReaches<T, K>(a: seq<T>, key: T -> K, i: nat, q: nat)
    requires i < |a| && FirstKeyIndex(a, key, i) < q < |a|
    ensures var F := FindAll(a, key, key(a[i]));
      ReachedBy(a, F, |F|, q) <==> key(a[q]) == key(a[i]) && IndexOf(a, a[q]) == q
  {
    var F := FindAll(a, key, key(a[i]));
    if key(a[q]) == key(a[i]) && IndexOf(a, a[q]) == q {
      FindAllMembers(a, key, key(a[i]));
      FindAllHead(a, key, i);
      var j :| 0 <= j < |F| && F[j] == a[q];
      assert a[FirstKeyIndex(a, key, i)] != a[q];
      assert 1 <= j < |F| && IndexOf(a, F[j]) == q;
    }
  }

  /** An iteration that finds index i already checked reports nothing and keeps the marks. */
  lemma CheckedStep<T, K>(a: seq<T>, key: T -> K, i: nat)
    requires i < |a| && Marked(a, key, i, i)
    ensures !IsReported(a, key, i)
    ensures forall q | i + 1 <= q < |a| :: Marked(a, key, i + 1, q) <==> Marked(a, key, i, q)
  {
    forall q | i + 1 <= q < |a| ensures Marked(a, key, i + 1, q) <==> Marked(a, key, i, q) {
      if key(a[q]) == key(a[i]) { FirstKeyIndexOfSameKey(a, key, i, q); }
    }
  }

  /** An iteration that finds index i unchecked reports i's group head exactly when the group is larger than one. */
  lemma UncheckedReport<T, K>(a: seq<T>, key: T -> K, i: nat)
    requires i < |a| && !Marked(a, key, i, i)
    ensures IsReported(a, key, i) <==> GroupSize(a, key, i) > 1
  {
  }

  /** After an unchecked iteration, the mark of index q is that of the next iteration. */
  lemma UncheckedStepAt<T, K>(a: seq<T>, key: T -> K, i: nat, q: nat, before: bool, after: bool)
    requires i < q < |a|
    requires before <==> Marked(a, key, i, q)
    requires !Marked(a, key, i, i)
    requires GroupSize(a, key, i) > 1 ==> (after <==> before || ReachedBy(a, FindAll(a, key, key(a[i])), GroupSize(a, key, i), q))
    requires GroupSize(a, key, i) <= 1 ==> after == before
    ensures after <==> Marked(a, key, i + 1, q)
  {
    if GroupSize(a, key, i) > 1 {
      MarkingReaches(a, key, i, q);
    }
    if key(a[q]) == key(a[i]) {
      FirstKeyIndexOfSameKey(a, key, i, q);
    } else {
      assert FirstKeyIndex(a, key, q) != i;
    }
  }

  /** The inner loop: marks IndexOf(a, F[j]) checked for every j from 1 on. */
  method MarkGroup<T(==)>(a: seq<T>, F: seq<T>, checkedIndices: array<bool>)
    requires checkedIndices.Length == |a| && |F| >= 1 && forall j | 0 <= j < |F| :: F[j] in a
    modifies checkedIndices
    ensures forall q | 0 <= q < |a| :: checkedIndices[q] <==> old(checkedIndices[q]) || ReachedBy(a, F, |F|, q)
  {
    var j := 1;
    while j < |F|
      invariant 1 <= j <= |F|
      invariant forall q | 0 <= q < |a| :: checkedIndices[q] <==> old(checkedIndices[q]) || ReachedBy(a, F, j, q)
    {
      checkedIndices[IndexOf(a, F[j])] := true;
      j := j + 1;
    }
  }

  /**
   * FindDuplicates with the comparison "same key": the loop over i with the
   * checkedIndices array, for each unchecked i the group of a[i] and, when the
   * group is larger than one, its first member reported and the other members
   * marked through IndexOf.
   */
  method FindDuplicates<T(==), K(==)>(a: seq<T>, key: T -> K) returns (result: seq<T>)
    ensures result == ReportedUpTo(a, key, |a|)
  {
    result := [];
    var checkedIndices := new bool[|a|](_ => false);
    var i := 0;
    while i < |a|
      invariant 0 <= i <= |a|
      invariant result == ReportedUpTo(a, key, i)
      invariant forall q | i <= q < |a| :: checkedIndices[q] <==> Marked(a, key, i, q)
    {
      result := DuplicatesStep(a, key, i, checkedIndices, result);
      i := i + 1;
    }
  }

  /** One iteration of FindDuplicates' loop, at index i. */
  method DuplicatesStep<T(==), K(==)>(a: seq<T>, key: T -> K, i: nat, checkedIndices: array<bool>, result: seq<T>)
      returns (next: seq<T>)
    requires i < |a| == checkedIndices.Length && result == ReportedUpTo(a, key, i)
    requires forall q | i <= q < |a| :: checkedIndices[q] <==> Marked(a, key, i, q)
    modifies checkedIndices
    ensures next == ReportedUpTo(a, key, i + 1)
    ensures forall q | i + 1 <= q < |a| :: checkedIndices[q] <==> Marked(a, key, i + 1, q)
  {
    if checkedIndices[i] {
      CheckedStep(a, key, i);
      return result;
    }
    UncheckedReport(a, key, i);
    var tmp := FindAll(a, key, key(a[i]));
    ghost var before := checkedIndices[..];
    next := result;
    if |tmp| > 1 {
      FindAllHead(a, key, i);
      next := result + [tmp[0]];
      MarkGroup(a, tmp, checkedIndices);
    }
    forall q | i + 1 <= q < |a| ensures checkedIndices[q] <==> Marked(a, key, i + 1, q) {
      UncheckedStepAt(a, key, i, q, before[q], checkedIndices[q]);
    }
    checkedIndices[i] := true;
  }

  /** Keys pairwise distinct: no two indices share a key. */
  predicate KeysDistinct<T, K(==)>(a: seq<T>, key: T -> K)
  {
    forall i, j | 0 <= i < j < |a| :: key(a[i]) != key(a[j])
  }

  /** A group larger than one has a second index. */
  lemma GroupsOfMoreThanOne<T, K>(a: seq<T>, key: T -> K, i: nat)
    requires i < |a|
    ensures GroupSize(a, key, i) > 1 ==>
      exists j | 0 <= j < |a| :: j != FirstKeyIndex(a, key, i) && key(a[j]) == key(a[i])
  {
    if GroupSize(a, key, i) > 1 {
      var j := FindAllSecond(a, key, i);
    }
  }

  /** A report at an index below n shows in what the first n iterations report. */
  lemma {:induction false} ReportedUpToNonEmpty<T, K>(a: seq<T>, key: T -> K, n: nat, m: nat)
    requires m < n <= |a| && IsReported(a, key, m)
    ensures ReportedUpTo(a, key, n) != []
  {
    if m < n - 1 {
      ReportedUpToNonEmpty(a, key, n - 1, m);
    }
  }

  /** FindDuplicates reports nothing exactly when no two elements share a key. */
  lemma NoReportIffKeysDistinct<T, K>(a: seq<T>, key: T -> K)
    ensures ReportedUpTo(a, key, |a|) == [] <==> KeysDistinct(a, key)
  {
    if KeysDistinct(a, key) {
      NothingReportedUpTo(a, key, |a|);
    } else {
      var i, j :| 0 <= i < j < |a| && key(a[i]) == key(a[j]);
      FindAllCountsTwo(a, key, i, j);
      var f := FirstKeyIndex(a, key, i);
      FirstKeyIndexOfSameKey(a, key, i, f);
      assert IsReported(a, key, f);
      ReportedUpToNonEmpty(a, key, |a|, f);
    }
  }

  lemma {:induction false} NothingReportedUpTo<T, K>(a: seq<T>, key: T -> K, n: nat)
    requires n <= |a| && KeysDistinct(a, key)
    ensures ReportedUpTo(a, key, n) == []
  {
    if n > 0 {
      NothingReportedUpTo(a, key, n - 1);
      GroupsOfMoreThanOne(a, key, n - 1);
    }
  }

  /** For distinct objects an index is reported exactly when it heads a group of more than one. */
  lemma ReportedOfDistinctObjects<T, K>(a: seq<T>, key: T -> K, i: nat)
    requires NoDuplicates(a) && i < |a|
    ensures IsReported(a, key, i) <==> GroupSize(a, key, i) > 1 && FirstKeyIndex(a, key, i) == i
  {
    assert IndexOf(a, a[i]) == i;
  }

  /** Every element reported by the first n iterations heads a group of more than one below n. */
  lemma {:induction false} ReportedAreGroupHeads<T, K>(a: seq<T>, key: T -> K, n: nat)
    requires NoDuplicates(a) && n <= |a|
    ensures forall x | x in ReportedUpTo(a, key, n) ::
      exists k | 0 <= k < n :: x == a[k] && GroupSize(a, key, k) > 1 && FirstKeyIndex(a, key, k) == k
  {
    if n > 0 {
      ReportedAreGroupHeads(a, key, n - 1);
      ReportedOfDistinctObjects(a, key, n - 1);
    }
  }

  /** For distinct objects FindDuplicates reports each group head once. */
  lemma {:induction false} ReportedOnce<T, K>(a: seq<T>, key: T -> K, n: nat)
    requires NoDuplicates(a) && n <= |a|
    ensures NoDuplicates(ReportedUpTo(a, key, n))
  {
    if n > 0 {
      ReportedOnce(a, key, n - 1);
      var prev := ReportedUpTo(a, key, n - 1);
      if IsReported(a, key, n - 1) {
        ReportedAreGroupHeads(a, key, n - 1);
        ReportedOfDistinctObjects(a, key, n - 1);
        forall x | x in prev ensures x != a[n - 1] {
          var k :| 0 <= k < n - 1 && x == a[k];
        }
        var r := prev + [a[n - 1]];
        forall p, q | 0 <= p < q < |r| ensures r[p] != r[q] {
          if q < |prev| { assert r[p] == prev[p] && r[q] == prev[q]; }
          else { assert r[p] in prev; }
        }
      }
    }
  }
}

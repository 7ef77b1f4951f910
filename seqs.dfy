// Sequence helpers standing in for the LINQ calls the source uses
// (Distinct, Where, First) where the model needs their exact meaning.
module Seqs {
  predicate NoDuplicates<T(==)>(s: seq<T>)
  {
    forall i, j | 0 <= i < j < |s| :: s[i] != s[j]
  }

  /** Enumerable.Distinct: the first occurrence of every element, in order. */
  function Distinct<T(==)>(s: seq<T>): (r: seq<T>)
    ensures NoDuplicates(r)
    ensures forall i | 0 <= i < |r| :: r[i] in s
    ensures forall i | 0 <= i < |s| :: s[i] in r
    ensures |r| <= |s|
  {
    if s == [] then []
    else
      var p := Distinct(s[..|s| - 1]);
      assert forall i | 0 <= i < |s| - 1 :: s[i] == s[..|s| - 1][i];
      if s[|s| - 1] in s[..|s| - 1] then p else p + [s[|s| - 1]]
  }

  /**
   * Distinct keeps the order of first occurrence: wherever the later of two
   * kept elements occurs in s, the earlier one has already occurred.
   */
  lemma {:induction false} DistinctKeepsFirstOccurrenceOrder<T>(s: seq<T>)
    ensures forall i, j, q | 0 <= i < j < |Distinct(s)| && 0 <= q < |s| && s[q] == Distinct(s)[j] ::
              Distinct(s)[i] in s[..q]
  {
    if s != [] {
      var init, last := s[..|s| - 1], s[|s| - 1];
      DistinctKeepsFirstOccurrenceOrder(init);
      var p := Distinct(init);
      forall i, j, q | 0 <= i < j < |Distinct(s)| && 0 <= q < |s| && s[q] == Distinct(s)[j]
        ensures Distinct(s)[i] in s[..q]
      {
        assert Distinct(s)[i] == p[i];
        if q < |s| - 1 {
          assert s[q] == init[q] && init[..q] == s[..q];
          if j < |p| {
            assert Distinct(s)[j] == p[j];
          }
        } else {
          assert p[i] in init && init == s[..q];
        }
      }
    }
  }

  /** Distinct drops nothing exactly when nothing repeats. */
  lemma {:induction false} DistinctKeepsLengthIff<T>(s: seq<T>)
    ensures |Distinct(s)| == |s| <==> NoDuplicates(s)
  {
    if s != [] {
      var init, last := s[..|s| - 1], s[|s| - 1];
      DistinctKeepsLengthIff(init);
      if NoDuplicates(s) {
        assert NoDuplicates(init) by {
          forall i, j | 0 <= i < j < |init| ensures init[i] != init[j] { assert init[i] == s[i] && init[j] == s[j]; }
        }
        forall k | 0 <= k < |init| ensures init[k] != last { assert init[k] == s[k]; }
      }
      if |Distinct(s)| == |s| {
        assert last !in init && |Distinct(init)| == |init|;
        forall i, j | 0 <= i < j < |s| ensures s[i] != s[j] {
          if j < |s| - 1 {
            assert s[i] == init[i] && s[j] == init[j];
          } else {
            assert s[i] == init[i];
          }
        }
      }
    }
  }

  /** On a sequence without repetitions Distinct is the identity. */
  lemma {:induction false} DistinctOfNoDuplicates<T>(s: seq<T>)
    requires NoDuplicates(s)
    ensures Distinct(s) == s
  {
    if s != [] {
      var init := s[..|s| - 1];
      assert NoDuplicates(init) by {
        forall i, j | 0 <= i < j < |init| ensures init[i] != init[j] { assert init[i] == s[i] && init[j] == s[j]; }
      }
      DistinctOfNoDuplicates(init);
      forall k | 0 <= k < |init| ensures init[k] != s[|s| - 1] { assert init[k] == s[k]; }
      assert s == init + [s[|s| - 1]];
    }
  }

  /** Distinct of an extended sequence extends Distinct of the prefix (the step a loop takes). */
  lemma DistinctStep<T>(s: seq<T>, x: T)
    ensures Distinct(s + [x]) == if x in s then Distinct(s) else Distinct(s) + [x]
  {
    assert (s + [x])[..|s + [x]| - 1] == s;
  }

  /** List.Remove: drops the first element equal to x, if there is one. */
  function RemoveFirst<T(==)>(s: seq<T>, x: T): (r: seq<T>)
    ensures x !in s ==> r == s
    ensures x in s ==> |r| == |s| - 1
    ensures forall i | 0 <= i < |r| :: r[i] in s
  {
    if s == [] then []
    else if s[0] == x then s[1..]
    else [s[0]] + RemoveFirst(s[1..], x)
  }

  /** RemoveFirst takes exactly one copy of a present element away. */
  lemma {:induction false} RemoveFirstMultiset<T>(s: seq<T>, x: T)
    requires x in s
    ensures multiset(RemoveFirst(s, x)) == multiset(s) - multiset{x}
  {
    assert s == [s[0]] + s[1..];
    if s[0] != x {
      RemoveFirstMultiset(s[1..], x);
    }
  }

  /** Removing an element just appended gives the sequence back. */
  lemma {:induction false} RemoveFirstOfAppended<T>(s: seq<T>, x: T)
    requires x !in s
    ensures RemoveFirst(s + [x], x) == s
  {
    if s != [] {
      assert (s + [x])[1..] == s[1..] + [x];
      RemoveFirstOfAppended(s[1..], x);
    }
  }

  /** A non-empty sequence is its front followed by its last element. */
  lemma FrontAndLast<T>(s: seq<T>)
    requires s != []
    ensures s[..|s| - 1] + [s[|s| - 1]] == s
  {
  }

  /** A slice grows by the element at its end. */
  lemma SliceExtend<T>(s: seq<T>, i: nat, j: nat)
    requires i <= j < |s|
    ensures s[i..j + 1] == s[i..j] + [s[j]]
  {
  }

  /** The prefix of length m is the one of length m - 1 and one more element. */
  lemma PrefixStep<T>(s: seq<T>, m: nat)
    requires 0 < m <= |s|
    ensures s[..m][..m - 1] == s[..m - 1] && s[..m][m - 1] == s[m - 1]
    ensures s[..m] == s[..m - 1] + [s[m - 1]]
  {
  }

  /** Proof step only: appending is associative (used to regroup accumulated error lists). */
  lemma AppendAssociative<T>(a: seq<T>, b: seq<T>, c: seq<T>)
    ensures (a + b) + c == a + (b + c)
  {
  }
}

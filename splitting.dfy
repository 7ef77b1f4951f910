// FindSplittingPoint: scanning right to left, the operator outside every
// parenthesis with the lowest priority; among equals the rightmost one,
// except that a prefix operator of that priority moves the point further
// left. A symbol missing from its partition makes First throw.
module Splitting {
  import opened Wrappers
  import opened Keywords
  import Operators
  import MathCollections

  /** int.MaxValue: the priority a keyword without an operator subtype gets. */
  const IntMax: int := 0x7fff_ffff

  /** First(o => o.Symbol == word) over one partition: None where First throws. */
  function FirstWithSymbol(ops: seq<Operators.Operator>, word: string): (r: Option<Operators.Operator>)
    ensures r.None? <==> forall i | 0 <= i < |ops| :: ops[i].symbol != word
    ensures r.Some? ==> exists i | 0 <= i < |ops| :: ops[i] == r.value && r.value.symbol == word
                          && forall l | 0 <= l < i :: ops[l].symbol != word
  {
    if ops == [] then None
    else if ops[0].symbol == word then Some(ops[0])
    else
      var r := FirstWithSymbol(ops[1..], word);
      assert forall i | 1 <= i < |ops| :: ops[i] == ops[1..][i - 1];
      r
  }

  /** The priority FindSplittingPoint gives an operator keyword: None where the lookup throws. */
  function KeywordPriority(k: Keyword, ops: seq<Operators.Operator>): (p: Option<int>)
    ensures p.Some? && k.subtype in {Some(PrefixOperator), Some(InfixOperator), Some(PostfixOperator)} ==> 0 <= p.value < 12
    ensures k.subtype !in {Some(PrefixOperator), Some(InfixOperator), Some(PostfixOperator)} ==> p == Some(IntMax)
  {
    var partition :=
      if k.subtype == Some(PrefixOperator) then Some(MathCollections.PrefixOperators(ops))
      else if k.subtype == Some(InfixOperator) then Some(MathCollections.InfixOperators(ops))
      else if k.subtype == Some(PostfixOperator) then Some(MathCollections.PostfixOperators(ops))
      else None;
    match partition
    case None => Some(IntMax)
    case Some(part) =>
      match FirstWithSymbol(part, k.word)
      case None => None
      case Some(o) => Some(Operators.Priority(o.category))
  }

  /** The loop's variables: curDepth, minPriority and splittingPoint. */
  datatype Scan = Scan(depth: int, min: int, point: int)

  /** One iteration of the loop, at index i. */
  function Step(ks: seq<Keyword>, i: nat, s: Scan, ops: seq<Operators.Operator>): Option<Scan>
    requires i < |ks|
  {
    var k := ks[i];
    if k.kind == RightParenthesis then Some(s.(depth := s.depth + 1))
    else if k.kind == LeftParenthesis then Some(s.(depth := s.depth - 1))
    else if k.kind == Operator && s.depth == 0 then
      match KeywordPriority(k, ops)
      case None => None
      case Some(p) =>
        if p < s.min then Some(Scan(s.depth, p, i))
        else if p == s.min && k.subtype == Some(PrefixOperator) then Some(s.(point := i))
        else Some(s)
    else Some(s)
  }

  /** The variables after the iterations for indices n and above; None once a lookup has thrown. */
  function ScanFrom(ks: seq<Keyword>, ops: seq<Operators.Operator>, n: nat): Option<Scan>
    requires n <= |ks|
    decreases |ks| - n
  {
    if n == |ks| then Some(Scan(0, IntMax, -1))
    else
      match ScanFrom(ks, ops, n + 1)
      case None => None
      case Some(s) => Step(ks, n, s, ops)
  }

  /** FindSplittingPoint: the point, -1 when there is none, or None when it throws. */
  function SplittingPoint(ks: seq<Keyword>, ops: seq<Operators.Operator>): Option<int>
  {
    match ScanFrom(ks, ops, 0)
    case None => None
    case Some(s) => Some(s.point)
  }

  /** Once a lookup has thrown, the scan has thrown. */
  lemma {:induction false} ThrowPropagates(ks: seq<Keyword>, ops: seq<Operators.Operator>, n: nat, i: nat)
    requires n <= i <= |ks| && ScanFrom(ks, ops, i).None?
    ensures ScanFrom(ks, ops, n).None?
    decreases i - n
  {
    if n < i {
      ThrowPropagates(ks, ops, n + 1, i);
    }
  }

  method FindSplittingPoint(ks: seq<Keyword>, ops: seq<Operators.Operator>) returns (r: Option<int>, found: bool)
    ensures r == SplittingPoint(ks, ops)
    ensures found <==> r.Some? && r.value >= 0
  {
    var depth, min, point := 0, IntMax, -1;
    var i := |ks|;
    while i > 0
      invariant 0 <= i <= |ks|
      invariant ScanFrom(ks, ops, i) == Some(Scan(depth, min, point))
    {
      i := i - 1;
      var k := ks[i];
      if k.kind == RightParenthesis {
        depth := depth + 1;
      } else if k.kind == LeftParenthesis {
        depth := depth - 1;
      } else if k.kind == Operator && depth == 0 {
        var p := IntMax;
        var part := [];
        if k.subtype == Some(PrefixOperator) {
          part := MathCollections.PrefixOperators(ops);
        } else if k.subtype == Some(InfixOperator) {
          part := MathCollections.InfixOperators(ops);
        } else if k.subtype == Some(PostfixOperator) {
          part := MathCollections.PostfixOperators(ops);
        }
        if k.subtype in {Some(PrefixOperator), Some(InfixOperator), Some(PostfixOperator)} {
          var o := FirstWithSymbol(part, k.word);
          if o.None? {
            assert KeywordPriority(k, ops).None?;
            ThrowPropagates(ks, ops, 0, i);
            return None, false;
          }
          p := Operators.Priority(o.value.category);
          assert KeywordPriority(k, ops) == Some(p);
        }
        if p < min {
          min, point := p, i;
        } else if p == min && k.subtype == Some(PrefixOperator) {
          point := i;
        }
      }
    }
    r, found := Some(point), point >= 0;
  }

  // ---------------------------------------------------------------------
  // What the point means
  // ---------------------------------------------------------------------

  /** curDepth after the iterations for indices n and above: ')' counts up, '(' counts down. */
  function SuffixDepth(ks: seq<Keyword>, n: nat): int
    requires n <= |ks|
    decreases |ks| - n
  {
    if n == |ks| then 0 else SuffixDepth(ks, n + 1) - ParenthesisDelta(ks[n])
  }

  /** The scan's depth counts the same parentheses as the left-to-right depth, from the other end. */
  lemma {:induction false} SuffixDepthIsTokenDepth(ks: seq<Keyword>, n: nat)
    requires n <= |ks|
    ensures SuffixDepth(ks, n) == TokenDepth(ks, n) - TokenDepth(ks, |ks|)
    decreases |ks| - n
  {
    if n < |ks| {
      SuffixDepthIsTokenDepth(ks, n + 1);
    }
  }

  /** An operator keyword outside every parenthesis, seen from the scan. */
  predicate TopOperator(ks: seq<Keyword>, j: nat)
    requires j < |ks|
  {
    ks[j].kind == Operator && SuffixDepth(ks, j + 1) == 0
  }

  /** Every top operator at index n or above has a priority. */
  predicate Priced(ks: seq<Keyword>, ops: seq<Operators.Operator>, n: nat)
    requires n <= |ks|
  {
    forall j | n <= j < |ks| && TopOperator(ks, j) :: KeywordPriority(ks[j], ops).Some?
  }

  function Prio(ks: seq<Keyword>, ops: seq<Operators.Operator>, j: nat): int
    requires j < |ks| && KeywordPriority(ks[j], ops).Some?
  {
    KeywordPriority(ks[j], ops).value
  }

  /**
   * What the variables mean after the iterations for indices n and above:
   * min is the lowest priority among the top operators seen, the point is
   * one of them with that priority; a top operator of that priority left
   * of the point is not a prefix operator, and one right of it means the
   * point is a prefix operator.
   */
  predicate Meaning(ks: seq<Keyword>, ops: seq<Operators.Operator>, n: nat, s: Scan)
    requires n <= |ks| && Priced(ks, ops, n)
  {
    s.depth == SuffixDepth(ks, n)
    && (forall j | n <= j < |ks| && TopOperator(ks, j) :: Prio(ks, ops, j) >= s.min)
    && (s.point == -1 ==> s.min == IntMax)
    && (s.point != -1 ==> n <= s.point < |ks| && TopOperator(ks, s.point) && Prio(ks, ops, s.point) == s.min < IntMax)
    && (forall j | n <= j < s.point && TopOperator(ks, j) && Prio(ks, ops, j) == s.min :: ks[j].subtype != Some(PrefixOperator))
    && (s.point != -1 ==>
          forall j | s.point < j < |ks| && TopOperator(ks, j) && Prio(ks, ops, j) == s.min ::
            ks[s.point].subtype == Some(PrefixOperator))
  }

  lemma StepKeepsMeaning(ks: seq<Keyword>, ops: seq<Operators.Operator>, n: nat, s: Scan)
    requires n < |ks| && Priced(ks, ops, n + 1) && Meaning(ks, ops, n + 1, s) && Step(ks, n, s, ops).Some?
    ensures Priced(ks, ops, n) && Meaning(ks, ops, n, Step(ks, n, s, ops).value)
  {
    var k := ks[n];
    assert SuffixDepth(ks, n) == s.depth - ParenthesisDelta(k);
    if k.kind == Operator && s.depth == 0 {
      assert TopOperator(ks, n);
    } else {
      assert !TopOperator(ks, n);
    }
  }

  /** Where the scan does not throw, its variables mean what Meaning says. */
  lemma {:induction false} ScanMeaning(ks: seq<Keyword>, ops: seq<Operators.Operator>, n: nat)
    requires n <= |ks| && ScanFrom(ks, ops, n).Some?
    ensures Priced(ks, ops, n) && Meaning(ks, ops, n, ScanFrom(ks, ops, n).value)
    decreases |ks| - n
  {
    if n < |ks| {
      ScanMeaning(ks, ops, n + 1);
      StepKeepsMeaning(ks, ops, n, ScanFrom(ks, ops, n + 1).value);
    }
  }

  /**
   * The point FindSplittingPoint returns: none exactly when no top-level
   * operator has an operator subtype; otherwise a top-level operator of the
   * lowest priority, the rightmost such unless it is a prefix operator, and
   * with no prefix operator of that priority further left.
   */
  lemma SplittingPointIsLowest(ks: seq<Keyword>, ops: seq<Operators.Operator>)
    requires SplittingPoint(ks, ops).Some?
    ensures Priced(ks, ops, 0)
    ensures var p := SplittingPoint(ks, ops).value;
      (p == -1 <==> forall j | 0 <= j < |ks| && TopOperator(ks, j) :: Prio(ks, ops, j) == IntMax)
      && (p != -1 ==>
            0 <= p < |ks| && TopOperator(ks, p) && Prio(ks, ops, p) < IntMax
            && (forall j | 0 <= j < |ks| && TopOperator(ks, j) :: Prio(ks, ops, p) <= Prio(ks, ops, j))
            && (forall j | 0 <= j < p && TopOperator(ks, j) && Prio(ks, ops, j) == Prio(ks, ops, p) ::
                  ks[j].subtype != Some(PrefixOperator))
            && (forall j | p < j < |ks| && TopOperator(ks, j) && Prio(ks, ops, j) == Prio(ks, ops, p) ::
                  ks[p].subtype == Some(PrefixOperator)))
  {
    ScanMeaning(ks, ops, 0);
  }
}

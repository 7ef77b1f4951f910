// ValidateArgumentSeparators: an argument separator is allowed only
// directly inside the parentheses of a function call.
module SeparatorRule {
  import opened Wrappers
  import opened Errors
  import opened Keywords

  /** The index of the last '(' before index i that opened depth d, or -1 when there is none. */
  function LastOpen(ks: seq<Keyword>, i: nat, d: int): (j: int)
    requires i <= |ks|
    ensures -1 <= j < i
    ensures j >= 0 ==> ks[j].kind == LeftParenthesis && TokenDepth(ks, j) == d - 1
    ensures forall l | j < l < i :: !(ks[l].kind == LeftParenthesis && TokenDepth(ks, l) == d - 1)
  {
    if i == 0 then -1
    else if ks[i - 1].kind == LeftParenthesis && TokenDepth(ks, i - 1) == d - 1 then i - 1
    else LastOpen(ks, i - 1, d)
  }

  /** The '(' at index j belongs to a call: a function keyword stands right before it. */
  predicate OpensCall(ks: seq<Keyword>, j: int)
    requires j < |ks|
  {
    0 < j && IsFunctionKeyword(ks[j - 1])
  }

  /** A separator outside every parenthesis, or whose innermost open parenthesis is not a call's. */
  predicate MisplacedSeparator(ks: seq<Keyword>, i: nat)
    requires i < |ks|
  {
    ks[i].kind == ArgumentSeparator
    && (TokenDepth(ks, i) <= 0 || !OpensCall(ks, LastOpen(ks, i, TokenDepth(ks, i))))
  }

  /** The errors ValidateArgumentSeparators reports for the first n keywords: one per misplaced separator. */
  function SeparatorErrors(ks: seq<Keyword>, n: nat): (r: seq<Error>)
    requires n <= |ks|
    ensures |r| <= n
    ensures forall e | e in r :: e.UnexpectedArgumentSeparatorUsage?
  {
    if n == 0 then []
    else
      SeparatorErrors(ks, n - 1)
      + (if MisplacedSeparator(ks, n - 1) then [UnexpectedArgumentSeparatorUsage(ks[n - 1].originalPosition)] else [])
  }

  /** Nothing is reported exactly when no separator is misplaced, and every misplaced one is reported. */
  lemma {:induction false} SeparatorErrorsIff(ks: seq<Keyword>, n: nat)
    requires n <= |ks|
    ensures SeparatorErrors(ks, n) == [] <==> forall i | 0 <= i < n :: !MisplacedSeparator(ks, i)
    ensures forall i | 0 <= i < n && MisplacedSeparator(ks, i) :: UnexpectedArgumentSeparatorUsage(ks[i].originalPosition) in SeparatorErrors(ks, n)
  {
    if n > 0 {
      SeparatorErrorsIff(ks, n - 1);
    }
  }

  // ---------------------------------------------------------------------
  // The state ValidateArgumentSeparators keeps
  // ---------------------------------------------------------------------

  /** For every depth from 1 to depth, the map says whether the '(' that opened it belongs to a call. */
  predicate CallsRecorded(ks: seq<Keyword>, i: nat, depth: int, calls: map<int, bool>)
    requires i <= |ks|
  {
    forall d | 1 <= d <= depth :: d in calls && calls[d] == OpensCall(ks, LastOpen(ks, i, d))
  }

  /** Keyword i does not open any depth from 1 to top, so stepping over it keeps their last '('. */
  lemma SameOpensBelow(ks: seq<Keyword>, i: nat, top: int)
    requires i < |ks|
    requires !(ks[i].kind == LeftParenthesis && 0 <= TokenDepth(ks, i) < top)
    ensures forall d | 1 <= d <= top :: LastOpen(ks, i + 1, d) == LastOpen(ks, i, d)
  {
  }

  /**
   * The state of ValidateArgumentSeparators before keyword i: the depth is
   * the keywords' depth, depth 0 is recorded as no call, the depths above
   * it are recorded, and the loop never stops right after a function
   * keyword (it steps over the function's '(').
   */
  predicate ScanState(ks: seq<Keyword>, i: nat, depth: int, calls: map<int, bool>)
  {
    i <= |ks| && depth == TokenDepth(ks, i) && depth >= 0
    && 0 in calls && calls[0] == false && CallsRecorded(ks, i, depth, calls)
    && (0 < i ==> !IsFunctionKeyword(ks[i - 1]))
  }

  lemma ScanStart(ks: seq<Keyword>)
    ensures ScanState(ks, 0, 0, map[0 := false])
  {
  }

  lemma ScanClose(ks: seq<Keyword>, i: nat, depth: int, calls: map<int, bool>)
    requires ScanState(ks, i, depth, calls) && i < |ks| && ks[i].kind == RightParenthesis && TokenDepth(ks, i + 1) >= 0
    ensures ScanState(ks, i + 1, depth - 1, calls[depth := false])
    ensures SeparatorErrors(ks, i + 1) == SeparatorErrors(ks, i)
  {
    SameOpensBelow(ks, i, depth - 1);
  }

  lemma ScanOpen(ks: seq<Keyword>, i: nat, depth: int, calls: map<int, bool>)
    requires ScanState(ks, i, depth, calls) && i < |ks| && ks[i].kind == LeftParenthesis
    ensures ScanState(ks, i + 1, depth + 1, calls[depth + 1 := false])
    ensures SeparatorErrors(ks, i + 1) == SeparatorErrors(ks, i)
  {
    SameOpensBelow(ks, i, depth);
    assert LastOpen(ks, i + 1, depth + 1) == i;
  }

  lemma ScanCall(ks: seq<Keyword>, i: nat, depth: int, calls: map<int, bool>)
    requires ScanState(ks, i, depth, calls) && i + 1 < |ks| && IsFunctionKeyword(ks[i]) && ks[i + 1].kind == LeftParenthesis
    ensures ScanState(ks, i + 2, depth + 1, calls[depth + 1 := true])
    ensures SeparatorErrors(ks, i + 2) == SeparatorErrors(ks, i)
  {
    SameOpensBelow(ks, i, depth);
    SameOpensBelow(ks, i + 1, depth);
    assert LastOpen(ks, i + 2, depth + 1) == i + 1;
  }

  /** Any other keyword: a separator is reported exactly when its depth is recorded as no call. */
  lemma ScanOther(ks: seq<Keyword>, i: nat, depth: int, calls: map<int, bool>)
    requires ScanState(ks, i, depth, calls) && i < |ks|
    requires ks[i].kind != LeftParenthesis && ks[i].kind != RightParenthesis && !IsFunctionKeyword(ks[i])
    ensures depth in calls
    ensures ScanState(ks, i + 1, depth, calls)
    ensures SeparatorErrors(ks, i + 1) == SeparatorErrors(ks, i)
      + (if ks[i].kind == ArgumentSeparator && calls[depth] == false then [UnexpectedArgumentSeparatorUsage(ks[i].originalPosition)] else [])
  {
    SameOpensBelow(ks, i, depth);
  }

  /**
   * The example of the source: in "f(x, (y, z))" the first separator
   * belongs to the call of f and the second sits in a plain bracket, so
   * exactly the second one is reported.
   */
  lemma BracketedSeparatorIsReported(f: Keyword, x: Keyword, y: Keyword, z: Keyword,
                                     open1: Keyword, open2: Keyword, close1: Keyword, close2: Keyword,
                                     comma1: Keyword, comma2: Keyword)
    requires IsFunctionKeyword(f) && x.kind == Name && y.kind == Name && z.kind == Name
    requires open1.kind == LeftParenthesis && open2.kind == LeftParenthesis
    requires close1.kind == RightParenthesis && close2.kind == RightParenthesis
    requires comma1.kind == ArgumentSeparator && comma2.kind == ArgumentSeparator
    ensures var ks := [f, open1, x, comma1, open2, y, comma2, z, close1, close2];
      SeparatorErrors(ks, |ks|) == [UnexpectedArgumentSeparatorUsage(comma2.originalPosition)]
  {
    var ks := [f, open1, x, comma1, open2, y, comma2, z, close1, close2];
    assert ks[0] == f && ks[1] == open1 && ks[2] == x && ks[3] == comma1 && ks[4] == open2;
    assert ks[5] == y && ks[6] == comma2 && ks[7] == z && ks[8] == close1 && ks[9] == close2;
    assert TokenDepth(ks, 1) == 0;
    assert TokenDepth(ks, 2) == 1;
    assert TokenDepth(ks, 3) == 1;
    assert TokenDepth(ks, 4) == 1;
    assert TokenDepth(ks, 5) == 2;
    assert TokenDepth(ks, 6) == 2;
    assert LastOpen(ks, 3, 1) == 1;
    assert LastOpen(ks, 6, 2) == 4;
    assert MisplacedSeparator(ks, 6);
    assert !MisplacedSeparator(ks, 3);
    assert SeparatorErrors(ks, 6) == [] by {
      SeparatorErrorsIff(ks, 6);
      assert forall i | 0 <= i < 6 :: !MisplacedSeparator(ks, i) by {
        assert ks[0].kind != ArgumentSeparator && ks[1].kind != ArgumentSeparator && ks[2].kind != ArgumentSeparator;
        assert ks[4].kind != ArgumentSeparator && ks[5].kind != ArgumentSeparator;
      }
    }
    assert SeparatorErrors(ks, 7) == [UnexpectedArgumentSeparatorUsage(comma2.originalPosition)];
    assert !MisplacedSeparator(ks, 7) && !MisplacedSeparator(ks, 8) && !MisplacedSeparator(ks, 9);
    assert SeparatorErrors(ks, 8) == SeparatorErrors(ks, 7);
    assert SeparatorErrors(ks, 9) == SeparatorErrors(ks, 8);
    assert SeparatorErrors(ks, 10) == SeparatorErrors(ks, 9);
  }

  /** A separator outside every parenthesis is always reported. */
  lemma TopLevelSeparatorIsReported(ks: seq<Keyword>, i: nat)
    requires i < |ks| && ks[i].kind == ArgumentSeparator && TokenDepth(ks, i) == 0
    ensures UnexpectedArgumentSeparatorUsage(ks[i].originalPosition) in SeparatorErrors(ks, |ks|)
  {
    SeparatorErrorsIff(ks, |ks|);
  }
}

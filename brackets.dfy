// CheckParenthesis and RemoveOuterBrackets: the parser strips a pair of
// enclosing parentheses as long as what is left inside still pairs up.
module Brackets {
  import opened Keywords

  /** CheckParenthesis holds: no prefix closes more than it opened, and the whole closes all it opened. */
  predicate Balanced(ks: seq<Keyword>)
  {
    TokenDepth(ks, |ks|) == 0 && forall m | 0 <= m <= |ks| :: TokenDepth(ks, m) >= 0
  }

  /** The loop of CheckParenthesis, which stops at the first ')' that closes nothing. */
  method CheckParenthesis(ks: seq<Keyword>) returns (ok: bool)
    ensures ok == Balanced(ks)
  {
    var depth := 0;
    var i := 0;
    while i < |ks|
      invariant 0 <= i <= |ks| && depth == TokenDepth(ks, i)
      invariant forall m | 0 <= m <= i :: TokenDepth(ks, m) >= 0
    {
      if ks[i].kind == LeftParenthesis {
        depth := depth + 1;
      } else if ks[i].kind == RightParenthesis {
        depth := depth - 1;
        if depth < 0 {
          assert TokenDepth(ks, i + 1) < 0;
          break;
        }
      }
      i := i + 1;
    }
    ok := depth == 0;
  }

  /** The sequence starts with '(' and ends with ')' and holds something between them. */
  predicate Wrapped(ks: seq<Keyword>)
  {
    |ks| > 2 && ks[0].kind == LeftParenthesis && ks[|ks| - 1].kind == RightParenthesis
  }

  function Inner(ks: seq<Keyword>): seq<Keyword>
    requires |ks| >= 2
  {
    ks[1..|ks| - 1]
  }

  /** RemoveOuterBrackets: strips the outer pair while the inside is balanced. */
  function Unwrapped(ks: seq<Keyword>): (r: seq<Keyword>)
    ensures |r| <= |ks|
    decreases |ks|
  {
    if Wrapped(ks) && Balanced(Inner(ks)) then Unwrapped(Inner(ks)) else ks
  }

  /** The do-while loop of RemoveOuterBrackets; the last candidate that passed is returned. */
  method RemoveOuterBrackets(ks: seq<Keyword>) returns (r: seq<Keyword>)
    ensures r == Unwrapped(ks)
  {
    var next := ks;
    while true
      invariant Unwrapped(next) == Unwrapped(ks)
      decreases |next|
    {
      r := next;
      if |next| <= 2 {
        return;
      }
      if next[0].kind != LeftParenthesis || next[|next| - 1].kind != RightParenthesis {
        return;
      }
      next := next[1..|next| - 1];
      var balanced := CheckParenthesis(next);
      if !balanced {
        return;
      }
    }
  }

  /** The result cannot be stripped any further, so stripping twice changes nothing. */
  lemma {:induction false} UnwrappedIsStable(ks: seq<Keyword>)
    ensures var r := Unwrapped(ks); !(Wrapped(r) && Balanced(Inner(r)))
    ensures Unwrapped(Unwrapped(ks)) == Unwrapped(ks)
    decreases |ks|
  {
    if Wrapped(ks) && Balanced(Inner(ks)) {
      UnwrappedIsStable(Inner(ks));
    }
  }

  /** The first d keywords open and the last d close. */
  predicate Peeled(ks: seq<Keyword>, d: nat)
    requires 2 * d <= |ks|
  {
    (forall j | 0 <= j < d :: ks[j].kind == LeftParenthesis)
    && (forall j | |ks| - d <= j < |ks| :: ks[j].kind == RightParenthesis)
  }

  /** How many pairs RemoveOuterBrackets strips. */
  function Layers(ks: seq<Keyword>): (d: nat)
    ensures 2 * d <= |ks|
    decreases |ks|
  {
    if Wrapped(ks) && Balanced(Inner(ks)) then 1 + Layers(Inner(ks)) else 0
  }

  lemma MiddleOfInner(ks: seq<Keyword>, d: nat)
    requires |ks| >= 2 && 2 * d <= |ks| - 2
    ensures Inner(ks)[d..|ks| - 2 - d] == ks[d + 1..|ks| - (d + 1)]
  {
    var inner := Inner(ks);
    var a, b := inner[d..|ks| - 2 - d], ks[d + 1..|ks| - (d + 1)];
    forall j | 0 <= j < |a| ensures a[j] == b[j] {
      assert a[j] == inner[d + j] == ks[d + 1 + j];
    }
  }

  lemma PeeledGrows(ks: seq<Keyword>, d: nat)
    requires Wrapped(ks) && 2 * d <= |ks| - 2 && Peeled(Inner(ks), d)
    ensures Peeled(ks, d + 1)
  {
    var inner := Inner(ks);
    forall j | 1 <= j < d + 1 ensures ks[j].kind == LeftParenthesis {
      assert ks[j] == inner[j - 1];
    }
    forall j | |ks| - (d + 1) <= j < |ks| - 1 ensures ks[j].kind == RightParenthesis {
      assert ks[j] == inner[j - 1];
    }
  }

  /**
   * The result is the middle of the input: as many opening parentheses are
   * cut from the front as closing ones from the back, and unless nothing
   * was cut what is left is balanced.
   */
  lemma {:induction false} UnwrappedIsCentered(ks: seq<Keyword>)
    ensures var d := Layers(ks);
      Unwrapped(ks) == ks[d..|ks| - d] && Peeled(ks, d) && (d > 0 ==> Balanced(Unwrapped(ks)))
    decreases |ks|
  {
    if Wrapped(ks) && Balanced(Inner(ks)) {
      UnwrappedIsCentered(Inner(ks));
      MiddleOfInner(ks, Layers(Inner(ks)));
      PeeledGrows(ks, Layers(Inner(ks)));
    } else {
      assert ks[0..|ks| - 0] == ks;
    }
  }

  /** Stripping never unbalances a balanced sequence. */
  lemma UnwrappedKeepsBalance(ks: seq<Keyword>)
    requires Balanced(ks)
    ensures Balanced(Unwrapped(ks))
  {
    UnwrappedIsCentered(ks);
  }

  /** "(1)+(2)" keeps its parentheses: the inside "1)+(2" does not pair up. */
  lemma SeparateGroupsAreKept(open1: Keyword, one: Keyword, close1: Keyword, plus: Keyword,
                              open2: Keyword, two: Keyword, close2: Keyword)
    requires open1.kind == LeftParenthesis && open2.kind == LeftParenthesis
    requires close1.kind == RightParenthesis && close2.kind == RightParenthesis
    requires one.kind == Literal && two.kind == Literal && plus.kind == Operator
    ensures var ks := [open1, one, close1, plus, open2, two, close2]; Unwrapped(ks) == ks
  {
    var ks := [open1, one, close1, plus, open2, two, close2];
    var inner := Inner(ks);
    assert inner == [one, close1, plus, open2, two];
    assert TokenDepth(inner, 1) == 0;
    assert TokenDepth(inner, 2) < 0;
  }
}

// GetNestedExpressions: the argument lists of a function call "f(a, b, ...)",
// read from index 2 on and split at the separators that are not inside a
// nested parenthesis, until the parenthesis that closes the call.
module Nesting {
  import opened Wrappers
  import opened Keywords
  import Brackets
  import Seqs

  /** The loop's variables: the finished parts (result), the part being collected (tmp) and relativeDepth. */
  datatype Walked = Walked(parts: seq<seq<Keyword>>, current: seq<Keyword>, depth: int)

  /** Before the first iteration. */
  const Start := Walked([], [], 0)

  /**
   * One iteration of the loop. A ')' that takes the depth below zero is the
   * call's own closing parenthesis: it is dropped and the loop stops, so a
   * state with a negative depth no longer changes.
   */
  function NestStep(s: Walked, k: Keyword): Walked
  {
    if s.depth < 0 then s
    else if k.kind == LeftParenthesis then Walked(s.parts, s.current + [k], s.depth + 1)
    else if k.kind == RightParenthesis then
      if s.depth - 1 < 0 then s.(depth := s.depth - 1)
      else Walked(s.parts, s.current + [k], s.depth - 1)
    else if k.kind == ArgumentSeparator && s.depth == 0 then Walked(s.parts + [s.current], [], 0)
    else s.(current := s.current + [k])
  }

  /** The loop run over xs from the state s. */
  function Walk(s: Walked, xs: seq<Keyword>): Walked
    decreases |xs|
  {
    if xs == [] then s else NestStep(Walk(s, xs[..|xs| - 1]), xs[|xs| - 1])
  }

  /**
   * GetNestedExpressions: None where ks[2] does not exist (the index is out
   * of range); no part when ks[2] closes the call; otherwise the parts, with
   * the one being collected appended when it is not empty.
   */
  function NestedExpressions(ks: seq<Keyword>): Option<seq<seq<Keyword>>>
  {
    if |ks| < 3 then None
    else if ks[2].kind == RightParenthesis then Some([])
    else
      var w := Walk(Start, ks[2..]);
      Some(if |w.current| > 0 then w.parts + [w.current] else w.parts)
  }

  lemma {:induction false} WalkAppend(s: Walked, xs: seq<Keyword>, ys: seq<Keyword>)
    ensures Walk(s, xs + ys) == Walk(Walk(s, xs), ys)
    decreases |ys|
  {
    if ys == [] {
      assert xs + ys == xs;
    } else {
      var n := |ys| - 1;
      WalkAppend(s, xs, ys[..n]);
      assert (xs + ys)[..|xs + ys| - 1] == xs + ys[..n];
    }
  }

  /** Once the call's closing parenthesis has been passed nothing changes. */
  lemma {:induction false} StoppedWalk(s: Walked, xs: seq<Keyword>)
    requires s.depth < 0
    ensures Walk(s, xs) == s
    decreases |xs|
  {
    if xs != [] {
      StoppedWalk(s, xs[..|xs| - 1]);
    }
  }

  method GetNestedExpressions(ks: seq<Keyword>) returns (r: Option<seq<seq<Keyword>>>)
    ensures r == NestedExpressions(ks)
  {
    if |ks| < 3 {
      return None;
    }
    if ks[2].kind == RightParenthesis {
      return Some([]);
    }
    var result, tmp, depth := [], [], 0;
    var i := 2;
    while i < |ks| && depth >= 0
      invariant 2 <= i <= |ks|
      invariant Walk(Start, ks[2..i]) == Walked(result, tmp, depth)
    {
      var k := ks[i];
      if k.kind == LeftParenthesis {
        depth := depth + 1;
        tmp := tmp + [k];
      } else if k.kind == RightParenthesis {
        depth := depth - 1;
        if depth >= 0 {
          tmp := tmp + [k];
        }
      } else if k.kind == ArgumentSeparator && depth == 0 {
        result := result + [tmp];
        tmp := [];
      } else {
        tmp := tmp + [k];
      }
      assert ks[2..i + 1][..i - 2] == ks[2..i];
      i := i + 1;
    }
    assert ks[2..] == ks[2..i] + ks[i..];
    WalkAppend(Start, ks[2..i], ks[i..]);
    if i < |ks| {
      StoppedWalk(Walked(result, tmp, depth), ks[i..]);
    } else {
      assert ks[i..] == [];
    }
    if |tmp| > 0 {
      result := result + [tmp];
    }
    return Some(result);
  }

  // ---------------------------------------------------------------------
  // What the parts are
  // ---------------------------------------------------------------------

  /** Every collected keyword comes from pool, and no part holds more than bound keywords. */
  predicate Within(s: Walked, bound: nat, pool: seq<Keyword>)
  {
    |s.current| <= bound && (forall k | k in s.current :: k in pool)
    && forall p | p in s.parts :: |p| <= bound && forall k | k in p :: k in pool
  }

  lemma {:induction false} WalkStaysWithin(s: Walked, xs: seq<Keyword>, bound: nat, pool: seq<Keyword>)
    requires Within(s, bound, pool) && forall k | k in xs :: k in pool
    ensures Within(Walk(s, xs), bound + |xs|, pool)
    decreases |xs|
  {
    if xs != [] {
      var n := |xs| - 1;
      assert forall k | k in xs[..n] :: k in xs;
      WalkStaysWithin(s, xs[..n], bound, pool);
    }
  }

  /** Each part is taken from the keywords after "f(", so it is at least two keywords shorter than the call. */
  lemma NestedExpressionsAreShorter(ks: seq<Keyword>)
    ensures NestedExpressions(ks).Some? ==>
      forall p | p in NestedExpressions(ks).value :: |p| <= |ks| - 2 && forall k | k in p :: k in ks
  {
    if |ks| >= 3 && ks[2].kind != RightParenthesis {
      assert forall k | k in ks[2..] :: k in ks;
      WalkStaysWithin(Start, ks[2..], 0, ks);
    }
  }

  /** No separator of c is at its top level. */
  predicate NoTopSeparator(c: seq<Keyword>)
  {
    forall m | 0 <= m < |c| && c[m].kind == ArgumentSeparator :: TokenDepth(c, m) > 0
  }

  /** The inside of a call's parentheses: the arguments joined by separators. */
  function Joined(args: seq<seq<Keyword>>, sep: Keyword): (r: seq<Keyword>)
    requires args != []
    ensures |r| >= |args[0]| && r[..|args[0]|] == args[0]
  {
    if |args| == 1 then args[0]
    else
      var front := Joined(args[..|args| - 1], sep);
      assert (front + [sep] + args[|args| - 1])[..|args[0]|] == front[..|args[0]|];
      front + [sep] + args[|args| - 1]
  }

  /** Inside an argument every keyword is collected, and the depth follows the parentheses. */
  lemma ChunkStep(w: Walked, k: Keyword)
    requires w.depth >= 0 && w.depth + ParenthesisDelta(k) >= 0
    requires k.kind == ArgumentSeparator ==> w.depth > 0
    ensures NestStep(w, k) == Walked(w.parts, w.current + [k], w.depth + ParenthesisDelta(k))
  {
  }

  lemma {:induction false} WalkChunkPrefix(s: Walked, c: seq<Keyword>, m: nat)
    requires s.depth == 0 && m <= |c| && NoTopSeparator(c)
    requires forall j | 0 <= j <= m :: TokenDepth(c, j) >= 0
    ensures Walk(s, c[..m]) == Walked(s.parts, s.current + c[..m], TokenDepth(c, m))
  {
    if m > 0 {
      WalkChunkPrefix(s, c, m - 1);
      Seqs.PrefixStep(c, m);
      assert Walk(s, c[..m]) == NestStep(Walk(s, c[..m - 1]), c[m - 1]);
      assert TokenDepth(c, m) >= 0;
      assert c[m - 1].kind == ArgumentSeparator ==> TokenDepth(c, m - 1) > 0;
      ChunkStep(Walk(s, c[..m - 1]), c[m - 1]);
      assert s.current + c[..m] == (s.current + c[..m - 1]) + [c[m - 1]];
    }
  }

  /** A balanced argument without top-level separators is collected whole, and the depth returns to zero. */
  lemma WalkChunk(s: Walked, c: seq<Keyword>)
    requires s.depth == 0 && Brackets.Balanced(c) && NoTopSeparator(c)
    ensures Walk(s, c) == Walked(s.parts, s.current + c, 0)
  {
    WalkChunkPrefix(s, c, |c|);
    assert c[..|c|] == c;
  }

  /** Each argument is an expression a call may hold: not empty, balanced, without top-level separators. */
  predicate WellFormedArguments(args: seq<seq<Keyword>>)
  {
    forall i | 0 <= i < |args| :: args[i] != [] && Brackets.Balanced(args[i]) && NoTopSeparator(args[i])
  }

  /** A separator at the top level closes the part being collected. */
  lemma SeparatorStep(s: Walked, sep: Keyword)
    requires s.depth == 0 && sep.kind == ArgumentSeparator
    ensures Walk(s, [sep]) == Walked(s.parts + [s.current], [], 0)
  {
    assert [sep][..0] == [];
  }

  lemma JoinedSplits(args: seq<seq<Keyword>>, sep: Keyword)
    requires |args| > 1
    ensures Walk(Start, Joined(args, sep))
         == Walk(Walk(Walk(Start, Joined(args[..|args| - 1], sep)), [sep]), args[|args| - 1])
  {
    var j := Joined(args[..|args| - 1], sep);
    WalkAppend(Start, j + [sep], args[|args| - 1]);
    WalkAppend(Start, j, [sep]);
  }

  lemma {:induction false} WalkJoined(args: seq<seq<Keyword>>, sep: Keyword)
    requires args != [] && WellFormedArguments(args) && sep.kind == ArgumentSeparator
    ensures Walk(Start, Joined(args, sep)) == Walked(args[..|args| - 1], args[|args| - 1], 0)
    decreases |args|
  {
    var n := |args|;
    if n == 1 {
      WalkChunk(Start, args[0]);
    } else {
      var front := args[..n - 1];
      assert WellFormedArguments(front) by {
        forall i | 0 <= i < |front| ensures front[i] == args[i] { }
      }
      WalkJoined(front, sep);
      JoinedSplits(args, sep);
      SeparatorStep(Walked(front[..n - 2], front[n - 2], 0), sep);
      assert front[..n - 2] + [front[n - 2]] == args[..n - 1];
      WalkChunk(Walked(args[..n - 1], [], 0), args[n - 1]);
    }
  }

  lemma LastPartRestored(args: seq<seq<Keyword>>)
    requires args != []
    ensures args[..|args| - 1] + [args[|args| - 1]] == args
  {
  }

  /** A balanced argument cannot start with ')'. */
  lemma BalancedStart(c: seq<Keyword>)
    requires c != [] && Brackets.Balanced(c)
    ensures c[0].kind != RightParenthesis
  {
    assert TokenDepth(c, 1) >= 0;
  }

  /**
   * For a call "f(a1, ..., an)" whose arguments are well formed, the nested
   * expressions are exactly a1, ..., an.
   */
  lemma NestedExpressionsOfCall(f: Keyword, open: Keyword, sep: Keyword, close: Keyword, args: seq<seq<Keyword>>)
    requires open.kind == LeftParenthesis && close.kind == RightParenthesis && sep.kind == ArgumentSeparator
    requires args != [] && WellFormedArguments(args)
    ensures NestedExpressions([f, open] + Joined(args, sep) + [close]) == Some(args)
  {
    var j := Joined(args, sep);
    var ks := [f, open] + j + [close];
    var n := |args|;
    assert ks[2..] == j + [close];
    BalancedStart(args[0]);
    assert ks[2] == j[0] == args[0][0];
    WalkJoined(args, sep);
    WalkAppend(Start, j, [close]);
    assert [close][..0] == [];
    assert Walk(Start, ks[2..]) == Walked(args[..n - 1], args[n - 1], -1);
    LastPartRestored(args);
  }
}

// TryParseOperatorsRecoursive: splits one run of operator characters into
// postfix, infix and prefix operator symbols, backtracking over the symbols
// each position admits, longest first.
module OperatorSplit {
  import opened Wrappers
  import opened Keywords
  import opened Text

  predicate StartsWith(s: string, prefix: string)
  {
    |prefix| <= |s| && s[..|prefix|] == prefix
  }

  /** Operator symbols are non-empty and hold no whitespace. */
  predicate ValidSymbol(sym: string)
  {
    |sym| > 0 && forall k | 0 <= k < |sym| :: !IsWhiteSpace(sym[k])
  }

  predicate ValidSymbols(syms: seq<string>)
  {
    forall s | s in syms :: ValidSymbol(s)
  }

  /** The number of leading ParserGlobal.Whitespace characters the while loop strips. */
  function LeadingSpaces(s: string): (n: nat)
    ensures n <= |s|
    ensures forall i | 0 <= i < n :: s[i] == ' '
    ensures n == |s| || s[n] != ' '
  {
    if s != [] && s[0] == ' ' then 1 + LeadingSpaces(s[1..]) else 0
  }

  /** A count of spaces followed by something else (or nothing) is the count of leading spaces. */
  lemma LeadingSpacesAreCounted(s: string, k: nat)
    requires k <= |s| && (forall i | 0 <= i < k :: s[i] == ' ') && (k == |s| || s[k] != ' ')
    ensures k == LeadingSpaces(s)
  {
    var n := LeadingSpaces(s);
    assert n == |s| || s[n] != ' ';
  }

  /** The symbols of the chosen set the run starts with, in the set's order. */
  function Candidates(u: string, symbols: seq<string>): (r: seq<string>)
    ensures forall x | x in r :: x in symbols && StartsWith(u, x)
    ensures forall x | x in symbols && StartsWith(u, x) :: x in r
  {
    if symbols == [] then []
    else (if StartsWith(u, symbols[0]) then [symbols[0]] else []) + Candidates(u, symbols[1..])
  }

  // ---------------------------------------------------------------------
  // Array.Sort by length
  // ---------------------------------------------------------------------

  predicate SortedByLength(s: seq<string>)
  {
    forall i, j | 0 <= i < j < |s| :: |s[i]| <= |s[j]|
  }

  function InsertByLength(x: string, s: seq<string>): (r: seq<string>)
    requires SortedByLength(s)
    ensures SortedByLength(r)
    ensures |r| == |s| + 1
    ensures forall y | y in r :: y == x || y in s
    ensures x in r && forall y | y in s :: y in r
  {
    if s == [] then [x]
    else if |x| <= |s[0]| then [x] + s
    else
      assert s == [s[0]] + s[1..];
      var r' := InsertByLength(x, s[1..]);
      assert forall y | y in r' :: |s[0]| <= |y| by {
        forall y | y in r' ensures |s[0]| <= |y| {
          if y != x {
            var j :| 0 <= j < |s[1..]| && s[1..][j] == y;
            assert s[j + 1] == y;
          }
        }
      }
      [s[0]] + r'
  }

  /** A deterministic stand-in for Array.Sort with the length comparison: ascending by length, with the same members. */
  function SortByLength(s: seq<string>): (r: seq<string>)
    ensures SortedByLength(r)
    ensures |r| == |s|
    ensures forall y :: y in r <==> y in s
  {
    if s == [] then []
    else
      assert s == [s[0]] + s[1..];
      InsertByLength(s[0], SortByLength(s[1..]))
  }

  /**
   * Array.Sort is unstable, so the order it leaves equal-length candidates in
   * is unspecified. It cannot matter: two candidates of one length are both
   * prefixes of the same run, so they are the same string.
   */
  lemma CandidatesOfOneLengthAreEqual(u: string, x: string, y: string)
    requires StartsWith(u, x) && StartsWith(u, y) && |x| == |y|
    ensures x == y
  {
    assert x == u[..|x|];
  }

  // ---------------------------------------------------------------------
  // The splitter
  // ---------------------------------------------------------------------

  /** The set in force: postfix symbols while any are allowed, else infix, else prefix. */
  function Possible(pre: seq<string>, inf: seq<string>, post: seq<string>): seq<string>
  {
    if post != [] then post else if inf != [] then inf else pre
  }

  /** The subtype a symbol from the set in force gets. */
  function SubtypeFor(inf: seq<string>, post: seq<string>): KeywordSubtype
  {
    if post != [] then PostfixOperator else if inf != [] then InfixOperator else PrefixOperator
  }

  function PostFlag(post: seq<string>): nat { if post != [] then 1 else 0 }

  /** The run after TrimEnd and the leading-space loop. */
  function Trimmed(ops: string): string
  {
    var t := TrimEnd(ops);
    t[LeadingSpaces(t)..]
  }

  /**
   * TryParseOperatorsRecoursive: trim the run (TrimEnd, then the leading
   * spaces, moving the position), choose the set in force, and try the
   * symbols of that set the run starts with, from the longest down.
   */
  function TryParse(ops: string, pos: int, pre: seq<string>, inf: seq<string>, post: seq<string>): Option<seq<Keyword>>
    requires ValidSymbols(pre) && ValidSymbols(inf) && ValidSymbols(post)
    decreases |ops|, PostFlag(post), 2, 0
  {
    var t := TrimEnd(ops);
    var lead := LeadingSpaces(t);
    var u := t[lead..];
    if post == [] && inf == [] && pre == [] then None
    else
      var cands := SortByLength(Candidates(u, Possible(pre, inf, post)));
      TryCandidates(u, pos + lead, pre, inf, post, cands, |cands|)
  }

  /**
   * The loop over the sorted candidates from index k - 1 down, and the
   * fallback after it: when the postfix set failed, the same run is tried
   * again with no postfix symbols.
   */
  function TryCandidates(u: string, p: int, pre: seq<string>, inf: seq<string>, post: seq<string>, cands: seq<string>, k: nat): Option<seq<Keyword>>
    requires ValidSymbols(pre) && ValidSymbols(inf) && ValidSymbols(post)
    requires k <= |cands| && forall c | c in cands :: StartsWith(u, c) && c in Possible(pre, inf, post)
    decreases |u|, PostFlag(post), 1, k
  {
    if k == 0 then
      if post != [] then TryParse(u, p, pre, inf, []) else None
    else if |cands[k - 1]| == |u| && post != [] && inf != [] then
      // a postfix symbol may not take the whole run when an infix one is required
      TryCandidates(u, p, pre, inf, post, cands, k - 1)
    else
      match TryOne(u, p, pre, inf, post, cands[k - 1])
      case Some(r) => Some(r)
      case None => TryCandidates(u, p, pre, inf, post, cands, k - 1)
  }

  /**
   * One iteration of the loop: the symbol c becomes the current keyword at
   * position p; the rest of the run, if any, is split recursively, with no
   * infix symbol allowed after an infix one.
   */
  function TryOne(u: string, p: int, pre: seq<string>, inf: seq<string>, post: seq<string>, c: string): Option<seq<Keyword>>
    requires ValidSymbols(pre) && ValidSymbols(inf) && ValidSymbols(post)
    requires StartsWith(u, c) && c in Possible(pre, inf, post)
    decreases |u|, PostFlag(post), 0, 0
  {
    var sub := SubtypeFor(inf, post);
    var cur := Keyword(c, p, Operator, Some(sub));
    if |c| == |u| then Some([cur])
    else
      match TryParse(u[|c|..], p + |c|, pre, if sub == InfixOperator then [] else inf, post)
      case Some(rest) => Some([cur] + rest)
      case None => None
  }

  lemma {:induction false} CandidatesAppend(u: string, symbols: seq<string>, x: string)
    ensures Candidates(u, symbols + [x]) == Candidates(u, symbols) + (if StartsWith(u, x) then [x] else [])
    decreases |symbols|
  {
    if symbols == [] {
      assert [x][1..] == [];
    } else {
      assert (symbols + [x])[1..] == symbols[1..] + [x];
      CandidatesAppend(u, symbols[1..], x);
    }
  }

  /** A candidate shorter than the run fails exactly when the rest of the run cannot be split, and then the loop goes on. */
  lemma CandidateFails(u: string, p: int, pre: seq<string>, inf: seq<string>, post: seq<string>, cands: seq<string>, i: nat)
    requires ValidSymbols(pre) && ValidSymbols(inf) && ValidSymbols(post)
    requires i < |cands| && forall c | c in cands :: StartsWith(u, c) && c in Possible(pre, inf, post)
    requires |cands[i]| < |u|
    ensures var c := cands[i];
      var rest := TryParse(u[|c|..], p + |c|, pre, if SubtypeFor(inf, post) == InfixOperator then [] else inf, post);
      var cur := Keyword(c, p, Operator, Some(SubtypeFor(inf, post)));
      TryCandidates(u, p, pre, inf, post, cands, i + 1)
        == if rest.Some? then Some([cur] + rest.value) else TryCandidates(u, p, pre, inf, post, cands, i)
  {
    assert cands[i] in cands;
  }

  /**
   * TryParseOperatorsRecoursive up to its candidate loop: the leading spaces
   * are stripped one at a time, the set in force chosen, and the symbols of
   * that set the run starts with collected in the set's order and sorted by
   * length.
   */
  method TryParseOperators(operators: string, position: int, pre: seq<string>, inf: seq<string>, post: seq<string>)
      returns (ok: bool, result: seq<Keyword>)
    requires ValidSymbols(pre) && ValidSymbols(inf) && ValidSymbols(post)
    ensures ok <==> TryParse(operators, position, pre, inf, post).Some?
    ensures ok ==> result == TryParse(operators, position, pre, inf, post).value
    ensures !ok ==> result == []
    decreases |operators|, PostFlag(post), 2
  {
    var t := TrimEnd(operators);
    var ops, pos := t, position;
    ghost var k := 0;
    while |ops| > 0 && ops[0] == ' '
      invariant k <= |t| && ops == t[k..] && pos == position + k
      invariant forall i | 0 <= i < k :: t[i] == ' '
      decreases |ops|
    {
      ops, pos, k := ops[1..], pos + 1, k + 1;
    }
    LeadingSpacesAreCounted(t, k);
    var possible;
    if |post| != 0 {
      possible := post;
    } else if |inf| != 0 {
      possible := inf;
    } else if |pre| != 0 {
      possible := pre;
    } else {
      return false, [];
    }
    var tmp := CollectCandidates(ops, possible);
    var cands := SortByLength(tmp);
    ok, result := TryCandidatesLoop(ops, pos, pre, inf, post, cands);
  }

  /** The loop that gathers, in the set's order, the symbols of the set the run starts with. */
  method CollectCandidates(ops: string, possible: seq<string>) returns (tmp: seq<string>)
    ensures tmp == Candidates(ops, possible)
  {
    tmp := [];
    for j := 0 to |possible|
      invariant tmp == Candidates(ops, possible[..j])
    {
      CandidatesAppend(ops, possible[..j], possible[j]);
      assert possible[..j + 1] == possible[..j] + [possible[j]];
      if StartsWith(ops, possible[j]) {
        tmp := tmp + [possible[j]];
      }
    }
    assert possible[..|possible|] == possible;
  }

  /**
   * The candidate loop of TryParseOperatorsRecoursive, from the longest
   * candidate down, each followed by a recursive call on the rest of the
   * run; then the fallback without postfix symbols.
   */
  method TryCandidatesLoop(u: string, p: int, pre: seq<string>, inf: seq<string>, post: seq<string>, cands: seq<string>)
      returns (ok: bool, result: seq<Keyword>)
    requires ValidSymbols(pre) && ValidSymbols(inf) && ValidSymbols(post)
    requires forall c | c in cands :: StartsWith(u, c) && c in Possible(pre, inf, post)
    ensures ok <==> TryCandidates(u, p, pre, inf, post, cands, |cands|).Some?
    ensures ok ==> result == TryCandidates(u, p, pre, inf, post, cands, |cands|).value
    ensures !ok ==> result == []
    decreases |u|, PostFlag(post), 1
  {
    var infixRequired := |inf| > 0;
    var sub := SubtypeFor(inf, post);
    var i := |cands|;
    while i > 0
      invariant 0 <= i <= |cands|
      invariant TryCandidates(u, p, pre, inf, post, cands, i) == TryCandidates(u, p, pre, inf, post, cands, |cands|)
    {
      i := i - 1;
      var c := cands[i];
      assert c in cands;
      assert StartsWith(u, c) && ValidSymbol(c);
      if |c| == |u| && |post| != 0 && infixRequired {
        continue;
      }
      var cur := Keyword(c, p, Operator, Some(sub));
      if |cur.word| == |u| {
        return true, [cur];
      }
      var nextOk, nextResult := TryParseOperators(u[|c|..], p + |c|, pre, if sub == InfixOperator then [] else inf, post);
      CandidateFails(u, p, pre, inf, post, cands, i);
      if nextOk {
        return true, [cur] + nextResult;
      }
    }
    if |post| != 0 {
      ok, result := TryParseOperators(u, p, pre, inf, []);
      return;
    }
    return false, [];
  }

  // ---------------------------------------------------------------------
  // Longest first
  // ---------------------------------------------------------------------

  lemma LastIsLongest(cands: seq<string>, x: string)
    requires SortedByLength(cands) && x in cands
    ensures |x| <= |cands[|cands| - 1]|
  {
    var i :| 0 <= i < |cands| && cands[i] == x;
    if i < |cands| - 1 {
      assert |cands[i]| <= |cands[|cands| - 1]|;
    }
  }

  /**
   * Longest first: when no postfix symbol is in force and the whole trimmed
   * run is itself a symbol of the set in force, the split is that one
   * symbol, whatever shorter symbols the run also starts with. So "<-"
   * is converse implication, never "<" followed by "-".
   */
  lemma WholeRunSymbolWins(ops: string, pos: int, pre: seq<string>, inf: seq<string>)
    requires ValidSymbols(pre) && ValidSymbols(inf)
    requires Trimmed(ops) in Possible(pre, inf, [])
    ensures TryParse(ops, pos, pre, inf, []) ==
      Some([Keyword(Trimmed(ops), pos + LeadingSpaces(TrimEnd(ops)), Operator, Some(SubtypeFor(inf, [])))])
  {
    var t := TrimEnd(ops);
    var lead := LeadingSpaces(t);
    var u := t[lead..];
    assert StartsWith(u, u);
    var cands := SortByLength(Candidates(u, Possible(pre, inf, [])));
    assert u in cands;
    WholeCandidateWins(u, pos + lead, pre, inf, cands);
  }

  /** The candidate loop, when the whole run is one of the sorted candidates, takes it first. */
  lemma WholeCandidateWins(u: string, p: int, pre: seq<string>, inf: seq<string>, cands: seq<string>)
    requires ValidSymbols(pre) && ValidSymbols(inf)
    requires forall c | c in cands :: StartsWith(u, c) && c in Possible(pre, inf, [])
    requires SortedByLength(cands) && u in cands
    ensures TryCandidates(u, p, pre, inf, [], cands, |cands|) == Some([Keyword(u, p, Operator, Some(SubtypeFor(inf, [])))])
  {
    LastIsLongest(cands, u);
    var c := cands[|cands| - 1];
    assert c in cands;
    CandidatesOfOneLengthAreEqual(u, c, u);
    assert TryOne(u, p, pre, inf, [], c) == Some([Keyword(u, p, Operator, Some(SubtypeFor(inf, [])))]);
  }

  // ---------------------------------------------------------------------
  // The shape of a successful split
  // ---------------------------------------------------------------------

  predicate AllOf(r: seq<Keyword>, sub: KeywordSubtype, symbols: seq<string>)
  {
    forall j | 0 <= j < |r| :: r[j].kind == Operator && r[j].subtype == Some(sub) && r[j].word in symbols
  }

  /**
   * The result is postfix symbols up to index a, then, when an infix symbol
   * is required, exactly one infix symbol, then prefix symbols; each symbol
   * comes from its own set.
   */
  predicate ShapeAt(r: seq<Keyword>, a: int, pre: seq<string>, inf: seq<string>, post: seq<string>)
  {
    0 <= a <= |r| && |r| > 0 && AllOf(r[..a], PostfixOperator, post)
    && if inf != [] then
         a < |r| && r[a].kind == Operator && r[a].subtype == Some(InfixOperator) && r[a].word in inf
         && AllOf(r[a + 1..], PrefixOperator, pre)
       else AllOf(r[a..], PrefixOperator, pre)
  }

  lemma AllOfCons(k: Keyword, rest: seq<Keyword>, sub: KeywordSubtype, symbols: seq<string>)
    requires k.kind == Operator && k.subtype == Some(sub) && k.word in symbols
    requires AllOf(rest, sub, symbols)
    ensures AllOf([k] + rest, sub, symbols)
  {
  }

  lemma {:induction false} TryParseShape(ops: string, pos: int, pre: seq<string>, inf: seq<string>, post: seq<string>, r: seq<Keyword>) returns (a: int)
    requires ValidSymbols(pre) && ValidSymbols(inf) && ValidSymbols(post)
    requires TryParse(ops, pos, pre, inf, post) == Some(r)
    ensures ShapeAt(r, a, pre, inf, post)
    ensures post == [] ==> a == 0
    ensures pre == [] && inf == [] ==> a == |r|
    decreases |ops|, PostFlag(post), 2, 0
  {
    var t := TrimEnd(ops);
    var lead := LeadingSpaces(t);
    var u := t[lead..];
    var cands := SortByLength(Candidates(u, Possible(pre, inf, post)));
    a := TryCandidatesShape(u, pos + lead, pre, inf, post, cands, |cands|, r);
  }

  lemma {:induction false} TryCandidatesShape(u: string, p: int, pre: seq<string>, inf: seq<string>, post: seq<string>, cands: seq<string>, k: nat, r: seq<Keyword>) returns (a: int)
    requires ValidSymbols(pre) && ValidSymbols(inf) && ValidSymbols(post)
    requires k <= |cands| && forall c | c in cands :: StartsWith(u, c) && c in Possible(pre, inf, post)
    requires TryCandidates(u, p, pre, inf, post, cands, k) == Some(r)
    ensures ShapeAt(r, a, pre, inf, post)
    ensures post == [] ==> a == 0
    ensures pre == [] && inf == [] ==> a == |r|
    decreases |u|, PostFlag(post), 1, k
  {
    if k == 0 {
      a := TryParseShape(u, p, pre, inf, [], r);
    } else if |cands[k - 1]| == |u| && post != [] && inf != [] {
      a := TryCandidatesShape(u, p, pre, inf, post, cands, k - 1, r);
    } else {
      match TryOne(u, p, pre, inf, post, cands[k - 1])
      case Some(r') =>
        a := TryOneShape(u, p, pre, inf, post, cands[k - 1], r);
      case None =>
        a := TryCandidatesShape(u, p, pre, inf, post, cands, k - 1, r);
    }
  }

  /** What a successful iteration of the loop produced: the current keyword, then the split of the rest. */
  lemma TryOneResult(u: string, p: int, pre: seq<string>, inf: seq<string>, post: seq<string>, c: string, r: seq<Keyword>)
    requires ValidSymbols(pre) && ValidSymbols(inf) && ValidSymbols(post)
    requires StartsWith(u, c) && c in Possible(pre, inf, post)
    requires TryOne(u, p, pre, inf, post, c) == Some(r)
    ensures 0 < |c| <= |u| && |r| > 0 && r[0] == Keyword(c, p, Operator, Some(SubtypeFor(inf, post)))
    ensures |c| == |u| ==> |r| == 1
    ensures |c| < |u| ==> TryParse(u[|c|..], p + |c|, pre, if SubtypeFor(inf, post) == InfixOperator then [] else inf, post) == Some(r[1..])
  {
    assert ValidSymbol(c);
  }

  lemma {:induction false} TryOneShape(u: string, p: int, pre: seq<string>, inf: seq<string>, post: seq<string>, c: string, r: seq<Keyword>) returns (a: int)
    requires ValidSymbols(pre) && ValidSymbols(inf) && ValidSymbols(post)
    requires StartsWith(u, c) && c in Possible(pre, inf, post)
    requires !(|c| == |u| && post != [] && inf != [])
    requires TryOne(u, p, pre, inf, post, c) == Some(r)
    ensures ShapeAt(r, a, pre, inf, post)
    ensures post == [] ==> a == 0
    ensures pre == [] && inf == [] ==> a == |r|
    decreases |u|, PostFlag(post), 0, 0
  {
    TryOneResult(u, p, pre, inf, post, c, r);
    if |c| == |u| {
      a := ShapeOfOne(r, pre, inf, post);
    } else {
      var inf' := if SubtypeFor(inf, post) == InfixOperator then [] else inf;
      var a' := TryParseShape(u[|c|..], p + |c|, pre, inf', post, r[1..]);
      a := ShapeOfCons(r, a', pre, inf, post);
    }
  }

  lemma ShapeOfOne(r: seq<Keyword>, pre: seq<string>, inf: seq<string>, post: seq<string>) returns (a: int)
    requires |r| == 1 && r[0].word in Possible(pre, inf, post)
    requires r[0].kind == Operator && r[0].subtype == Some(SubtypeFor(inf, post))
    requires post != [] ==> inf == []
    ensures ShapeAt(r, a, pre, inf, post)
    ensures post == [] ==> a == 0
    ensures pre == [] && inf == [] ==> a == |r|
  {
    a := if post != [] then 1 else 0;
    assert r[a..] == [] || r[a..] == r;
  }

  lemma ShapeOfCons(r: seq<Keyword>, a': int, pre: seq<string>, inf: seq<string>, post: seq<string>) returns (a: int)
    requires |r| > 1 && r[0].word in Possible(pre, inf, post)
    requires r[0].kind == Operator && r[0].subtype == Some(SubtypeFor(inf, post))
    requires ShapeAt(r[1..], a', pre, if SubtypeFor(inf, post) == InfixOperator then [] else inf, post)
    requires post == [] ==> a' == 0
    requires pre == [] && inf == [] ==> a' == |r| - 1
    ensures ShapeAt(r, a, pre, inf, post)
    ensures post == [] ==> a == 0
    ensures pre == [] && inf == [] ==> a == |r|
  {
    var cur := r[0];
    var rest := r[1..];
    assert r == [cur] + rest;
    if post != [] {
      a := a' + 1;
      assert r[..a] == [cur] + rest[..a'];
      AllOfCons(cur, rest[..a'], PostfixOperator, post);
      assert r[a..] == rest[a'..];
      if inf != [] {
        assert r[a + 1..] == rest[a' + 1..];
      }
    } else if inf != [] {
      a := 0;
      assert r[..a] == [];
      assert r[a + 1..] == rest[a'..];
    } else {
      a := 0;
      assert r[..a] == [];
      assert r[a..] == [cur] + rest[a'..];
      AllOfCons(cur, rest[a'..], PrefixOperator, pre);
    }
  }

  /** In the three contexts SpecifyOperators uses, the split is all postfix, all prefix, or has exactly one infix. */
  lemma SplitInContexts(ops: string, pos: int, pre: seq<string>, inf: seq<string>, post: seq<string>)
    requires ValidSymbols(pre) && ValidSymbols(inf) && ValidSymbols(post)
    ensures TryParse(ops, pos, [], [], post).Some? ==> AllOf(TryParse(ops, pos, [], [], post).value, PostfixOperator, post)
    ensures TryParse(ops, pos, pre, [], []).Some? ==> AllOf(TryParse(ops, pos, pre, [], []).value, PrefixOperator, pre)
    ensures inf != [] && TryParse(ops, pos, pre, inf, post).Some? ==>
      var r := TryParse(ops, pos, pre, inf, post).value;
      exists a | 0 <= a < |r| :: r[a].subtype == Some(InfixOperator)
        && forall j | 0 <= j < |r| && j != a :: r[j].subtype != Some(InfixOperator)
  {
    if TryParse(ops, pos, [], [], post).Some? {
      var r := TryParse(ops, pos, [], [], post).value;
      var a := TryParseShape(ops, pos, [], [], post, r);
      assert r[..a] == r;
    }
    if TryParse(ops, pos, pre, [], []).Some? {
      var r := TryParse(ops, pos, pre, [], []).value;
      var a := TryParseShape(ops, pos, pre, [], [], r);
      assert r[a..] == r;
    }
    if inf != [] && TryParse(ops, pos, pre, inf, post).Some? {
      var r := TryParse(ops, pos, pre, inf, post).value;
      var a := TryParseShape(ops, pos, pre, inf, post, r);
      forall j | 0 <= j < |r| && j != a ensures r[j].subtype != Some(InfixOperator) {
        if j < a { assert r[..a][j] == r[j]; }
        else { assert r[a + 1..][j - a - 1] == r[j]; }
      }
    }
  }

  // ---------------------------------------------------------------------
  // A successful split tiles the run
  // ---------------------------------------------------------------------

  /** The run with its whitespace removed. */
  function NonSpace(s: string): string
  {
    if s == [] then [] else (if IsWhiteSpace(s[0]) then [] else [s[0]]) + NonSpace(s[1..])
  }

  function Concatenation(r: seq<Keyword>): string
  {
    if r == [] then [] else r[0].word + Concatenation(r[1..])
  }

  /** The keyword is the substring of the run at its offset from the run's position. */
  predicate Placed(ops: string, pos: int, k: Keyword)
  {
    pos <= k.originalPosition && k.originalPosition - pos + |k.word| <= |ops|
    && ops[k.originalPosition - pos..k.originalPosition - pos + |k.word|] == k.word
  }

  lemma {:induction false} NonSpaceAppend(a: string, b: string)
    ensures NonSpace(a + b) == NonSpace(a) + NonSpace(b)
  {
    if a != [] {
      assert (a + b)[0] == a[0];
      assert (a + b)[1..] == a[1..] + b;
      NonSpaceAppend(a[1..], b);
    } else {
      assert a + b == b;
    }
  }

  lemma {:induction false} NonSpaceOfAllWhite(s: string)
    requires IsNullOrWhiteSpace(s)
    ensures NonSpace(s) == []
  {
    if s != [] { NonSpaceOfAllWhite(s[1..]); }
  }

  lemma {:induction false} NonSpaceOfSymbol(s: string)
    requires forall i | 0 <= i < |s| :: !IsWhiteSpace(s[i])
    ensures NonSpace(s) == s
  {
    if s != [] { NonSpaceOfSymbol(s[1..]); }
  }

  /** Trimming the run removes only whitespace. */
  lemma TrimmedRun(ops: string) returns (t: string, lead: nat)
    ensures t == TrimEnd(ops) && lead == LeadingSpaces(t)
    ensures NonSpace(t[lead..]) == NonSpace(ops)
  {
    t := TrimEnd(ops);
    lead := LeadingSpaces(t);
    assert ops == t + ops[|t|..];
    NonSpaceAppend(t, ops[|t|..]);
    NonSpaceOfAllWhite(ops[|t|..]);
    assert t == t[..lead] + t[lead..];
    NonSpaceAppend(t[..lead], t[lead..]);
    NonSpaceOfAllWhite(t[..lead]);
  }

  lemma PlacedShift(s: string, d: int, pos: int, k: Keyword)
    requires 0 <= d <= |s| && Placed(s[d..], pos + d, k)
    ensures Placed(s, pos, k)
  {
    var o := k.originalPosition - pos - d;
    assert s[d..][o..o + |k.word|] == s[d + o..d + o + |k.word|];
  }

  lemma PlacedPrefix(s: string, m: int, pos: int, k: Keyword)
    requires 0 <= m <= |s| && Placed(s[..m], pos, k)
    ensures Placed(s, pos, k)
  {
    var o := k.originalPosition - pos;
    assert s[..m][o..o + |k.word|] == s[o..o + |k.word|];
  }

  predicate Tiles(ops: string, pos: int, r: seq<Keyword>)
  {
    Concatenation(r) == NonSpace(ops) && forall j | 0 <= j < |r| :: Placed(ops, pos, r[j])
  }

  /**
   * A successful split tiles the run: the symbols, in order, spell the run
   * with its spaces removed, and each one sits in the run at its position.
   */
  lemma {:induction false} TryParseTiles(ops: string, pos: int, pre: seq<string>, inf: seq<string>, post: seq<string>, r: seq<Keyword>)
    requires ValidSymbols(pre) && ValidSymbols(inf) && ValidSymbols(post)
    requires TryParse(ops, pos, pre, inf, post) == Some(r)
    ensures Tiles(ops, pos, r)
    decreases |ops|, PostFlag(post), 2, 0
  {
    var t, lead, cands := TryParseUnfolds(ops, pos, pre, inf, post);
    var u := t[lead..];
    assert |u| <= |ops|;
    TryCandidatesTiles(u, pos + lead, pre, inf, post, cands, |cands|, r);
    TrimmedTiles(ops, t, lead, pos, r);
  }

  /**
   * A split that succeeds comes from the loop over the sorted candidates
   * cands of the trimmed run t[lead..], which spells the run without its
   * whitespace.
   */
  lemma TryParseUnfolds(ops: string, pos: int, pre: seq<string>, inf: seq<string>, post: seq<string>)
      returns (t: string, lead: nat, cands: seq<string>)
    requires ValidSymbols(pre) && ValidSymbols(inf) && ValidSymbols(post)
    requires TryParse(ops, pos, pre, inf, post).Some?
    ensures |t| <= |ops| && t == ops[..|t|] && lead <= |t| && NonSpace(t[lead..]) == NonSpace(ops)
    ensures forall c | c in cands :: StartsWith(t[lead..], c) && c in Possible(pre, inf, post)
    ensures TryParse(ops, pos, pre, inf, post) == TryCandidates(t[lead..], pos + lead, pre, inf, post, cands, |cands|)
  {
    t, lead := TrimmedRun(ops);
    cands := SortByLength(Candidates(t[lead..], Possible(pre, inf, post)));
  }

  /** A tiling of the trimmed run t[lead..], at the position moved past the leading spaces, tiles the run. */
  lemma TrimmedTiles(ops: string, t: string, lead: nat, pos: int, r: seq<Keyword>)
    requires |t| <= |ops| && t == ops[..|t|] && lead <= |t| && NonSpace(t[lead..]) == NonSpace(ops)
    requires Tiles(t[lead..], pos + lead, r)
    ensures Tiles(ops, pos, r)
  {
    forall j | 0 <= j < |r| ensures Placed(ops, pos, r[j]) {
      PlacedShift(t, lead, pos, r[j]);
      PlacedPrefix(ops, |t|, pos, r[j]);
    }
  }

  lemma {:induction false} TryCandidatesTiles(u: string, p: int, pre: seq<string>, inf: seq<string>, post: seq<string>, cands: seq<string>, k: nat, r: seq<Keyword>)
    requires ValidSymbols(pre) && ValidSymbols(inf) && ValidSymbols(post)
    requires k <= |cands| && forall c | c in cands :: StartsWith(u, c) && c in Possible(pre, inf, post)
    requires TryCandidates(u, p, pre, inf, post, cands, k) == Some(r)
    ensures Tiles(u, p, r)
    decreases |u|, PostFlag(post), 1, k
  {
    if k == 0 {
      TryParseTiles(u, p, pre, inf, [], r);
    } else if |cands[k - 1]| == |u| && post != [] && inf != [] {
      TryCandidatesTiles(u, p, pre, inf, post, cands, k - 1, r);
    } else {
      match TryOne(u, p, pre, inf, post, cands[k - 1])
      case Some(r') =>
        TryOneTiles(u, p, pre, inf, post, cands[k - 1], r);
      case None =>
        TryCandidatesTiles(u, p, pre, inf, post, cands, k - 1, r);
    }
  }

  lemma {:induction false} TryOneTiles(u: string, p: int, pre: seq<string>, inf: seq<string>, post: seq<string>, c: string, r: seq<Keyword>)
    requires ValidSymbols(pre) && ValidSymbols(inf) && ValidSymbols(post)
    requires StartsWith(u, c) && c in Possible(pre, inf, post)
    requires TryOne(u, p, pre, inf, post, c) == Some(r)
    ensures Tiles(u, p, r)
    decreases |u|, PostFlag(post), 0, 0
  {
    TryOneResult(u, p, pre, inf, post, c, r);
    var cur := r[0];
    var rest := r[1..];
    assert r == [cur] + rest;
    if |c| == |u| {
      assert rest == [];
      TilesCons(u, p, c, cur, rest);
    } else {
      var inf' := if SubtypeFor(inf, post) == InfixOperator then [] else inf;
      TryParseTiles(u[|c|..], p + |c|, pre, inf', post, rest);
      TilesCons(u, p, c, cur, rest);
    }
  }

  /** A symbol at the head of the run followed by a tiling of the rest tiles the run. */
  lemma TilesCons(u: string, p: int, c: string, cur: Keyword, rest: seq<Keyword>)
    requires ValidSymbol(c) && StartsWith(u, c) && cur.word == c && cur.originalPosition == p
    requires Tiles(u[|c|..], p + |c|, rest)
    ensures Tiles(u, p, [cur] + rest)
  {
    var r := [cur] + rest;
    assert u == c + u[|c|..];
    NonSpaceAppend(c, u[|c|..]);
    NonSpaceOfSymbol(c);
    assert r[1..] == rest;
    forall j | 0 <= j < |r| ensures Placed(u, p, r[j]) {
      if j > 0 {
        assert r[j] == rest[j - 1];
        PlacedShift(u, |c|, p, rest[j - 1]);
      }
    }
  }
}

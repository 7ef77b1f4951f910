// SpecifyOperators: every operator run is split in the context its
// neighbours give it, and a run that cannot be split is reported and kept.
module OperatorContexts {
  import opened Wrappers
  import opened Errors
  import opened Keywords
  import opened OperatorSplit

  /** The three symbol sets the analyzer was given. */
  datatype SymbolSets = SymbolSets(prefix: seq<string>, infix: seq<string>, postfix: seq<string>)

  predicate ValidSets(sets: SymbolSets)
  {
    ValidSymbols(sets.prefix) && ValidSymbols(sets.infix) && ValidSymbols(sets.postfix)
  }

  /**
   * What a run may hold: postfix symbols only before ')', ',' or the end;
   * prefix symbols only after '(', ',' or the start; elsewhere one infix
   * symbol with optional postfix symbols before it and prefix ones after.
   */
  datatype Context = PostfixOnly | PrefixOnly | Between

  function ContextAt(ks: seq<Keyword>, i: nat): Context
    requires i < |ks|
  {
    if i == |ks| - 1 || ks[i + 1].kind == RightParenthesis || ks[i + 1].kind == ArgumentSeparator then PostfixOnly
    else if i == 0 || ks[i - 1].kind == LeftParenthesis || ks[i - 1].kind == ArgumentSeparator then PrefixOnly
    else Between
  }

  /** The split of the run at index i with the sets its context allows. */
  function SplitRun(ks: seq<Keyword>, i: nat, sets: SymbolSets): Option<seq<Keyword>>
    requires i < |ks| && ValidSets(sets)
  {
    match ContextAt(ks, i)
    case PostfixOnly => TryParse(ks[i].word, ks[i].originalPosition, [], [], sets.postfix)
    case PrefixOnly => TryParse(ks[i].word, ks[i].originalPosition, sets.prefix, [], [])
    case Between => TryParse(ks[i].word, ks[i].originalPosition, sets.prefix, sets.infix, sets.postfix)
  }

  /** The new keyword list and the errors SpecifyOperators produces. */
  datatype Specified = Specified(keywords: seq<Keyword>, errors: seq<Error>)

  /** The operators an operator keyword may stand for, with the subtype it got. */
  predicate FromSets(k: Keyword, sets: SymbolSets)
  {
    (k.subtype == Some(PrefixOperator) && k.word in sets.prefix)
    || (k.subtype == Some(InfixOperator) && k.word in sets.infix)
    || (k.subtype == Some(PostfixOperator) && k.word in sets.postfix)
  }

  /** The keywords that are not operator runs, in order. */
  function Others(ks: seq<Keyword>): (r: seq<Keyword>)
    ensures |r| <= |ks|
    ensures forall k | k in r :: k in ks && k.kind != Operator
  {
    if ks == [] then [] else Others(ks[..|ks| - 1]) + (if ks[|ks| - 1].kind != Operator then [ks[|ks| - 1]] else [])
  }

  /** Every keyword of a successful split is an operator with a subtype and a symbol from its set. */
  lemma SplitKeywordsFromSets(ks: seq<Keyword>, i: nat, sets: SymbolSets, r: seq<Keyword>)
    requires i < |ks| && ValidSets(sets) && SplitRun(ks, i, sets) == Some(r)
    ensures |r| > 0
    ensures forall k | k in r :: k.kind == Operator && FromSets(k, sets)
  {
    var w, p := ks[i].word, ks[i].originalPosition;
    var a;
    match ContextAt(ks, i)
    case PostfixOnly => a := TryParseShape(w, p, [], [], sets.postfix, r);
    case PrefixOnly => a := TryParseShape(w, p, sets.prefix, [], [], r);
    case Between => a := TryParseShape(w, p, sets.prefix, sets.infix, sets.postfix, r);
    forall k | k in r ensures k.kind == Operator && FromSets(k, sets) {
      var j :| 0 <= j < |r| && r[j] == k;
      if j < a {
        assert r[..a][j] == k;
      } else if ContextAt(ks, i) == Between && sets.infix != [] && j > a {
        assert r[a + 1..][j - a - 1] == k;
      } else if j > a || ContextAt(ks, i) != Between || sets.infix == [] {
        assert r[a..][j - a] == k;
      }
    }
  }

  /** The split of every keyword that is an operator run, in order; None for the other keywords. */
  function Splits(ks: seq<Keyword>, sets: SymbolSets): (rs: seq<Option<seq<Keyword>>>)
    requires ValidSets(sets)
    ensures |rs| == |ks|
  {
    seq(|ks|, i requires 0 <= i < |ks| => if ks[i].kind == Operator then SplitRun(ks, i, sets) else None)
  }

  /** Every successful split is a non-empty list of operators taken from the sets. */
  predicate SplitsFromSets(rs: seq<Option<seq<Keyword>>>, sets: SymbolSets)
  {
    forall i | 0 <= i < |rs| && rs[i].Some? :: rs[i].value != [] && forall k | k in rs[i].value :: k.kind == Operator && FromSets(k, sets)
  }

  lemma SplitsAreFromSets(ks: seq<Keyword>, sets: SymbolSets)
    requires ValidSets(sets)
    ensures SplitsFromSets(Splits(ks, sets), sets)
  {
    var rs := Splits(ks, sets);
    forall i | 0 <= i < |rs| && rs[i].Some?
      ensures rs[i].value != [] && forall k | k in rs[i].value :: k.kind == Operator && FromSets(k, sets)
    {
      SplitKeywordsFromSets(ks, i, sets, rs[i].value);
    }
  }

  /** SpecifyOperators over the first n keywords, given the split of each run. */
  function SpecifyUpTo(ks: seq<Keyword>, rs: seq<Option<seq<Keyword>>>, n: nat): (s: Specified)
    requires n <= |ks| == |rs|
    requires forall i | 0 <= i < |rs| && rs[i].Some? :: rs[i].value != []
    ensures forall e | e in s.errors :: e.OperatorCanNotBeParsed?
    ensures |s.keywords| >= n
  {
    if n == 0 then Specified([], [])
    else
      var p := SpecifyUpTo(ks, rs, n - 1);
      var k := ks[n - 1];
      if k.kind != Operator then Specified(p.keywords + [k], p.errors)
      else
        match rs[n - 1]
        case None => Specified(p.keywords + [k], p.errors + [OperatorCanNotBeParsed(k.word, k.originalPosition)])
        case Some(r) => Specified(p.keywords + r, p.errors)
  }

  function SpecifyOperators(ks: seq<Keyword>, sets: SymbolSets): Specified
    requires ValidSets(sets)
  {
    SplitsAreFromSets(ks, sets);
    SpecifyUpTo(ks, Splits(ks, sets), |ks|)
  }

  /**
   * One iteration of SpecifyOperators' loop before it records anything: the
   * run at index i split with the sets its context allows, or the keyword
   * itself when it is not an operator run.
   */
  method SplitAt(ks: seq<Keyword>, i: nat, sets: SymbolSets) returns (ok: bool, split: seq<Keyword>)
    requires i < |ks| && ValidSets(sets)
    ensures ks[i].kind != Operator ==> ok && split == [ks[i]]
    ensures ks[i].kind == Operator ==> (ok <==> SplitRun(ks, i, sets).Some?) && (ok ==> split == SplitRun(ks, i, sets).value)
  {
    if ks[i].kind != Operator {
      return true, [ks[i]];
    }
    var pre, inf, post;
    if i == |ks| - 1 || ks[i + 1].kind == RightParenthesis || ks[i + 1].kind == ArgumentSeparator {
      pre, inf, post := [], [], sets.postfix;
    } else if i == 0 || ks[i - 1].kind == LeftParenthesis || ks[i - 1].kind == ArgumentSeparator {
      pre, inf, post := sets.prefix, [], [];
    } else {
      pre, inf, post := sets.prefix, sets.infix, sets.postfix;
    }
    ok, split := TryParseOperators(ks[i].word, ks[i].originalPosition, pre, inf, post);
  }

  /** What one iteration adds: the split, or the keyword itself and its report. */
  lemma SpecifyStep(ks: seq<Keyword>, sets: SymbolSets, i: nat, ok: bool, split: seq<Keyword>)
    requires i < |ks| && ValidSets(sets)
    requires ks[i].kind != Operator ==> ok && split == [ks[i]]
    requires ks[i].kind == Operator ==> (ok <==> SplitRun(ks, i, sets).Some?) && (ok ==> split == SplitRun(ks, i, sets).value)
    ensures SplitsFromSets(Splits(ks, sets), sets)
    ensures var p := SpecifyUpTo(ks, Splits(ks, sets), i);
      SpecifyUpTo(ks, Splits(ks, sets), i + 1) ==
        if ok then Specified(p.keywords + split, p.errors)
        else Specified(p.keywords + [ks[i]], p.errors + [OperatorCanNotBeParsed(ks[i].word, ks[i].originalPosition)])
  {
    SplitsAreFromSets(ks, sets);
  }

  /** Nothing is reported exactly when every operator run splits, and every run that does not is reported. */
  lemma {:induction false} SpecifyErrorsIff(ks: seq<Keyword>, rs: seq<Option<seq<Keyword>>>, n: nat)
    requires n <= |ks| == |rs|
    requires forall i | 0 <= i < |rs| && rs[i].Some? :: rs[i].value != []
    ensures SpecifyUpTo(ks, rs, n).errors == [] <==> forall i | 0 <= i < n && ks[i].kind == Operator :: rs[i].Some?
    ensures forall i | 0 <= i < n && ks[i].kind == Operator && rs[i].None? ::
      OperatorCanNotBeParsed(ks[i].word, ks[i].originalPosition) in SpecifyUpTo(ks, rs, n).errors
  {
    if n > 0 {
      SpecifyErrorsIff(ks, rs, n - 1);
    }
  }

  /**
   * SpecifyOperators reports nothing exactly when every operator run splits
   * in its context, and reports every run that does not.
   */
  lemma SpecifyOperatorsReports(ks: seq<Keyword>, sets: SymbolSets)
    requires ValidSets(sets)
    ensures SpecifyOperators(ks, sets).errors == [] <==> forall i | 0 <= i < |ks| && ks[i].kind == Operator :: SplitRun(ks, i, sets).Some?
    ensures forall i | 0 <= i < |ks| && ks[i].kind == Operator && SplitRun(ks, i, sets).None? ::
      OperatorCanNotBeParsed(ks[i].word, ks[i].originalPosition) in SpecifyOperators(ks, sets).errors
  {
    var rs := Splits(ks, sets);
    SplitsAreFromSets(ks, sets);
    SpecifyErrorsIff(ks, rs, |ks|);
    assert forall i | 0 <= i < |ks| && ks[i].kind == Operator :: rs[i] == SplitRun(ks, i, sets);
  }

  lemma OthersAppend(a: seq<Keyword>, k: Keyword)
    ensures Others(a + [k]) == Others(a) + (if k.kind != Operator then [k] else [])
  {
    assert (a + [k])[..|a|] == a;
  }

  lemma OthersOfPrefix(ks: seq<Keyword>, n: nat)
    requires 0 < n <= |ks|
    ensures Others(ks[..n]) == Others(ks[..n - 1]) + (if ks[n - 1].kind != Operator then [ks[n - 1]] else [])
  {
    assert ks[..n][..n - 1] == ks[..n - 1];
  }

  lemma {:induction false} OthersOfOperators(a: seq<Keyword>, r: seq<Keyword>)
    requires forall k | k in r :: k.kind == Operator
    ensures Others(a + r) == Others(a)
    decreases |r|
  {
    if r != [] {
      var last := r[|r| - 1];
      assert last in r;
      var front := r[..|r| - 1];
      assert forall k | k in front :: k in r;
      assert a + r == (a + front) + [last];
      OthersAppend(a + front, last);
      OthersOfOperators(a, front);
      assert Others(a + r) == Others(a + front) + [];
    } else {
      assert a + r == a;
    }
  }

  /** SpecifyOperators leaves the keywords that are not operator runs untouched and in order. */
  lemma {:induction false} SpecifyKeepsOthers(ks: seq<Keyword>, rs: seq<Option<seq<Keyword>>>, n: nat, sets: SymbolSets)
    requires n <= |ks| == |rs| && SplitsFromSets(rs, sets)
    ensures Others(SpecifyUpTo(ks, rs, n).keywords) == Others(ks[..n])
  {
    if n > 0 {
      SpecifyKeepsOthers(ks, rs, n - 1, sets);
      var p := SpecifyUpTo(ks, rs, n - 1).keywords;
      var q := SpecifyUpTo(ks, rs, n).keywords;
      var k := ks[n - 1];
      OthersOfPrefix(ks, n);
      if k.kind != Operator || rs[n - 1].None? {
        assert q == p + [k];
        OthersAppend(p, k);
      } else {
        assert q == p + rs[n - 1].value;
        OthersOfOperators(p, rs[n - 1].value);
      }
    }
  }

  /**
   * When nothing is reported, every operator keyword of the result carries
   * a prefix, infix or postfix subtype and a symbol of that set.
   */
  lemma {:induction false} SpecifiedOperatorsAreSymbols(ks: seq<Keyword>, rs: seq<Option<seq<Keyword>>>, n: nat, sets: SymbolSets)
    requires n <= |ks| == |rs| && SplitsFromSets(rs, sets)
    requires SpecifyUpTo(ks, rs, n).errors == []
    ensures forall k | k in SpecifyUpTo(ks, rs, n).keywords && k.kind == Operator :: FromSets(k, sets)
  {
    if n > 0 {
      SpecifiedOperatorsAreSymbols(ks, rs, n - 1, sets);
    }
  }

  /** The two facts above for SpecifyOperators itself. */
  lemma SpecifyOperatorsShape(ks: seq<Keyword>, sets: SymbolSets)
    requires ValidSets(sets)
    ensures Others(SpecifyOperators(ks, sets).keywords) == Others(ks)
    ensures SpecifyOperators(ks, sets).errors == [] ==>
      forall k | k in SpecifyOperators(ks, sets).keywords && k.kind == Operator :: FromSets(k, sets)
  {
    SplitsAreFromSets(ks, sets);
    SpecifyKeepsOthers(ks, Splits(ks, sets), |ks|, sets);
    assert ks[..|ks|] == ks;
    if SpecifyOperators(ks, sets).errors == [] {
      SpecifiedOperatorsAreSymbols(ks, Splits(ks, sets), |ks|, sets);
    }
  }

  /**
   * The context decides the subtypes: a run before ')', ',' or the end
   * becomes postfix operators only, a run after '(', ',' or the start
   * prefix operators only, and a run between two operands holds an infix
   * operator.
   */
  lemma ContextDecidesSubtypes(ks: seq<Keyword>, i: nat, sets: SymbolSets)
    requires i < |ks| && ValidSets(sets) && SplitRun(ks, i, sets).Some?
    ensures ContextAt(ks, i) == PostfixOnly ==> AllOf(SplitRun(ks, i, sets).value, PostfixOperator, sets.postfix)
    ensures ContextAt(ks, i) == PrefixOnly ==> AllOf(SplitRun(ks, i, sets).value, PrefixOperator, sets.prefix)
    ensures ContextAt(ks, i) == Between && sets.infix != [] ==>
      exists a | 0 <= a < |SplitRun(ks, i, sets).value| :: SplitRun(ks, i, sets).value[a].subtype == Some(InfixOperator)
  {
    SplitInContexts(ks[i].word, ks[i].originalPosition, sets.prefix, sets.infix, sets.postfix);
  }

  /** A split run is the run itself cut into its symbols, each at its own position. */
  lemma SplitRunTiles(ks: seq<Keyword>, i: nat, sets: SymbolSets)
    requires i < |ks| && ValidSets(sets) && SplitRun(ks, i, sets).Some?
    ensures Tiles(ks[i].word, ks[i].originalPosition, SplitRun(ks, i, sets).value)
  {
    var w, p, r := ks[i].word, ks[i].originalPosition, SplitRun(ks, i, sets).value;
    match ContextAt(ks, i)
    case PostfixOnly => TryParseTiles(w, p, [], [], sets.postfix, r);
    case PrefixOnly => TryParseTiles(w, p, sets.prefix, [], [], r);
    case Between => TryParseTiles(w, p, sets.prefix, sets.infix, sets.postfix, r);
  }
}

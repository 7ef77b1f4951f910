// SyntaxAnalyzer: checks an expression string stage by stage, splits it
// into keywords, gives every keyword its subtype, and produces the
// argument names and the formatted expression string. The analyzer keeps
// the errors of the current run in a list its checks append to.
module Analyzer {
  import opened Wrappers
  import opened Errors
  import opened Keywords
  import Text
  import PG = ParserGlobal
  import Lexer
  import OperatorSplit
  import opened OperatorContexts
  import opened Functions
  import opened Constants
  import opened Seqs
  import opened Preliminary
  import opened NameRules
  import opened SeparatorRule
  import opened AdjacencyRules

  // ---------------------------------------------------------------------
  // GetFormattedExpressionString and GetArgumentNames
  // ---------------------------------------------------------------------

  /** The space written after keyword i: after a separator, and on both sides of an infix operator. */
  function Gap(ks: seq<Keyword>, i: nat): string
    requires i + 1 < |ks|
  {
    if ks[i].kind == ArgumentSeparator || ks[i].subtype == Some(InfixOperator) || ks[i + 1].subtype == Some(InfixOperator)
    then [PG.Whitespace] else []
  }

  /** The first n words, each followed by its gap. */
  function FormattedUpTo(ks: seq<Keyword>, n: nat): string
    requires n < |ks|
  {
    if n == 0 then [] else FormattedUpTo(ks, n - 1) + ks[n - 1].word + Gap(ks, n - 1)
  }

  function Formatted(ks: seq<Keyword>): string
    requires |ks| > 0
  {
    FormattedUpTo(ks, |ks| - 1) + ks[|ks| - 1].word
  }

  /** The words of the first n keywords that are arguments, with repetitions. */
  function ArgumentWords(ks: seq<Keyword>, n: nat): (r: seq<string>)
    requires n <= |ks|
    ensures forall w :: w in r <==> exists i | 0 <= i < n :: ks[i].subtype == Some(Argument) && ks[i].word == w
  {
    if n == 0 then []
    else ArgumentWords(ks, n - 1) + (if ks[n - 1].subtype == Some(Argument) then [ks[n - 1].word] else [])
  }

  function ArgumentNames(ks: seq<Keyword>): seq<string>
  {
    Distinct(ArgumentWords(ks, |ks|))
  }

  lemma {:induction false} ConcatenationAppend(a: seq<Keyword>, k: Keyword)
    ensures OperatorSplit.Concatenation(a + [k]) == OperatorSplit.Concatenation(a) + k.word
  {
    if a != [] {
      assert (a + [k])[1..] == a[1..] + [k];
      ConcatenationAppend(a[1..], k);
    }
  }

  lemma {:induction false} FormattedUpToKeepsWords(ks: seq<Keyword>, n: nat)
    requires n < |ks|
    ensures OperatorSplit.NonSpace(FormattedUpTo(ks, n)) == OperatorSplit.NonSpace(OperatorSplit.Concatenation(ks[..n]))
  {
    if n > 0 {
      FormattedUpToKeepsWords(ks, n - 1);
      assert ks[..n] == ks[..n - 1] + [ks[n - 1]];
      ConcatenationAppend(ks[..n - 1], ks[n - 1]);
      WordThenSpace(FormattedUpTo(ks, n - 1), ks[n - 1].word, Gap(ks, n - 1), OperatorSplit.Concatenation(ks[..n - 1]));
    }
  }

  lemma WordThenSpace(f: string, w: string, g: string, c: string)
    requires OperatorSplit.NonSpace(f) == OperatorSplit.NonSpace(c)
    requires forall i | 0 <= i < |g| :: Text.IsWhiteSpace(g[i])
    ensures OperatorSplit.NonSpace(f + w + g) == OperatorSplit.NonSpace(c + w)
  {
    OperatorSplit.NonSpaceAppend(f + w, g);
    OperatorSplit.NonSpaceAppend(f, w);
    OperatorSplit.NonSpaceOfAllWhite(g);
    OperatorSplit.NonSpaceAppend(c, w);
  }

  /** Formatting changes only whitespace: without spaces it is the words written one after another. */
  lemma FormattedKeepsWords(ks: seq<Keyword>)
    requires |ks| > 0
    ensures OperatorSplit.NonSpace(Formatted(ks)) == OperatorSplit.NonSpace(OperatorSplit.Concatenation(ks))
  {
    var n := |ks| - 1;
    FormattedUpToKeepsWords(ks, n);
    OperatorSplit.NonSpaceAppend(FormattedUpTo(ks, n), ks[n].word);
    FrontAndLast(ks);
    ConcatenationAppend(ks[..n], ks[n]);
    OperatorSplit.NonSpaceAppend(OperatorSplit.Concatenation(ks[..n]), ks[n].word);
  }

  /** "a+b" is written "a + b" and "f(x,y)" is written "f(x, y)". */
  lemma FormattingExamples(a: Keyword, plus: Keyword, b: Keyword, f: Keyword, open: Keyword, comma: Keyword, close: Keyword)
    requires a.kind == Name && a.subtype == Some(Argument) && b.kind == Name && b.subtype == Some(Argument)
    requires plus.kind == Operator && plus.subtype == Some(InfixOperator)
    requires IsFunctionKeyword(f) && open.kind == LeftParenthesis && comma.kind == ArgumentSeparator && close.kind == RightParenthesis
    requires open.subtype.None? && comma.subtype.None? && close.subtype.None?
    ensures Formatted([a, plus, b]) == a.word + " " + plus.word + " " + b.word
    ensures Formatted([f, open, a, comma, b, close]) == f.word + open.word + a.word + comma.word + " " + b.word + close.word
  {
    var ks := [a, plus, b];
    assert FormattedUpTo(ks, 1) == a.word + " ";
    var ls := [f, open, a, comma, b, close];
    assert FormattedUpTo(ls, 1) == f.word;
    assert FormattedUpTo(ls, 2) == f.word + open.word;
    assert FormattedUpTo(ls, 3) == f.word + open.word + a.word;
    assert FormattedUpTo(ls, 4) == f.word + open.word + a.word + comma.word + " ";
  }

  /** The index of the first argument keyword before n whose word is w; n when there is none. */
  function FirstArgument(ks: seq<Keyword>, n: nat, w: string): (f: nat)
    requires n <= |ks|
    ensures f <= n
    ensures f < n ==> ks[f].subtype == Some(Argument) && ks[f].word == w
    ensures forall p | 0 <= p < f :: !(ks[p].subtype == Some(Argument) && ks[p].word == w)
  {
    if n == 0 then 0
    else
      var f := FirstArgument(ks, n - 1, w);
      if f < n - 1 || (ks[n - 1].subtype == Some(Argument) && ks[n - 1].word == w) then f else n
  }

  /** The names are in order of first occurrence among the argument keywords before n. */
  predicate FirstSeenInOrder(ks: seq<Keyword>, n: nat, names: seq<string>)
    requires n <= |ks|
  {
    forall i, j | 0 <= i < j < |names| :: FirstArgument(ks, n, names[i]) < FirstArgument(ks, n, names[j])
  }

  /** A word occurs as an argument before n exactly when its first argument keyword is before n. */
  lemma ArgumentWordsHaveAFirst(ks: seq<Keyword>, n: nat, w: string)
    requires n <= |ks|
    ensures w in ArgumentWords(ks, n) <==> FirstArgument(ks, n, w) < n
  {
    if w in ArgumentWords(ks, n) {
      var i :| 0 <= i < n && ks[i].subtype == Some(Argument) && ks[i].word == w;
    }
  }

  /** Names whose first argument keyword lies before n - 1 keep their order at n. */
  lemma EarlierArgumentsKeepOrder(ks: seq<Keyword>, n: nat, d: seq<string>)
    requires 0 < n <= |ks| && FirstSeenInOrder(ks, n - 1, d)
    requires forall i | 0 <= i < |d| :: d[i] in ArgumentWords(ks, n - 1)
    ensures FirstSeenInOrder(ks, n, d)
    ensures forall i | 0 <= i < |d| :: FirstArgument(ks, n, d[i]) < n - 1
  {
    forall i | 0 <= i < |d| ensures FirstArgument(ks, n, d[i]) == FirstArgument(ks, n - 1, d[i]) < n - 1 {
      ArgumentWordsHaveAFirst(ks, n - 1, d[i]);
    }
    forall i, j | 0 <= i < j < |d| ensures FirstArgument(ks, n, d[i]) < FirstArgument(ks, n, d[j]) {
      assert FirstArgument(ks, n - 1, d[i]) < FirstArgument(ks, n - 1, d[j]);
    }
  }

  /** A name first seen at n - 1 comes after all the names seen before it. */
  lemma NewArgumentComesLast(ks: seq<Keyword>, n: nat, d: seq<string>, w: string)
    requires 0 < n <= |ks| && FirstSeenInOrder(ks, n - 1, d)
    requires forall i | 0 <= i < |d| :: d[i] in ArgumentWords(ks, n - 1)
    requires ks[n - 1].subtype == Some(Argument) && ks[n - 1].word == w && w !in ArgumentWords(ks, n - 1)
    ensures FirstSeenInOrder(ks, n, d + [w])
  {
    var e := d + [w];
    EarlierArgumentsKeepOrder(ks, n, d);
    ArgumentWordsHaveAFirst(ks, n - 1, w);
    assert FirstArgument(ks, n, w) == n - 1;
    forall i, j | 0 <= i < j < |e| ensures FirstArgument(ks, n, e[i]) < FirstArgument(ks, n, e[j]) {
      assert e[i] == d[i];
      if j < |d| {
        assert e[j] == d[j];
      }
    }
  }

  /** The collected words grow by one word exactly at an argument keyword. */
  lemma ArgumentWordsStep(ks: seq<Keyword>, n: nat)
    requires 0 < n <= |ks|
    ensures ArgumentWords(ks, n) ==
      if ks[n - 1].subtype == Some(Argument) then ArgumentWords(ks, n - 1) + [ks[n - 1].word] else ArgumentWords(ks, n - 1)
  {
    assert ArgumentWords(ks, n - 1) + [] == ArgumentWords(ks, n - 1);
  }

  /** The argument names the loop has collected before n. */
  function NamesUpTo(ks: seq<Keyword>, n: nat): seq<string>
    requires n <= |ks|
  {
    Distinct(ArgumentWords(ks, n))
  }

  /** One keyword more adds its word to the names exactly when it is an argument not seen before. */
  lemma NamesUpToStep(ks: seq<Keyword>, n: nat)
    requires 0 < n <= |ks|
    ensures var k := ks[n - 1];
      NamesUpTo(ks, n) == if k.subtype == Some(Argument) && k.word !in ArgumentWords(ks, n - 1) then NamesUpTo(ks, n - 1) + [k.word] else NamesUpTo(ks, n - 1)
  {
    ArgumentWordsStep(ks, n);
    Seqs.DistinctStep(ArgumentWords(ks, n - 1), ks[n - 1].word);
  }

  /** One keyword more: the names seen stay in order, with a new argument word last. */
  lemma InOrderStep(ks: seq<Keyword>, n: nat)
    requires 0 < n <= |ks| && FirstSeenInOrder(ks, n - 1, NamesUpTo(ks, n - 1))
    ensures FirstSeenInOrder(ks, n, NamesUpTo(ks, n))
  {
    var d, k := NamesUpTo(ks, n - 1), ks[n - 1];
    assert forall i | 0 <= i < |d| :: d[i] in ArgumentWords(ks, n - 1);
    NamesUpToStep(ks, n);
    if k.subtype == Some(Argument) && k.word !in ArgumentWords(ks, n - 1) {
      NewArgumentComesLast(ks, n, d, k.word);
    } else {
      EarlierArgumentsKeepOrder(ks, n, d);
    }
  }

  lemma {:induction false} ArgumentWordsInOrder(ks: seq<Keyword>, n: nat)
    requires n <= |ks|
    ensures FirstSeenInOrder(ks, n, NamesUpTo(ks, n))
  {
    if n > 0 {
      ArgumentWordsInOrder(ks, n - 1);
      InOrderStep(ks, n);
    }
  }

  /**
   * The argument names come in the order in which they first occur as
   * argument keywords, which fixes each name's parameter position.
   */
  lemma ArgumentNamesInOrder(ks: seq<Keyword>)
    ensures FirstSeenInOrder(ks, |ks|, ArgumentNames(ks))
  {
    ArgumentWordsInOrder(ks, |ks|);
    assert NamesUpTo(ks, |ks|) == ArgumentNames(ks);
  }

  /** The argument names are distinct and are exactly the words of the argument keywords. */
  lemma ArgumentNamesAreTheArguments(ks: seq<Keyword>)
    ensures NoDuplicates(ArgumentNames(ks))
    ensures forall w :: w in ArgumentNames(ks) <==> exists i | 0 <= i < |ks| :: ks[i].subtype == Some(Argument) && ks[i].word == w
  {
    var ws := ArgumentWords(ks, |ks|);
    forall w ensures w in ArgumentNames(ks) <==> w in ws {
      if w in ws {
        var i :| 0 <= i < |ws| && ws[i] == w;
      }
    }
  }

  // ---------------------------------------------------------------------
  // Run, as a function of the input
  // ---------------------------------------------------------------------

  /** The out-parameters of Run and its result. */
  datatype Analysis = Analysis(ok: bool, keywords: seq<Keyword>, argumentNames: seq<string>, formatted: string, errors: seq<Error>)

  /** The keywords after SplitToKeywordArray and SpecifyNames. */
  function NamedKeywords(fs: seq<Function>, cs: seq<Constant>, s: string): (ks: seq<Keyword>)
    ensures CallsWellFormed(ks) && |ks| == |Lexer.Lex(s)|
  {
    var ks0 := Lexer.Lex(s);
    Lexer.LexProducesWords(s);
    SpecifiedNamesShape(fs, cs, ks0);
    SpecifiedNames(fs, cs, ks0)
  }

  /** The depth of a prefix depends only on the kinds of its keywords. */
  lemma {:induction false} SameKindsSameDepth(a: seq<Keyword>, b: seq<Keyword>, m: nat)
    requires |a| == |b| && m <= |a| && forall i | 0 <= i < |a| :: a[i].kind == b[i].kind
    ensures TokenDepth(a, m) == TokenDepth(b, m)
  {
    if m > 0 { SameKindsSameDepth(a, b, m - 1); }
  }

  /** The errors of the second stage: literals and names, functions, separators. */
  function KeywordErrors(fs: seq<Function>, cs: seq<Constant>, s: string): seq<Error>
  {
    var ks0 := Lexer.Lex(s);
    var ks1 := NamedKeywords(fs, cs, s);
    LiteralAndNameErrors(ks0, |ks0|) + FunctionErrors(fs, ks1, |ks1|) + SeparatorErrors(ks1, |ks1|)
  }

  /** The errors of the third stage: the two adjacency tables. */
  function AdjacencyErrors(ks: seq<Keyword>): seq<Error>
  {
    OperatorUsageErrors(ks, Pairs(ks)) + NestedErrors(ks, Pairs(ks))
  }

  /**
   * What Run returns for the text s: the errors of the first stage that
   * fails, with the keywords as far as they got, or the final keywords,
   * the argument names and the formatted string.
   */
  function Analyze(fs: seq<Function>, cs: seq<Constant>, sets: SymbolSets, s: string): (a: Analysis)
    requires ValidSets(sets)
    ensures a.ok <==> a.errors == []
  {
    if PreliminaryErrors(s) != [] then Analysis(false, [], [], [], PreliminaryErrors(s))
    else
      CheckedTextLexesBalanced(s);
      AnalyzeKeywords(NamedKeywords(fs, cs, s), KeywordErrors(fs, cs, s), sets)
  }

  /** From the second stage on: its errors, else the adjacency errors, else the last stage. */
  function AnalyzeKeywords(ks: seq<Keyword>, errors: seq<Error>, sets: SymbolSets): (a: Analysis)
    requires ValidSets(sets) && ks != []
    ensures a.ok <==> a.errors == []
  {
    if errors != [] then Analysis(false, ks, [], [], errors)
    else if AdjacencyErrors(ks) != [] then Analysis(false, ks, [], [], AdjacencyErrors(ks))
    else AnalyzeOperators(ks, sets)
  }

  /** The last stage: SpecifyOperators, then the argument names and the formatted string. */
  function AnalyzeOperators(ks: seq<Keyword>, sets: SymbolSets): (a: Analysis)
    requires ValidSets(sets) && ks != []
    ensures a.ok <==> a.errors == []
  {
    var sp := SpecifyOperators(ks, sets);
    if sp.errors != [] then Analysis(false, sp.keywords, [], [], sp.errors)
    else Analysis(true, sp.keywords, ArgumentNames(sp.keywords), Formatted(sp.keywords), [])
  }

  /** Once the first stage passes, Run's result is decided by the keyword stages. */
  lemma AnalyzeInStages(fs: seq<Function>, cs: seq<Constant>, sets: SymbolSets, s: string)
    requires ValidSets(sets) && PreliminaryErrors(s) == []
    ensures NamedKeywords(fs, cs, s) != []
    ensures Analyze(fs, cs, sets, s) == AnalyzeKeywords(NamedKeywords(fs, cs, s), KeywordErrors(fs, cs, s), sets)
  {
    CheckedTextLexesBalanced(s);
  }

  // ---------------------------------------------------------------------
  // The analyzer
  // ---------------------------------------------------------------------

  /** Proof step only: regroups appended error lists; nothing in the analyser corresponds to it. */
  lemma Associate(a: seq<Error>, b: seq<Error>, c: seq<Error>, d: seq<Error>)
    ensures a + b + c + d == a + (b + c + d)
  {
  }


  /**
   * One iteration of ValidateArgumentSeparators: ')' closes a depth, '('
   * opens one that is not a call's, a function keyword opens its call's
   * depth and skips its '(', and a separator at a depth that is not a
   * call's is reported.
   */
  /** The loop of ValidateCharacters: one error per invalid character, in order. */
  method CharacterScan(s: string) returns (errors: seq<Error>)
    ensures errors == CharacterErrors(s, |s|)
  {
    errors := [];
    var i := 0;
    while i < |s|
      invariant 0 <= i <= |s| && errors == CharacterErrors(s, i)
    {
      CharacterErrorsStep(s, i);
      if !PG.ValidateCharacter(s[i]) {
        errors := errors + [InvalidCharacter(i)];
      }
      i := i + 1;
    }
  }

  method SeparatorStep(ks: seq<Keyword>, i: nat, depth: int, calls: map<int, bool>)
    returns (next: nat, nextDepth: int, nextCalls: map<int, bool>, report: seq<Error>)
    requires CallsWellFormed(ks) && forall m | 0 <= m <= |ks| :: TokenDepth(ks, m) >= 0
    requires ScanState(ks, i, depth, calls) && i < |ks|
    ensures i < next && ScanState(ks, next, nextDepth, nextCalls)
    ensures SeparatorErrors(ks, next) == SeparatorErrors(ks, i) + report
  {
    var k := ks[i];
    report := [];
    if k.kind == RightParenthesis {
      assert TokenDepth(ks, i + 1) >= 0;
      ScanClose(ks, i, depth, calls);
      next, nextDepth, nextCalls := i + 1, depth - 1, calls[depth := false];
    } else if k.kind == LeftParenthesis {
      ScanOpen(ks, i, depth, calls);
      next, nextDepth, nextCalls := i + 1, depth + 1, calls[depth + 1 := false];
    } else if k.kind == Name && k.subtype == Some(Function) {
      assert i + 2 < |ks| && ks[i + 1].kind == LeftParenthesis;
      ScanCall(ks, i, depth, calls);
      next, nextDepth, nextCalls := i + 2, depth + 1, calls[depth + 1 := true];
    } else {
      ScanOther(ks, i, depth, calls);
      if k.kind == ArgumentSeparator && calls[depth] == false {
        report := [UnexpectedArgumentSeparatorUsage(k.originalPosition)];
      }
      next, nextDepth, nextCalls := i + 1, depth, calls;
    }
  }

  class SyntaxAnalyzer {
    const usedConstants: seq<Constant>
    const usedFunctions: seq<Function>
    const sets: SymbolSets
    var accumulated: seq<Error>

    /** The analyzer keeps its own copies of the five lists. */
    constructor (usedConstants: seq<Constant>, usedFunctions: seq<Function>,
                 prefixSymbols: seq<string>, infixSymbols: seq<string>, postfixSymbols: seq<string>)
      ensures this.usedConstants == usedConstants && this.usedFunctions == usedFunctions
      ensures sets == SymbolSets(prefixSymbols, infixSymbols, postfixSymbols)
      ensures accumulated == []
    {
      this.usedConstants := usedConstants;
      this.usedFunctions := usedFunctions;
      sets := SymbolSets(prefixSymbols, infixSymbols, postfixSymbols);
      accumulated := [];
    }

    /** Run: the stages in order, stopping after the first that reports an error. */
    method Run(s: string) returns (ok: bool, keywords: seq<Keyword>, argumentNames: seq<string>, formatted: string, exceptions: seq<Error>)
      requires ValidSets(sets)
      modifies this
      ensures Analysis(ok, keywords, argumentNames, formatted, exceptions) == Analyze(usedFunctions, usedConstants, sets, s)
      ensures accumulated == exceptions
    {
      accumulated := [];
      argumentNames, formatted, exceptions, keywords := [], [], [], [];

      var passed := PreliminaryCheck(s);
      if !passed {
        return false, keywords, argumentNames, formatted, accumulated;
      }

      AnalyzeInStages(usedFunctions, usedConstants, sets, s);
      keywords := SplitAndSpecifyNames(s);
      ok, keywords, argumentNames, formatted, exceptions := RunKeywordStages(keywords);
    }

    /** Run from the second stage's keywords on: its errors, else the adjacency checks, else the last stage. */
    method RunKeywordStages(ks: seq<Keyword>) returns (ok: bool, keywords: seq<Keyword>, argumentNames: seq<string>, formatted: string, exceptions: seq<Error>)
      requires ValidSets(sets) && ks != []
      modifies this
      ensures Analysis(ok, keywords, argumentNames, formatted, exceptions) == AnalyzeKeywords(ks, old(accumulated), sets)
      ensures accumulated == exceptions
    {
      keywords, argumentNames, formatted := ks, [], [];
      if accumulated != [] {
        return false, keywords, argumentNames, formatted, accumulated;
      }

      ValidateAdjacency(keywords);
      if accumulated != [] {
        return false, keywords, argumentNames, formatted, accumulated;
      }

      ok, keywords, argumentNames, formatted, exceptions := RunOperatorStage(keywords);
    }

    /** The last stage of Run: SpecifyOperators, then the argument names and the formatted string. */
    method RunOperatorStage(ks: seq<Keyword>) returns (ok: bool, keywords: seq<Keyword>, argumentNames: seq<string>, formatted: string, exceptions: seq<Error>)
      requires ValidSets(sets) && ks != [] && accumulated == []
      modifies this
      ensures Analysis(ok, keywords, argumentNames, formatted, exceptions) == AnalyzeOperators(ks, sets)
      ensures accumulated == exceptions
    {
      var passed;
      argumentNames, formatted := [], [];
      passed, keywords := SpecifyOperators(ks);
      if !passed {
        return false, keywords, argumentNames, formatted, accumulated;
      }

      argumentNames := GetArgumentNames(keywords);
      formatted := GetFormattedExpressionString(keywords);
      ok, exceptions := true, [];
    }

    /**
     * The second stage of Run: SplitToKeywordArray, ValidateLiteralsAndNames,
     * SpecifyNames (in place, on the keyword array), ValidateFunctions and
     * ValidateArgumentSeparators.
     */
    method SplitAndSpecifyNames(s: string) returns (keywords: seq<Keyword>)
      requires PreliminaryErrors(s) == []
      modifies this
      ensures keywords == NamedKeywords(usedFunctions, usedConstants, s)
      ensures accumulated == old(accumulated) + KeywordErrors(usedFunctions, usedConstants, s)
    {
      keywords := Lexer.SplitToKeywordArray(s);
      ghost var ks0 := keywords;
      ghost var e1 := LiteralAndNameErrors(ks0, |ks0|);
      CheckedTextLexesBalanced(s);
      var _ := ValidateLiteralsAndNames(keywords);
      var named := new Keyword[|keywords|](i requires 0 <= i < |keywords| => keywords[i]);
      assert named[..] == keywords;
      SpecifyNames(named);
      keywords := named[..];
      assert keywords == NamedKeywords(usedFunctions, usedConstants, s);
      forall m | 0 <= m <= |keywords| ensures TokenDepth(keywords, m) >= 0 {
        SameKindsSameDepth(keywords, ks0, m);
      }
      ghost var e2 := FunctionErrors(usedFunctions, keywords, |keywords|);
      ghost var e3 := SeparatorErrors(keywords, |keywords|);
      var _ := ValidateFunctions(keywords);
      var _ := ValidateArgumentSeparators(keywords);
      Associate(old(accumulated), e1, e2, e3);
    }

    /** The third stage of Run: ValidateOperatorsUsage, then ValidateNestedExpressionsUsage. */
    method ValidateAdjacency(ks: seq<Keyword>)
      modifies this
      ensures accumulated == old(accumulated) + AdjacencyErrors(ks)
    {
      var _ := ValidateOperatorsUsage(ks);
      var _ := ValidateNestedExpressionsUsage(ks);
    }

    /** PreliminaryCheck: whitespace, characters, parentheses, then the presence of a literal or a name. */
    method PreliminaryCheck(s: string) returns (ok: bool)
      modifies this
      ensures ok <==> PreliminaryErrors(s) == []
      ensures accumulated == old(accumulated) + PreliminaryErrors(s)
    {
      if Text.IsNullOrWhiteSpace(s) {
        accumulated := accumulated + [ExpressionStringIsNullOrWhitespace];
        return false;
      }
      ok := ValidateCharacters(s);
      if !ok {
        return;
      }
      ok := ValidateParenthesis(s);
      if !ok {
        return;
      }
      if !HasLiteralOrNamingCharacter(s) {
        accumulated := accumulated + [ExpressionStringMustContainLiteralsOrNames];
        return false;
      }
    }

    method ValidateCharacters(s: string) returns (valid: bool)
      modifies this
      ensures valid <==> CharacterErrors(s, |s|) == []
      ensures accumulated == old(accumulated) + CharacterErrors(s, |s|)
    {
      var errors := CharacterScan(s);
      accumulated := accumulated + errors;
      valid := errors == [];
    }

    /** The depth scan stops at the first ')' that has no '(' to close. */
    method ValidateParenthesis(s: string) returns (ok: bool)
      modifies this
      ensures ok == ParenthesesBalanced(s)
      ensures accumulated == old(accumulated) + (if ok then [] else [InvalidParenthesis])
    {
      var depth := 0;
      var i := 0;
      while i < |s|
        invariant 0 <= i <= |s|
        invariant depth == Lexer.CharDepth(s, i)
        invariant forall m | 0 <= m <= i :: Lexer.CharDepth(s, m) >= 0
      {
        if s[i] == PG.LeftParenthesis {
          depth := depth + 1;
        } else if s[i] == PG.RightParenthesis {
          depth := depth - 1;
          if depth < 0 {
            assert Lexer.CharDepth(s, i + 1) < 0;
            break;
          }
        }
        i := i + 1;
      }
      if depth != 0 {
        accumulated := accumulated + [InvalidParenthesis];
      }
      ok := depth == 0;
    }

    method ValidateLiteralsAndNames(ks: seq<Keyword>) returns (valid: bool)
      modifies this
      ensures valid <==> LiteralAndNameErrors(ks, |ks|) == []
      ensures accumulated == old(accumulated) + LiteralAndNameErrors(ks, |ks|)
    {
      valid := true;
      for i := 0 to |ks|
        invariant valid <==> LiteralAndNameErrors(ks, i) == []
        invariant accumulated == old(accumulated) + LiteralAndNameErrors(ks, i)
      {
        LiteralAndNameStep(ks, i);
        var k := ks[i];
        if k.kind == Literal && !PG.ValidateLiteral(k.word, None) {
          AppendAssociative(old(accumulated), LiteralAndNameErrors(ks, i), [InvalidLiteral(k.word, k.originalPosition)]);
          accumulated := accumulated + [InvalidLiteral(k.word, k.originalPosition)];
          valid := false;
        } else if k.kind == Name && !PG.ValidateName(k.word) {
          AppendAssociative(old(accumulated), LiteralAndNameErrors(ks, i), [InvalidName(k.word, k.originalPosition)]);
          accumulated := accumulated + [InvalidName(k.word, k.originalPosition)];
          valid := false;
        }
      }
    }

    /**
     * SpecifyNames, in place: a name's class depends only on the kinds and
     * words from its own index on, which the loop has not changed yet.
     */
    method SpecifyNames(a: array<Keyword>)
      modifies a
      ensures a[..] == SpecifiedNames(usedFunctions, usedConstants, old(a[..]))
    {
      ghost var ks := a[..];
      ghost var r := SpecifiedNames(usedFunctions, usedConstants, ks);
      for i := 0 to a.Length
        invariant forall j | 0 <= j < i :: a[j] == r[j]
        invariant forall j | i <= j < a.Length :: a[j] == ks[j]
      {
        SpecifyNameAt(a, i, ks);
      }
      assert a[..] == r;
    }

    /** One iteration of SpecifyNames: the keyword at index i gets its subtype, read from the keywords not yet changed. */
    method SpecifyNameAt(a: array<Keyword>, i: nat, ghost ks: seq<Keyword>)
      requires i < a.Length == |ks| && forall j | i <= j < a.Length :: a[j] == ks[j]
      modifies a
      ensures a[..] == old(a[..])[i := SpecifiedNames(usedFunctions, usedConstants, ks)[i]]
    {
      if a[i].kind == Name {
        assert a[..][i..] == ks[i..];
        assert a[..][i + 1..] == ks[i + 1..];
        var isFunction := IsFunctionAtIndex(a[..], i);
        assert isFunction == IsFunctionAt(usedFunctions, ks, i) by {
          if i + 2 < a.Length {
            assert a[..][i + 2..] == ks[i + 2..];
          }
        }
        if isFunction {
          a[i] := a[i].(subtype := Some(Function));
        } else if HasConstantNamed(usedConstants, a[i].word) {
          a[i] := a[i].(subtype := Some(Constant));
        } else {
          a[i] := a[i].(subtype := Some(Argument));
        }
      }
    }

    method IsFunctionAtIndex(ks: seq<Keyword>, i: nat) returns (b: bool)
      requires i < |ks|
      ensures b == IsFunctionAt(usedFunctions, ks, i)
    {
      if ks[i].kind != Name {
        return false;
      }
      if |ks| <= i + 2 || ks[i + 1].kind != LeftParenthesis {
        return false;
      }
      if HasFunctionNamed(usedFunctions, ks[i].word) {
        return true;
      }
      var arity := GetFunctionCallingArity(ks, i);
      b := arity != 1;
    }

    method ValidateFunctions(ks: seq<Keyword>) returns (valid: bool)
      requires CallsWellFormed(ks)
      modifies this
      ensures valid <==> FunctionErrors(usedFunctions, ks, |ks|) == []
      ensures accumulated == old(accumulated) + FunctionErrors(usedFunctions, ks, |ks|)
    {
      valid := true;
      for i := 0 to |ks|
        invariant valid <==> FunctionErrors(usedFunctions, ks, i) == []
        invariant accumulated == old(accumulated) + FunctionErrors(usedFunctions, ks, i)
      {
        ghost var e := FunctionError(usedFunctions, ks, i);
        assert FunctionErrors(usedFunctions, ks, i + 1) == FunctionErrors(usedFunctions, ks, i) + e;
        if ks[i].subtype == Some(Function) {
          if !HasFunctionNamed(usedFunctions, ks[i].word) {
            assert e == [UndefinedFunction(ks[i].word, ks[i].originalPosition)];
            valid := false;
            accumulated := accumulated + [UndefinedFunction(ks[i].word, ks[i].originalPosition)];
          } else {
            var arity := GetFunctionCallingArity(ks, i);
            if !HasOverload(usedFunctions, ks[i].word, arity) {
              assert e == [InvalidFunctionCalling(ks[i].word, ks[i].originalPosition, arity)];
              valid := false;
              accumulated := accumulated + [InvalidFunctionCalling(ks[i].word, ks[i].originalPosition, arity)];
            } else {
              assert e == [];
            }
          }
        } else {
          assert e == [];
        }
      }
    }

    /** The separator-counting scan of a call's argument list, which stops where the call's ')' closes it. */
    static method GetFunctionCallingArity(ks: seq<Keyword>, p: nat) returns (r: nat)
      requires p + 2 < |ks|
      ensures r == CallArity(ks, p)
    {
      if ks[p + 2].kind == RightParenthesis {
        return 0;
      }
      ghost var u := ks[p + 2..];
      var depth := 0;
      var count := 0;
      var i := p + 2;
      while i < |ks| && depth >= 0
        invariant p + 2 <= i <= |ks|
        invariant forall l | 0 <= l < i - (p + 2) :: TokenDepth(u, l) >= 0
        invariant depth == TokenDepth(u, i - (p + 2))
        invariant count == TopSeparators(u, i - (p + 2))
        invariant ScanEnd(u, i - (p + 2)) == ScanEnd(u, 0)
      {
        assert u[i - (p + 2)] == ks[i];
        if ks[i].kind == LeftParenthesis {
          depth := depth + 1;
        } else if ks[i].kind == RightParenthesis {
          depth := depth - 1;
        } else if ks[i].kind == ArgumentSeparator && depth == 0 {
          count := count + 1;
        }
        i := i + 1;
      }
      r := count + 1;
    }

    /**
     * ValidateArgumentSeparators: the map records, for every depth up to the
     * current one, whether the parenthesis that opened it belongs to a call.
     * A function keyword opens its call's depth itself and skips its '('.
     */
    method ValidateArgumentSeparators(ks: seq<Keyword>) returns (valid: bool)
      requires CallsWellFormed(ks)
      requires forall m | 0 <= m <= |ks| :: TokenDepth(ks, m) >= 0
      modifies this
      ensures valid <==> SeparatorErrors(ks, |ks|) == []
      ensures accumulated == old(accumulated) + SeparatorErrors(ks, |ks|)
    {
      valid := true;
      var depth := 0;
      var isFunctionCalling: map<int, bool> := map[0 := false];
      var i := 0;
      ghost var reported := [];
      ScanStart(ks);
      while i < |ks|
        invariant ScanState(ks, i, depth, isFunctionCalling)
        invariant reported == SeparatorErrors(ks, i)
        invariant valid <==> reported == []
        invariant accumulated == old(accumulated) + reported
        decreases |ks| - i
      {
        var report;
        i, depth, isFunctionCalling, report := SeparatorStep(ks, i, depth, isFunctionCalling);
        if report != [] {
          valid := false;
          accumulated := accumulated + report;
        }
        reported := reported + report;
      }
    }

    method ValidateOperatorsUsage(ks: seq<Keyword>) returns (valid: bool)
      modifies this
      ensures valid <==> OperatorUsageErrors(ks, Pairs(ks)) == []
      ensures accumulated == old(accumulated) + OperatorUsageErrors(ks, Pairs(ks))
    {
      valid := true;
      for i := 0 to Pairs(ks)
        invariant valid <==> OperatorUsageErrors(ks, i) == []
        invariant accumulated == old(accumulated) + OperatorUsageErrors(ks, i)
      {
        var unexpectedOperator := ks[i].kind == Operator && i > 0 && IsOpening(ks[i - 1].kind) && IsClosing(ks[i + 1].kind);
        var operatorIsRequired := OperatorRequiredAt(ks, i);
        if unexpectedOperator {
          valid := false;
          accumulated := accumulated + [UnexpectedOperatorUsage(ks[i].word, ks[i].originalPosition)];
        }
        if operatorIsRequired {
          valid := false;
          accumulated := accumulated + [InfixOperatorIsRequired(ks[i].word, ks[i].originalPosition, ks[i + 1].word, ks[i + 1].originalPosition)];
        }
      }
    }

    /** ValidateNestedExpressionsUsage, with "()" checked at the start too. */
    method ValidateNestedExpressionsUsage(ks: seq<Keyword>) returns (valid: bool)
      modifies this
      ensures valid <==> forall i | 0 <= i < Pairs(ks) :: !NestedRequired(ks, i)
      ensures accumulated == old(accumulated) + NestedErrors(ks, Pairs(ks))
    {
      valid := true;
      for i := 0 to Pairs(ks)
        invariant valid <==> NestedErrors(ks, i) == []
        invariant accumulated == old(accumulated) + NestedErrors(ks, i)
      {
        if NestedRequired(ks, i) {
          valid := false;
          accumulated := accumulated + [NestedError(ks, i)];
        }
      }
    }

    /** SpecifyOperators: each operator run is replaced by its split, or kept and reported. */
    method SpecifyOperators(ks: seq<Keyword>) returns (valid: bool, r: seq<Keyword>)
      requires ValidSets(sets)
      modifies this
      ensures valid <==> OperatorContexts.SpecifyOperators(ks, sets).errors == []
      ensures r == OperatorContexts.SpecifyOperators(ks, sets).keywords
      ensures accumulated == old(accumulated) + OperatorContexts.SpecifyOperators(ks, sets).errors
    {
      ghost var rs := Splits(ks, sets);
      SplitsAreFromSets(ks, sets);
      valid := true;
      r := [];
      for i := 0 to |ks|
        invariant valid <==> SpecifyUpTo(ks, rs, i).errors == []
        invariant r == SpecifyUpTo(ks, rs, i).keywords
        invariant accumulated == old(accumulated) + SpecifyUpTo(ks, rs, i).errors
      {
        var ok, split := SplitAt(ks, i, sets);
        SpecifyStep(ks, sets, i, ok, split);
        if ok {
          r := r + split;
        } else {
          valid := false;
          accumulated := accumulated + [OperatorCanNotBeParsed(ks[i].word, ks[i].originalPosition)];
          r := r + [ks[i]];
        }
      }
    }

    static method GetFormattedExpressionString(ks: seq<Keyword>) returns (s: string)
      requires |ks| > 0
      ensures s == Formatted(ks)
    {
      s := [];
      for i := 0 to |ks| - 1
        invariant s == FormattedUpTo(ks, i)
      {
        s := s + ks[i].word;
        if ks[i].kind == ArgumentSeparator {
          s := s + [PG.Whitespace];
        } else if ks[i].subtype == Some(InfixOperator) {
          s := s + [PG.Whitespace];
        } else if ks[i + 1].subtype == Some(InfixOperator) {
          s := s + [PG.Whitespace];
        }
      }
      s := s + ks[|ks| - 1].word;
    }

    static method GetArgumentNames(ks: seq<Keyword>) returns (names: seq<string>)
      ensures names == ArgumentNames(ks)
    {
      var words := [];
      for i := 0 to |ks|
        invariant words == ArgumentWords(ks, i)
      {
        if ks[i].subtype == Some(Argument) {
          words := words + [ks[i].word];
        }
      }
      names := Distinct(words);
    }
  }
}

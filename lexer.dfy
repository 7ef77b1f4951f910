// The lexer of the syntax analyzer: one pass over the characters that
// carries the type of the previous character and a word being built, and
// emits a keyword whenever the type changes (or after every parenthesis and
// separator). Whitespace ends a word, except right after operator
// characters, where it becomes part of the operator run.
module Lexer {
  import opened Wrappers
  import opened Keywords
  import PG = ParserGlobal
  import Seqs

  /** GetTypeByCharacter, with the type of the previous character. */
  function TypeOfCharacter(c: char, prev: Option<KeywordType>): Option<KeywordType>
  {
    if c == PG.Whitespace then (if prev == Some(Operator) then Some(Operator) else None)
    else if c == PG.LeftParenthesis then Some(LeftParenthesis)
    else if c == PG.RightParenthesis then Some(RightParenthesis)
    else if c == PG.ArgumentSeparator then Some(ArgumentSeparator)
    else if prev == Some(Name) && PG.IsNamingCharacter(c) then Some(Name)
    else if PG.IsLiteralCharacter(c) then Some(Literal)
    else if PG.IsNamingCharacter(c) then Some(Name)
    else if PG.IsOperatorCharacter(c) then Some(Operator)
    else None
  }

  /**
   * The type of a character: parentheses and the separator are recognised
   * alone; a name continues over letters, digits and '_' but does not start
   * with a digit; a literal is digits and '.'; an operator run takes operator
   * characters and the spaces after them; any other character, or a space
   * outside an operator run, has no type.
   */
  lemma TypeOfCharacterFacts(c: char, prev: Option<KeywordType>)
    ensures var t := TypeOfCharacter(c, prev);
      (t == Some(LeftParenthesis) <==> c == '(')
      && (t == Some(RightParenthesis) <==> c == ')')
      && (t == Some(ArgumentSeparator) <==> c == ',')
      && (t == Some(Name) ==> PG.IsNamingCharacter(c) && (prev != Some(Name) ==> !PG.IsDigit(c)))
      && (t == Some(Literal) ==> PG.IsLiteralCharacter(c))
      && (t == Some(Operator) ==> PG.IsOperatorCharacter(c) || (c == ' ' && prev == Some(Operator)))
      && (c == ' ' ==> (t.Some? <==> prev == Some(Operator)))
      && (t.None? <==> (c == ' ' && prev != Some(Operator)) || !PG.ValidateCharacter(c))
  {
  }

  predicate MustStartNewWord(prev: Option<KeywordType>, next: Option<KeywordType>)
  {
    if next.None? then false
    else if prev.None? then true
    else if prev != next then true
    else IsSingleCharacterType(prev.value)
  }

  predicate MustFinalizeWord(prev: Option<KeywordType>, next: Option<KeywordType>)
  {
    if prev.None? then false
    else if next.None? then true
    else if prev != next then true
    else IsSingleCharacterType(prev.value)
  }

  predicate MustContinueWord(prev: Option<KeywordType>, next: Option<KeywordType>)
  {
    if prev.None? then false
    else if next.None? then false
    else if prev != next then false
    else !IsSingleCharacterType(prev.value)
  }

  /** The three decisions partition the cases: a character continues, or finalizes and/or starts. */
  lemma WordDecisions(prev: Option<KeywordType>, next: Option<KeywordType>)
    ensures MustContinueWord(prev, next) ==> !MustFinalizeWord(prev, next) && !MustStartNewWord(prev, next)
    ensures !MustContinueWord(prev, next) ==> (MustFinalizeWord(prev, next) <==> prev.Some?)
    ensures !MustContinueWord(prev, next) ==> (MustStartNewWord(prev, next) <==> next.Some?)
  {
  }

  /** The loop variables of SplitToKeywordArray: the list, the word's start, prevType and the StringBuilder. */
  datatype LexState = LexState(result: seq<Keyword>, start: int, prev: Option<KeywordType>, word: string)

  /** One iteration of the loop, for character s[i]. */
  function Step(st: LexState, c: char, i: int): LexState
  {
    var next := TypeOfCharacter(c, st.prev);
    if MustContinueWord(st.prev, next) then st.(word := st.word + [c])
    else
      var r := if MustFinalizeWord(st.prev, next) then st.result + [Keyword(st.word, st.start, st.prev.value, None)] else st.result;
      if MustStartNewWord(st.prev, next) then LexState(r, i, next, [c])
      else LexState(r, st.start, next, st.word)
  }

  /** The state after the first n iterations. */
  function LexUpTo(s: string, n: nat): LexState
    requires n <= |s|
  {
    if n == 0 then LexState([], 0, None, "") else Step(LexUpTo(s, n - 1), s[n - 1], n - 1)
  }

  /** The final MustFinalizeWord(prevType, null) after the loop. */
  function Finish(st: LexState): seq<Keyword>
  {
    if MustFinalizeWord(st.prev, None) then st.result + [Keyword(st.word, st.start, st.prev.value, None)] else st.result
  }

  function Lex(s: string): seq<Keyword>
  {
    Finish(LexUpTo(s, |s|))
  }

  /** SplitToKeywordArray. */
  method SplitToKeywordArray(s: string) returns (ks: seq<Keyword>)
    ensures ks == Lex(s)
  {
    var result: seq<Keyword> := [];
    var curKeywordStartPosition := 0;
    var prevType: Option<KeywordType> := None;
    var builder: string := "";
    var i := 0;
    while i < |s|
      invariant 0 <= i <= |s|
      invariant LexState(result, curKeywordStartPosition, prevType, builder) == LexUpTo(s, i)
    {
      var nextType := TypeOfCharacter(s[i], prevType);
      assert LexUpTo(s, i + 1) == Step(LexUpTo(s, i), s[i], i);
      if MustContinueWord(prevType, nextType) {
        builder := builder + [s[i]];
        i := i + 1;
        continue;
      }
      if MustFinalizeWord(prevType, nextType) {
        result := result + [Keyword(builder, curKeywordStartPosition, prevType.value, None)];
      }
      if MustStartNewWord(prevType, nextType) {
        builder := [s[i]];
        curKeywordStartPosition := i;
      }
      prevType := nextType;
      i := i + 1;
    }
    if MustFinalizeWord(prevType, None) {
      result := result + [Keyword(builder, curKeywordStartPosition, prevType.value, None)];
    }
    ks := result;
  }

  // ---------------------------------------------------------------------
  // What the emitted keywords look like
  // ---------------------------------------------------------------------

  /** The characters a word of each type consists of. */
  predicate WordFitsType(t: KeywordType, w: string)
  {
    |w| > 0 &&
    match t
    case LeftParenthesis => w == "("
    case RightParenthesis => w == ")"
    case ArgumentSeparator => w == ","
    case Name => !PG.IsDigit(w[0]) && forall k | 0 <= k < |w| :: PG.IsNamingCharacter(w[k])
    case Literal => forall k | 0 <= k < |w| :: PG.IsLiteralCharacter(w[k])
    case Operator => PG.IsOperatorCharacter(w[0]) && forall k | 0 <= k < |w| :: PG.IsOperatorCharacter(w[k]) || w[k] == ' '
  }

  function End(k: Keyword): int { k.originalPosition + |k.word| }

  /** A keyword is the substring of s at its position, and its word fits its type. */
  predicate IsWordOf(s: string, k: Keyword)
  {
    0 <= k.originalPosition && End(k) <= |s| && s[k.originalPosition..End(k)] == k.word
    && WordFitsType(k.kind, k.word) && k.subtype.None?
  }

  /** Consecutive keywords do not overlap, and two words of one multi-character type are separated by a gap. */
  predicate Ordered(ks: seq<Keyword>)
  {
    forall i, j | 0 <= i < j < |ks| :: Follows(ks[i], ks[j], j == i + 1)
  }

  /** k2 starts after k1 ends; when they are neighbours of one multi-character type, not right after. */
  predicate Follows(k1: Keyword, k2: Keyword, adjacent: bool)
  {
    End(k1) <= k2.originalPosition
    && (adjacent && k1.kind == k2.kind && !IsSingleCharacterType(k1.kind) ==> End(k1) < k2.originalPosition)
  }

  /** The parenthesis depth after the first n characters of a string. */
  function CharDepth(s: string, n: nat): int
    requires n <= |s|
  {
    if n == 0 then 0 else CharDepth(s, n - 1) + (if s[n - 1] == '(' then 1 else if s[n - 1] == ')' then -1 else 0)
  }

  /** Every prefix of the keywords has the depth of the characters up to its last word. */
  predicate DepthsAgree(s: string, ks: seq<Keyword>)
  {
    forall m | 0 <= m < |ks| :: 0 <= End(ks[m]) <= |s| && TokenDepth(ks, m + 1) == CharDepth(s, End(ks[m]))
  }

  function PendingDelta(st: LexState): int
  {
    if st.prev == Some(LeftParenthesis) then 1 else if st.prev == Some(RightParenthesis) then -1 else 0
  }

  /** The keywords emitted before position n. */
  predicate Emitted(s: string, n: nat, r: seq<Keyword>)
  {
    (forall j | 0 <= j < |r| :: IsWordOf(s, r[j]) && End(r[j]) <= n) && Ordered(r) && DepthsAgree(s, r)
  }

  /** The word being built is s[start..n] and fits the previous type. */
  predicate Building(s: string, n: nat, st: LexState)
  {
    st.prev.Some? ==>
      0 <= st.start && st.start + |st.word| == n <= |s| && s[st.start..n] == st.word
      && WordFitsType(st.prev.value, st.word)
  }

  /** The last emitted keyword ends before the word being built, with a gap when their types would merge. */
  predicate Boundary(st: LexState, n: nat)
  {
    st.result != [] ==>
      var last := st.result[|st.result| - 1];
      if st.prev.Some? then
        End(last) <= st.start && (last.kind == st.prev.value && !IsSingleCharacterType(last.kind) ==> End(last) < st.start)
      else End(last) < n
  }

  /** What holds of the loop state after n iterations. */
  predicate Inv(s: string, n: nat, st: LexState)
    requires n <= |s|
  {
    Emitted(s, n, st.result) && Building(s, n, st) && Boundary(st, n)
    && TokenDepth(st.result, |st.result|) + PendingDelta(st) == CharDepth(s, n)
  }

  lemma TokenDepthOfAppended(ks: seq<Keyword>, k: Keyword, m: nat)
    requires m <= |ks|
    ensures TokenDepth(ks + [k], m) == TokenDepth(ks, m)
  {
    if m > 0 {
      assert (ks + [k])[m - 1] == ks[m - 1];
      TokenDepthOfAppended(ks, k, m - 1);
    }
  }

  lemma PushOrdered(r: seq<Keyword>, k: Keyword)
    requires Ordered(r)
    requires forall i | 0 <= i < |r| :: End(r[i]) <= k.originalPosition
    requires r != [] ==> Follows(r[|r| - 1], k, true)
    ensures Ordered(r + [k])
  {
    var r2 := r + [k];
    forall i, j | 0 <= i < j < |r2| ensures Follows(r2[i], r2[j], j == i + 1) {
      if j < |r| {
        assert r2[i] == r[i] && r2[j] == r[j];
      } else if j == i + 1 {
        assert r2[i] == r[|r| - 1] && r2[j] == k;
      } else {
        assert r2[i] == r[i] && r2[j] == k;
      }
    }
  }

  lemma PushDepths(s: string, n: nat, r: seq<Keyword>, k: Keyword)
    requires n <= |s| && DepthsAgree(s, r) && End(k) == n
    requires TokenDepth(r, |r|) + ParenthesisDelta(k) == CharDepth(s, n)
    ensures DepthsAgree(s, r + [k])
    ensures TokenDepth(r + [k], |r| + 1) == CharDepth(s, n)
  {
    var r2 := r + [k];
    TokenDepthOfAppended(r, k, |r|);
    assert r2[|r|] == k;
    forall m | 0 <= m < |r2| ensures 0 <= End(r2[m]) <= |s| && TokenDepth(r2, m + 1) == CharDepth(s, End(r2[m])) {
      if m < |r| {
        TokenDepthOfAppended(r, k, m + 1);
        assert r2[m] == r[m];
      }
    }
  }

  /** Every emitted keyword ends by the start of the last one's end. */
  lemma EndsBeforeLast(r: seq<Keyword>, b: int)
    requires Ordered(r) && r != [] && End(r[|r| - 1]) <= b
    ensures forall i | 0 <= i < |r| :: End(r[i]) <= b
  {
    forall i | 0 <= i < |r| ensures End(r[i]) <= b {
      if i < |r| - 1 {
        assert Follows(r[i], r[|r| - 1], i + 1 == |r| - 1);
      }
    }
  }

  /** Emitting the finished word keeps the emitted list well formed and settles the pending depth. */
  lemma PushKeepsEmitted(s: string, n: nat, st: LexState)
    requires n <= |s| && Inv(s, n, st) && st.prev.Some?
    ensures var k := Keyword(st.word, st.start, st.prev.value, None);
      Emitted(s, n, st.result + [k]) && End(k) == n && TokenDepth(st.result + [k], |st.result| + 1) == CharDepth(s, n)
  {
    var k := Keyword(st.word, st.start, st.prev.value, None);
    var r := st.result;
    assert IsWordOf(s, k);
    if r != [] {
      assert Follows(r[|r| - 1], k, true);
      EndsBeforeLast(r, k.originalPosition);
    }
    PushOrdered(r, k);
    PushDepths(s, n, r, k);
    var r2 := r + [k];
    forall j | 0 <= j < |r2| ensures IsWordOf(s, r2[j]) && End(r2[j]) <= n {
      if j < |r| { assert r2[j] == r[j]; }
    }
  }

  lemma ContinueKeepsInv(s: string, n: nat, st: LexState)
    requires n < |s| && Inv(s, n, st) && MustContinueWord(st.prev, TypeOfCharacter(s[n], st.prev))
    ensures Inv(s, n + 1, Step(st, s[n], n))
  {
    assert Step(st, s[n], n) == st.(word := st.word + [s[n]]);
    WordGrows(s, n, st.start, st.prev.value, st.word);
    EmittedGrows(s, n, st.result);
  }

  /** A character of the same multi-character type extends the word being built. */
  lemma WordGrows(s: string, n: nat, start: int, t: KeywordType, w: string)
    requires n < |s| && 0 <= start && start + |w| == n && s[start..n] == w && WordFitsType(t, w)
    requires MustContinueWord(Some(t), TypeOfCharacter(s[n], Some(t)))
    ensures s[start..n + 1] == w + [s[n]] && WordFitsType(t, w + [s[n]])
    ensures CharDepth(s, n + 1) == CharDepth(s, n)
  {
    Seqs.SliceExtend(s, start, n);
    var w2 := w + [s[n]];
    assert forall k | 0 <= k < |w| :: w2[k] == w[k];
  }

  /** The list after a possible MustFinalizeWord, before the new word starts. */
  function Flushed(st: LexState): seq<Keyword>
  {
    if st.prev.Some? then st.result + [Keyword(st.word, st.start, st.prev.value, None)] else st.result
  }

  /** The list after flushing at position n, whose last keyword had the type prev. */
  predicate Settled(s: string, n: nat, r: seq<Keyword>, prev: Option<KeywordType>)
    requires n <= |s|
  {
    Emitted(s, n, r) && TokenDepth(r, |r|) == CharDepth(s, n)
    && (r != [] ==> End(r[|r| - 1]) <= n)
    && (r != [] && prev.None? ==> End(r[|r| - 1]) < n)
    && (r != [] && prev.Some? ==> r[|r| - 1].kind == prev.value)
  }

  lemma FlushKeepsEmitted(s: string, n: nat, st: LexState)
    requires n <= |s| && Inv(s, n, st)
    ensures Settled(s, n, Flushed(st), st.prev)
  {
    if st.prev.Some? {
      PushKeepsEmitted(s, n, st);
    }
  }

  lemma EmittedGrows(s: string, n: nat, r: seq<Keyword>)
    requires n < |s| && Emitted(s, n, r)
    ensures Emitted(s, n + 1, r)
  {
  }

  lemma StartKeepsInv(s: string, n: nat, r: seq<Keyword>, prev: Option<KeywordType>, next: KeywordType)
    requires n < |s| && Settled(s, n, r, prev) && TypeOfCharacter(s[n], prev) == Some(next)
    requires !MustContinueWord(prev, Some(next))
    ensures Inv(s, n + 1, LexState(r, n, Some(next), [s[n]]))
  {
    EmittedGrows(s, n, r);
    StartedWord(s, n, prev, next);
    StartBoundary(r, n, prev, next, [s[n]]);
  }

  /** A character that starts a word is a word of its type on its own, and moves the depth as its keyword will. */
  lemma StartedWord(s: string, n: nat, prev: Option<KeywordType>, next: KeywordType)
    requires n < |s| && TypeOfCharacter(s[n], prev) == Some(next) && !MustContinueWord(prev, Some(next))
    ensures Building(s, n + 1, LexState([], n, Some(next), [s[n]]))
    ensures CharDepth(s, n + 1) == CharDepth(s, n) + PendingDelta(LexState([], n, Some(next), [s[n]]))
  {
    assert s[n..n + 1] == [s[n]];
    SingleCharacterFits(s[n], prev, next);
  }

  /** A new word starts after the flushed one, with a gap when their types would have merged. */
  lemma StartBoundary(r: seq<Keyword>, n: nat, prev: Option<KeywordType>, next: KeywordType, w: string)
    requires r != [] ==> End(r[|r| - 1]) <= n
    requires r != [] && prev.None? ==> End(r[|r| - 1]) < n
    requires r != [] && prev.Some? ==> r[|r| - 1].kind == prev.value
    requires !MustContinueWord(prev, Some(next))
    ensures Boundary(LexState(r, n, Some(next), w), n + 1)
  {
  }

  lemma SingleCharacterFits(c: char, prev: Option<KeywordType>, next: KeywordType)
    requires TypeOfCharacter(c, prev) == Some(next) && !MustContinueWord(prev, Some(next))
    ensures WordFitsType(next, [c])
  {
    if next == Name {
      assert prev != Some(Name);
    }
  }

  lemma SkipKeepsInv(s: string, n: nat, r: seq<Keyword>, prev: Option<KeywordType>, start: int, w: string)
    requires n < |s| && Settled(s, n, r, prev) && TypeOfCharacter(s[n], prev).None?
    ensures Inv(s, n + 1, LexState(r, start, None, w))
  {
    EmittedGrows(s, n, r);
  }

  lemma BreakKeepsInv(s: string, n: nat, st: LexState)
    requires n < |s| && Inv(s, n, st) && !MustContinueWord(st.prev, TypeOfCharacter(s[n], st.prev))
    ensures Inv(s, n + 1, Step(st, s[n], n))
  {
    var next := TypeOfCharacter(s[n], st.prev);
    WordDecisions(st.prev, next);
    FlushKeepsEmitted(s, n, st);
    if next.Some? {
      StartKeepsInv(s, n, Flushed(st), st.prev, next.value);
      assert Step(st, s[n], n) == LexState(Flushed(st), n, next, [s[n]]);
    } else {
      SkipKeepsInv(s, n, Flushed(st), st.prev, st.start, st.word);
      assert Step(st, s[n], n) == LexState(Flushed(st), st.start, None, st.word);
    }
  }

  lemma StepKeepsInv(s: string, n: nat)
    requires n < |s| && Inv(s, n, LexUpTo(s, n))
    ensures Inv(s, n + 1, LexUpTo(s, n + 1))
  {
    var st := LexUpTo(s, n);
    if MustContinueWord(st.prev, TypeOfCharacter(s[n], st.prev)) {
      ContinueKeepsInv(s, n, st);
    } else {
      BreakKeepsInv(s, n, st);
    }
  }

  lemma {:induction false} LexUpToInv(s: string, n: nat)
    requires n <= |s|
    ensures Inv(s, n, LexUpTo(s, n))
  {
    if n > 0 {
      LexUpToInv(s, n - 1);
      StepKeepsInv(s, n - 1);
    }
  }

  /**
   * The lexer's output: every keyword is the substring of the input at its
   * position, its word fits its type (parentheses and separators are single
   * characters, a name starts with a letter or '_' and continues with naming
   * characters, a literal is digits and '.', an operator run starts with an
   * operator character and holds only operator characters and spaces), the
   * keywords come in order without overlap, and two words of the same
   * multi-character type never touch.
   */
  lemma LexProducesWords(s: string)
    ensures forall j | 0 <= j < |Lex(s)| :: IsWordOf(s, Lex(s)[j])
    ensures Ordered(Lex(s))
  {
    LexUpToInv(s, |s|);
    var st := LexUpTo(s, |s|);
    if st.prev.Some? {
      PushKeepsEmitted(s, |s|, st);
    }
  }

  /** Parentheses go one-to-one into keywords: every prefix of the keywords has the depth of the text it covers. */
  lemma LexKeepsDepths(s: string)
    ensures DepthsAgree(s, Lex(s))
    ensures TokenDepth(Lex(s), |Lex(s)|) == CharDepth(s, |s|)
  {
    LexUpToInv(s, |s|);
    var st := LexUpTo(s, |s|);
    if st.prev.Some? {
      PushKeepsEmitted(s, |s|, st);
    }
  }

  /** Examples: a name continues over digits, a literal is cut by a letter, an operator run keeps inner spaces. */
  lemma LexNameExample()
    ensures Lex("x1") == [Keyword("x1", 0, Name, None)]
  {
    var s := "x1";
    assert s[0] == 'x' && s[1] == '1';
    assert LexUpTo(s, 1) == LexState([], 0, Some(Name), "x");
    assert TypeOfCharacter('1', Some(Name)) == Some(Name);
    assert LexUpTo(s, 2) == LexState([], 0, Some(Name), "x1");
  }

  lemma LexLiteralExample()
    ensures Lex("2x") == [Keyword("2", 0, Literal, None), Keyword("x", 1, Name, None)]
  {
    var s := "2x";
    assert s[0] == '2' && s[1] == 'x';
    assert LexUpTo(s, 1) == LexState([], 0, Some(Literal), "2");
    assert TypeOfCharacter('x', Some(Literal)) == Some(Name);
    assert LexUpTo(s, 2) == LexState([Keyword("2", 0, Literal, None)], 1, Some(Name), "x");
  }

  lemma LexOperatorExample()
    ensures Lex("a< -b") == [Keyword("a", 0, Name, None), Keyword("< -", 1, Operator, None), Keyword("b", 4, Name, None)]
  {
    var s := "a< -b";
    assert s[0] == 'a' && s[1] == '<' && s[2] == ' ' && s[3] == '-' && s[4] == 'b';
    assert LexUpTo(s, 1) == LexState([], 0, Some(Name), "a");
    assert TypeOfCharacter('<', Some(Name)) == Some(Operator);
    assert LexUpTo(s, 2) == LexState([Keyword("a", 0, Name, None)], 1, Some(Operator), "<");
    assert LexUpTo(s, 3) == LexState([Keyword("a", 0, Name, None)], 1, Some(Operator), "< ");
    assert TypeOfCharacter('-', Some(Operator)) == Some(Operator);
    assert LexUpTo(s, 4) == LexState([Keyword("a", 0, Name, None)], 1, Some(Operator), "< -");
    assert TypeOfCharacter('b', Some(Operator)) == Some(Name);
    assert LexUpTo(s, 5) == LexState([Keyword("a", 0, Name, None), Keyword("< -", 1, Operator, None)], 4, Some(Name), "b");
  }

  /** Once a character with a type has been read, a word is pending or has been emitted. */
  lemma {:induction false} WordSeenStays(s: string, n: nat, i: nat)
    requires i < n <= |s| && TypeOfCharacter(s[i], LexUpTo(s, i).prev).Some?
    ensures LexUpTo(s, n).result != [] || LexUpTo(s, n).prev.Some?
  {
    if n > i + 1 {
      WordSeenStays(s, n - 1, i);
    }
  }

  /** A text holding a literal or naming character lexes into at least one keyword. */
  lemma LexFindsAWord(s: string, i: nat)
    requires i < |s| && (PG.IsLiteralCharacter(s[i]) || PG.IsNamingCharacter(s[i]))
    ensures Lex(s) != []
  {
    WordSeenStays(s, |s|, i);
  }
}

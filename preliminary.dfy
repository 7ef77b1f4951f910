// The first stage of the syntax analyzer: checks on the raw text, before
// it is split into keywords.
module Preliminary {
  import opened Errors
  import opened Keywords
  import Text
  import PG = ParserGlobal
  import Lexer

  /** One InvalidCharacter error per character of the first n that is not allowed, in index order. */
  function CharacterErrors(s: string, n: nat): (r: seq<Error>)
    requires n <= |s|
    ensures |r| <= n
  {
    if n == 0 then []
    else
      var p := CharacterErrors(s, n - 1);
      if PG.ValidateCharacter(s[n - 1]) then p else p + [InvalidCharacter(n - 1)]
  }

  /** Every report names an invalid character by its index. */
  lemma {:induction false} CharacterErrorsSound(s: string, n: nat)
    requires n <= |s|
    ensures forall e | e in CharacterErrors(s, n) :: e.InvalidCharacter? && 0 <= e.index < n && !PG.ValidateCharacter(s[e.index])
    decreases n
  {
    if n > 0 {
      CharacterErrorsSound(s, n - 1);
    }
  }

  /** Every invalid character is reported. */
  lemma {:induction false} CharacterErrorsComplete(s: string, n: nat)
    requires n <= |s|
    ensures forall i | 0 <= i < n && !PG.ValidateCharacter(s[i]) :: InvalidCharacter(i) in CharacterErrors(s, n)
    decreases n
  {
    if n > 0 {
      CharacterErrorsComplete(s, n - 1);
    }
  }

  /** The reports come in increasing order of index. */
  lemma {:induction false} CharacterErrorsOrdered(s: string, n: nat)
    requires n <= |s|
    ensures forall a, b | 0 <= a < b < |CharacterErrors(s, n)| ::
      CharacterErrors(s, n)[a].InvalidCharacter? && CharacterErrors(s, n)[b].InvalidCharacter?
      && CharacterErrors(s, n)[a].index < CharacterErrors(s, n)[b].index
    decreases n
  {
    if n > 0 {
      CharacterErrorsOrdered(s, n - 1);
      CharacterErrorsSound(s, n - 1);
      var p := CharacterErrors(s, n - 1);
      if !PG.ValidateCharacter(s[n - 1]) {
        var r := p + [InvalidCharacter(n - 1)];
        forall a, b | 0 <= a < b < |r|
          ensures r[a].InvalidCharacter? && r[b].InvalidCharacter? && r[a].index < r[b].index
        {
          assert r[a] == p[a] && p[a] in p;
          if b < |p| {
            assert r[b] == p[b];
            assert p[a].InvalidCharacter? && p[b].InvalidCharacter? && p[a].index < p[b].index;
          } else {
            assert r[b] == InvalidCharacter(n - 1);
            assert p[a].index < n - 1;
          }
        }
      }
    }
  }

  /** One more character adds its error exactly when it is not a valid character. */
  lemma CharacterErrorsStep(s: string, n: nat)
    requires n < |s|
    ensures CharacterErrors(s, n + 1) == CharacterErrors(s, n) + if PG.ValidateCharacter(s[n]) then [] else [InvalidCharacter(n)]
  {
  }

  /** The running parenthesis depth never drops below zero and ends at zero. */
  predicate ParenthesesBalanced(s: string)
  {
    (forall m | 0 <= m <= |s| :: Lexer.CharDepth(s, m) >= 0) && Lexer.CharDepth(s, |s|) == 0
  }

  predicate HasLiteralOrNamingCharacter(s: string)
  {
    exists i | 0 <= i < |s| :: PG.IsLiteralCharacter(s[i]) || PG.IsNamingCharacter(s[i])
  }

  /** PreliminaryCheck: the errors of the first of its four checks that fails. */
  function PreliminaryErrors(s: string): (r: seq<Error>)
    ensures r == [] <==>
      !Text.IsNullOrWhiteSpace(s) && (forall i | 0 <= i < |s| :: PG.ValidateCharacter(s[i]))
      && ParenthesesBalanced(s) && HasLiteralOrNamingCharacter(s)
    ensures Text.IsNullOrWhiteSpace(s) ==> r == [ExpressionStringIsNullOrWhitespace]
    ensures !Text.IsNullOrWhiteSpace(s) && (exists i | 0 <= i < |s| :: !PG.ValidateCharacter(s[i])) ==>
      r != [] && forall e | e in r :: e.InvalidCharacter?
  {
    if Text.IsNullOrWhiteSpace(s) then [ExpressionStringIsNullOrWhitespace]
    else
      var ce := CharacterErrors(s, |s|);
      CharacterErrorsComplete(s, |s|);
      CharacterErrorsSound(s, |s|);
      assert ce == [] <==> forall i | 0 <= i < |s| :: PG.ValidateCharacter(s[i]) by {
        if ce != [] { assert ce[0] in ce; }
      }
      if ce != [] then ce
      else if !ParenthesesBalanced(s) then [InvalidParenthesis]
      else if !HasLiteralOrNamingCharacter(s) then [ExpressionStringMustContainLiteralsOrNames]
      else []
  }

  /**
   * Text that passes the check lexes into at least one keyword, and the
   * keywords' parenthesis depth never drops below zero and ends at zero.
   */
  lemma CheckedTextLexesBalanced(s: string)
    requires PreliminaryErrors(s) == []
    ensures Lexer.Lex(s) != []
    ensures forall m | 0 <= m <= |Lexer.Lex(s)| :: TokenDepth(Lexer.Lex(s), m) >= 0
    ensures TokenDepth(Lexer.Lex(s), |Lexer.Lex(s)|) == 0
  {
    var ks := Lexer.Lex(s);
    var i :| 0 <= i < |s| && (PG.IsLiteralCharacter(s[i]) || PG.IsNamingCharacter(s[i]));
    Lexer.LexFindsAWord(s, i);
    Lexer.LexKeepsDepths(s);
    forall m | 0 <= m <= |ks| ensures TokenDepth(ks, m) >= 0 {
      if m > 0 {
        assert TokenDepth(ks, m) == Lexer.CharDepth(s, Lexer.End(ks[m - 1]));
      }
    }
  }
}

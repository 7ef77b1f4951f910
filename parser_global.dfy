// Character classes, name and literal validation, and the exact value of a
// numeric literal, as ParserGlobal defines them.
module ParserGlobal {
  import opened Wrappers
  import opened Domains

  const LeftParenthesis: char := '('
  const RightParenthesis: char := ')'
  const ArgumentSeparator: char := ','
  const Whitespace: char := ' '

  /** The fourteen characters operators are spelled with (GetOperatorCharacters). */
  const OperatorCharacters: seq<char> := ['+', '-', '*', '/', '%', '^', '!', '~', '&', '|', '<', '>', '=', '?']

  predicate IsDigit(c: char) { '0' <= c <= '9' }
  predicate IsLatinLetter(c: char) { 'A' <= c <= 'Z' || 'a' <= c <= 'z' }

  predicate IsOperatorCharacter(c: char) { c in OperatorCharacters }
  predicate IsLiteralCharacter(c: char) { IsDigit(c) || c == '.' }
  predicate IsNamingCharacter(c: char) { IsLatinLetter(c) || IsDigit(c) || c == '_' }
  predicate IsSpecialCharacter(c: char)
  {
    c == LeftParenthesis || c == RightParenthesis || c == ArgumentSeparator || c == Whitespace
  }

  /** ValidateCharacter: membership in the union of the three classes and the four special characters. */
  predicate ValidateCharacter(c: char)
  {
    IsOperatorCharacter(c) || IsLiteralCharacter(c) || IsNamingCharacter(c) || IsSpecialCharacter(c)
  }

  /** GetLiteralCharacters: the digits by code point 48..57, then '.'. */
  method GetLiteralCharacters() returns (r: array<char>)
    ensures fresh(r) && r.Length == 11
    ensures forall c :: c in r[..] <==> IsLiteralCharacter(c)
  {
    r := new char[11];
    var i, j := 48, 0;
    while i < 58
      invariant 48 <= i <= 58 && j == i - 48
      invariant forall k :: 0 <= k < j ==> r[k] == (k + 48) as char
    {
      r[j] := i as char;
      i, j := i + 1, j + 1;
    }
    r[10] := '.';
    forall c | IsDigit(c) ensures c in r[..] {
      assert r[..][c as int - 48] == c;
    }
  }

  /** GetNamingCharacters: A-Z, a-z, 0-9 by code point, then '_'. */
  method GetNamingCharacters() returns (r: array<char>)
    ensures fresh(r) && r.Length == 63
    ensures forall c :: c in r[..] <==> IsNamingCharacter(c)
  {
    r := new char[63];
    var i, j := 65, 0;
    while i < 91
      invariant 65 <= i <= 91 && j == i - 65
      invariant forall k :: 0 <= k < j ==> r[k] == (k + 65) as char
    {
      r[j] := i as char;
      i, j := i + 1, j + 1;
    }
    i, j := 97, 26;
    while i < 123
      invariant 97 <= i <= 123 && j == i - 71
      invariant forall k :: 0 <= k < 26 ==> r[k] == (k + 65) as char
      invariant forall k :: 26 <= k < j ==> r[k] == (k + 71) as char
    {
      r[j] := i as char;
      i, j := i + 1, j + 1;
    }
    i, j := 48, 52;
    while i < 58
      invariant 48 <= i <= 58 && j == i + 4
      invariant forall k :: 0 <= k < 26 ==> r[k] == (k + 65) as char
      invariant forall k :: 26 <= k < 52 ==> r[k] == (k + 71) as char
      invariant forall k :: 52 <= k < j ==> r[k] == (k - 4) as char
    {
      r[j] := i as char;
      i, j := i + 1, j + 1;
    }
    r[62] := '_';
    forall c | IsNamingCharacter(c) ensures c in r[..] {
      if 'A' <= c <= 'Z' {
        assert r[..][c as int - 65] == c;
      } else if 'a' <= c <= 'z' {
        assert r[..][c as int - 71] == c;
      } else if IsDigit(c) {
        assert r[..][c as int + 4] == c;
      } else {
        assert r[..][62] == c;
      }
    }
  }

  /** The static constructor: the three classes, then their union with the special characters, duplicates removed. */
  method InitializeCharacterSets() returns (operators: seq<char>, literals: array<char>, naming: array<char>, valid: seq<char>)
    ensures forall c :: c in operators <==> IsOperatorCharacter(c)
    ensures forall c :: c in literals[..] <==> IsLiteralCharacter(c)
    ensures forall c :: c in naming[..] <==> IsNamingCharacter(c)
    ensures forall c :: c in valid <==> ValidateCharacter(c)
    ensures forall i, j :: 0 <= i < j < |valid| ==> valid[i] != valid[j]
  {
    operators := OperatorCharacters;
    literals := GetLiteralCharacters();
    naming := GetNamingCharacters();
    var all := operators + literals[..] + naming[..] + [LeftParenthesis, RightParenthesis, ArgumentSeparator, Whitespace];
    valid := [];
    var i := 0;
    while i < |all|
      invariant 0 <= i <= |all|
      invariant forall c :: c in valid <==> c in all[..i]
      invariant forall p, q :: 0 <= p < q < |valid| ==> valid[p] != valid[q]
    {
      if all[i] !in valid {
        valid := valid + [all[i]];
      }
      assert all[..i + 1] == all[..i] + [all[i]];
      i := i + 1;
    }
    assert all[..i] == all;
  }

  /** The pattern ^[A-Za-z_][A-Za-z0-9_]*$. */
  predicate NameRegexMatch(s: string)
  {
    |s| > 0 && (IsLatinLetter(s[0]) || s[0] == '_')
    && forall i | 1 <= i < |s| :: IsLatinLetter(s[i]) || IsDigit(s[i]) || s[i] == '_'
  }

  /** ValidateName: a non-empty run of naming characters that does not start with a digit. */
  function ValidateName(name: string): (ok: bool)
    ensures ok <==> |name| > 0 && !IsDigit(name[0]) && forall i | 0 <= i < |name| :: IsNamingCharacter(name[i])
  {
    |name| > 0 && (forall i | 0 <= i < |name| :: IsNamingCharacter(name[i])) && NameRegexMatch(name)
  }

  predicate AllDigits(s: string) { forall i | 0 <= i < |s| :: IsDigit(s[i]) }

  /** ([1-9]\d*|0) */
  predicate DoubleIntegerPart(s: string) { s == "0" || (|s| > 0 && '1' <= s[0] <= '9' && AllDigits(s[1..])) }
  /** (\.\d+)? */
  predicate DoubleFractionPart(s: string) { s == "" || (|s| >= 2 && s[0] == '.' && AllDigits(s[1..])) }
  /** (1|0) */
  predicate BooleanIntegerPart(s: string) { s == "0" || s == "1" }
  /** (\.0+)? */
  predicate BooleanFractionPart(s: string) { s == "" || (|s| >= 2 && s[0] == '.' && forall i | 1 <= i < |s| :: s[i] == '0') }

  /** The language of ^([1-9]\d*|0)(\.\d+)?$: some split of the word into the two groups. */
  ghost predicate InDoubleLiteralLanguage(s: string)
  {
    exists k | 0 <= k <= |s| :: DoubleIntegerPart(s[..k]) && DoubleFractionPart(s[k..])
  }

  /** The language of ^(1|0)(\.0+)?$. */
  ghost predicate InBooleanLiteralLanguage(s: string)
  {
    exists k | 0 <= k <= |s| :: BooleanIntegerPart(s[..k]) && BooleanFractionPart(s[k..])
  }

  /** The index of the first '.', or the length when there is none. */
  function DotIndex(s: string): (k: nat)
    ensures k <= |s|
    ensures forall i | 0 <= i < k :: s[i] != '.'
    ensures k < |s| ==> s[k] == '.'
  {
    if s == [] then 0 else if s[0] == '.' then 0 else 1 + DotIndex(s[1..])
  }

  /** An integer part has no '.', and a fraction part is empty or starts with one: the split is at the first dot. */
  lemma SplitIsAtDot(s: string, k: nat)
    requires k <= |s|
    requires forall i | 0 <= i < k :: s[i] != '.'
    requires k == |s| || s[k] == '.'
    ensures k == DotIndex(s)
  {
  }

  /** ValidateLiteral: the word is made of literal characters and matches the Double pattern, or the Boolean one when that type is asked for. */
  function ValidateLiteral(literal: string, t: Option<ValueDomain>): (ok: bool)
    ensures ok <==> if t == Some(Boolean) then InBooleanLiteralLanguage(literal) else InDoubleLiteralLanguage(literal)
  {
    if |literal| == 0 || !(forall i | 0 <= i < |literal| :: IsLiteralCharacter(literal[i])) then
      LiteralLanguagesNeedLiteralCharacters(literal);
      false
    else
      var k := DotIndex(literal);
      LiteralSplitIsUnique(literal);
      if t == Some(Boolean) then BooleanIntegerPart(literal[..k]) && BooleanFractionPart(literal[k..])
      else DoubleIntegerPart(literal[..k]) && DoubleFractionPart(literal[k..])
  }

  lemma LiteralLanguagesNeedLiteralCharacters(s: string)
    ensures InDoubleLiteralLanguage(s) ==> |s| > 0 && forall i | 0 <= i < |s| :: IsLiteralCharacter(s[i])
    ensures InBooleanLiteralLanguage(s) ==> |s| > 0 && forall i | 0 <= i < |s| :: IsLiteralCharacter(s[i])
  {
    if InDoubleLiteralLanguage(s) {
      var k :| 0 <= k <= |s| && DoubleIntegerPart(s[..k]) && DoubleFractionPart(s[k..]);
      forall i | 0 <= i < |s| ensures IsLiteralCharacter(s[i]) {
        if i < k { assert s[i] == s[..k][i]; } else { assert s[i] == s[k..][i - k]; }
      }
    }
    if InBooleanLiteralLanguage(s) {
      var k :| 0 <= k <= |s| && BooleanIntegerPart(s[..k]) && BooleanFractionPart(s[k..]);
      forall i | 0 <= i < |s| ensures IsLiteralCharacter(s[i]) {
        if i < k { assert s[i] == s[..k][i]; } else { assert s[i] == s[k..][i - k]; }
      }
    }
  }

  /** Both patterns split at the first dot, so matching one split decides the pattern. */
  lemma LiteralSplitIsUnique(s: string)
    ensures InDoubleLiteralLanguage(s) <==> DoubleIntegerPart(s[..DotIndex(s)]) && DoubleFractionPart(s[DotIndex(s)..])
    ensures InBooleanLiteralLanguage(s) <==> BooleanIntegerPart(s[..DotIndex(s)]) && BooleanFractionPart(s[DotIndex(s)..])
  {
    if InDoubleLiteralLanguage(s) {
      var k :| 0 <= k <= |s| && DoubleIntegerPart(s[..k]) && DoubleFractionPart(s[k..]);
      forall i | 0 <= i < k ensures s[i] != '.' { assert s[i] == s[..k][i]; }
      SplitIsAtDot(s, k);
    }
    if InBooleanLiteralLanguage(s) {
      var k :| 0 <= k <= |s| && BooleanIntegerPart(s[..k]) && BooleanFractionPart(s[k..]);
      forall i | 0 <= i < k ensures s[i] != '.' { assert s[i] == s[..k][i]; }
      SplitIsAtDot(s, k);
    }
  }

  /** Literals the Double pattern accepts. */
  lemma DoubleLiteralExamples()
    ensures ValidateLiteral("0", None) && ValidateLiteral("10.25", None)
  {
    assert DotIndex("0") == 1;
    assert DotIndex("10.25") == 2;
    assert "10.25"[..2] == "10" && "10.25"[2..] == ".25";
  }

  /** Leading zeros, a trailing dot and a missing integer part are rejected. */
  lemma DoubleLiteralCounterExamples()
    ensures !ValidateLiteral("007", None) && !ValidateLiteral("1.", None) && !ValidateLiteral(".5", None)
  {
    assert DotIndex("007") == 3;
    assert "007"[..3] == "007";
    assert DotIndex("1.") == 1;
    assert "1."[1..] == ".";
    assert DotIndex(".5") == 0;
    assert ".5"[..0] == "";
  }

  /** The Boolean pattern accepts 1 and 0 with any number of zero decimals and nothing else. */
  lemma BooleanLiteralExamples()
    ensures ValidateLiteral("1.000", Some(Boolean)) && !ValidateLiteral("2", Some(Boolean)) && !ValidateLiteral("1.01", Some(Boolean))
  {
    assert DotIndex("1.000") == 1;
    assert "1.000"[..1] == "1" && "1.000"[1..] == ".000";
    assert DotIndex("2") == 1;
    assert "2"[..1] == "2";
    assert DotIndex("1.01") == 1;
    assert "1.01"[1..] == ".01" && ".01"[2] == '1';
  }

  function DigitValue(c: char): nat
    requires IsDigit(c)
  {
    c as int - '0' as int
  }

  /** The integer a run of digits denotes. */
  function IntegerValue(s: string): nat
    requires AllDigits(s)
  {
    if s == [] then 0 else IntegerValue(s[..|s| - 1]) * 10 + DigitValue(s[|s| - 1])
  }

  /** The fraction 0.d1d2... a run of digits denotes after the point. */
  function FractionValue(s: string): real
    requires AllDigits(s)
  {
    if s == [] then 0.0 else (DigitValue(s[0]) as real + FractionValue(s[1..])) / 10.0
  }

  /** The exact decimal value of a valid Double literal: ParseLiteral without rounding to a double. */
  function LiteralValue(s: string): real
    requires ValidateLiteral(s, None)
  {
    var k := DotIndex(s);
    LiteralSplitIsUnique(s);
    IntegerValue(s[..k]) as real + if k < |s| then FractionValue(s[k + 1..]) else 0.0
  }

  lemma {:induction false} FractionValueBounds(s: string)
    requires AllDigits(s)
    ensures 0.0 <= FractionValue(s) < 1.0
    ensures FractionValue(s) == 0.0 <==> forall i | 0 <= i < |s| :: s[i] == '0'
  {
    if s != [] {
      FractionValueBounds(s[1..]);
      if FractionValue(s) == 0.0 {
        forall i | 0 <= i < |s| ensures s[i] == '0' {
          if i > 0 { assert s[i] == s[1..][i - 1]; }
        }
      }
      if forall i | 0 <= i < |s| :: s[i] == '0' {
        assert forall i | 0 <= i < |s[1..]| :: s[1..][i] == '0' by {
          forall i | 0 <= i < |s[1..]| ensures s[1..][i] == '0' { assert s[1..][i] == s[i + 1]; }
        }
      }
    }
  }

  /** A run of digits without a leading zero denotes at least its first digit, and at least 10 when it has two digits or more. */
  lemma {:induction false} IntegerValueLowerBound(s: string)
    requires |s| > 0 && AllDigits(s) && s[0] != '0'
    ensures IntegerValue(s) >= 1
    ensures |s| >= 2 ==> IntegerValue(s) >= 10
    ensures |s| == 1 ==> IntegerValue(s) == DigitValue(s[0])
  {
    if |s| >= 2 {
      var p := s[..|s| - 1];
      assert p[0] == s[0];
      assert AllDigits(p) by { forall i | 0 <= i < |p| ensures IsDigit(p[i]) { assert p[i] == s[i]; } }
      IntegerValueLowerBound(p);
    } else {
      assert s[..0] == [];
    }
  }

  /** A Double literal denotes 0 or 1 exactly when it also matches the Boolean pattern. */
  lemma LiteralIsBooleanValueIff(s: string)
    requires ValidateLiteral(s, None)
    ensures LiteralValue(s) == 0.0 || LiteralValue(s) == 1.0 <==> ValidateLiteral(s, Some(Boolean))
  {
    var k := DotIndex(s);
    LiteralSplitIsUnique(s);
    var ip, fp := s[..k], s[k..];
    var f := if k < |s| then FractionValue(s[k + 1..]) else 0.0;
    assert AllDigits(ip);
    if k < |s| {
      assert fp[1..] == s[k + 1..];
      FractionValueBounds(s[k + 1..]);
    }
    assert 0.0 <= f < 1.0;
    assert f == 0.0 <==> BooleanFractionPart(fp) by {
      if k < |s| {
        assert fp[1..] == s[k + 1..];
      }
    }
    if ip == "0" {
      assert IntegerValue(ip) == 0 by { assert ip[..0] == []; }
    } else {
      IntegerValueLowerBound(ip);
      if |ip| == 1 {
        assert ip == "1" <==> DigitValue(ip[0]) == 1;
      }
    }
  }

  lemma BooleanLiteralsAreDoubleLiterals(s: string)
    ensures ValidateLiteral(s, Some(Boolean)) ==> ValidateLiteral(s, None)
  {
    LiteralSplitIsUnique(s);
    var k := DotIndex(s);
    if ValidateLiteral(s, Some(Boolean)) {
      assert DoubleIntegerPart(s[..k]);
      assert DoubleFractionPart(s[k..]) by {
        var fp := s[k..];
        if fp != "" {
          assert forall i | 0 <= i < |fp[1..]| :: fp[1..][i] == fp[i + 1];
        }
      }
    }
  }
}

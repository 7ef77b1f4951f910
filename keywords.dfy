// The lexical unit the analyzer and the parser pass around.
module Keywords {
  import opened Wrappers

  datatype KeywordType = Name | Literal | Operator | LeftParenthesis | RightParenthesis | ArgumentSeparator

  datatype KeywordSubtype = Constant | Function | Argument | PrefixOperator | InfixOperator | PostfixOperator

  /** A word of the expression, the index of its first character, its type and, once known, its subtype. */
  datatype Keyword = Keyword(word: string, originalPosition: int, kind: KeywordType, subtype: Option<KeywordSubtype>)

  /** Parentheses and separators are always one-character words. */
  predicate IsSingleCharacterType(t: KeywordType)
  {
    t == LeftParenthesis || t == RightParenthesis || t == ArgumentSeparator
  }

  predicate IsFunctionKeyword(k: Keyword) { k.kind == Name && k.subtype == Some(Function) }

  /** The change in parenthesis depth a keyword makes. */
  function ParenthesisDelta(k: Keyword): int
  {
    if k.kind == LeftParenthesis then 1 else if k.kind == RightParenthesis then -1 else 0
  }

  /** The parenthesis depth after the first m keywords. */
  function TokenDepth(ks: seq<Keyword>, m: nat): int
    requires m <= |ks|
  {
    if m == 0 then 0 else TokenDepth(ks, m - 1) + ParenthesisDelta(ks[m - 1])
  }

  /** The words of a keyword sequence. */
  function Words(ks: seq<Keyword>): (ws: seq<string>)
    ensures |ws| == |ks| && forall i | 0 <= i < |ks| :: ws[i] == ks[i].word
  {
    if ks == [] then [] else [ks[0].word] + Words(ks[1..])
  }
}

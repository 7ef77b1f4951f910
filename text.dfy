// The two string helpers of the .NET runtime the library relies on:
// string.IsNullOrWhiteSpace and string.TrimEnd. A null string is not
// representable here, so "null or whitespace" is "empty or all whitespace".
module Text {
  /**
   * char.IsWhiteSpace: the Unicode space, line and paragraph separators,
   * the control characters U+0009..U+000D and U+0085.
   */
  predicate IsWhiteSpace(c: char)
  {
    c == ' ' || ('\U{0009}' <= c <= '\U{000D}') || c == '\U{0085}' || c == '\U{00A0}' || c == '\U{1680}'
    || ('\U{2000}' <= c <= '\U{200A}') || c == '\U{2028}' || c == '\U{2029}' || c == '\U{202F}'
    || c == '\U{205F}' || c == '\U{3000}'
  }

  predicate IsNullOrWhiteSpace(s: string)
  {
    forall i | 0 <= i < |s| :: IsWhiteSpace(s[i])
  }

  /** TrimEnd(): drops the longest all-whitespace suffix. */
  function TrimEnd(s: string): (r: string)
    ensures |r| <= |s| && r == s[..|r|]
    ensures r == [] || !IsWhiteSpace(r[|r| - 1])
    ensures IsNullOrWhiteSpace(s[|r|..])
  {
    if s == [] || !IsWhiteSpace(s[|s| - 1]) then s
    else
      var r := TrimEnd(s[..|s| - 1]);
      assert s[|r|..] == s[..|s| - 1][|r|..] + [s[|s| - 1]];
      r
  }
}

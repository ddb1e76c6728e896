/**
 * The version test of TagS3Object.onTrigger: StringUtils.isBlank, true for a
 * missing string, the empty string, and a string of whitespace only.
 */
module Blank {
  import opened Wrappers

  /**
   * Java's Character.isWhitespace: the Unicode space, line and paragraph
   * separators other than the no-break spaces U+00A0, U+2007 and U+202F,
   * the controls U+0009..U+000D and the separators U+001C..U+001F.
   */
  predicate IsWhitespace(c: char): (b: bool)
    ensures c == ' ' || c == '\t' || c == '\n' || c == '\r' ==> b
    ensures b ==> c != '\U{00A0}' && c != '\U{2007}' && c != '\U{202F}'
  {
    || c == ' '
    || ('\t' <= c <= '\r')
    || ('\U{001C}' <= c <= '\U{001F}')
    || c == '\U{1680}'
    || ('\U{2000}' <= c <= '\U{2006}')
    || ('\U{2008}' <= c <= '\U{200A}')
    || c == '\U{2028}' || c == '\U{2029}'
    || c == '\U{205F}' || c == '\U{3000}'
  }

  /** The scan of isBlank: every character, from the first on, is whitespace. */
  predicate AllWhitespace(s: string): (b: bool)
    ensures b <==> forall i :: 0 <= i < |s| ==> IsWhitespace(s[i])
  {
    if s == [] then true
    else
      assert forall i :: 1 <= i < |s| ==> s[i] == s[1..][i - 1];
      IsWhitespace(s[0]) && AllWhitespace(s[1..])
  }

  /** StringUtils.isBlank on a possibly null string. */
  predicate IsBlank(s: Option<string>): (b: bool)
    ensures b <==> s.None? || forall i :: 0 <= i < |s.value| ==> IsWhitespace(s.value[i])
  {
    s.None? || AllWhitespace(s.value)
  }

  /** A version is not blank exactly when it is present and holds a character that is not whitespace. */
  lemma BlankIff(s: Option<string>)
    ensures !IsBlank(s) <==> s.Some? && exists i :: 0 <= i < |s.value| && !IsWhitespace(s.value[i])
  {
  }
}

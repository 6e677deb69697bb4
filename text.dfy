/** The string helpers the service relies on: StringUtils.isNotBlank and String.toUpperCase. */
module Text {

  /** The characters for which Character.isWhitespace holds, listed one by one. */
  const JavaWhitespace: string :=
    " \t\n\U{B}\U{C}\r\U{1C}\U{1D}\U{1E}\U{1F}\U{1680}"
    + "\U{2000}\U{2001}\U{2002}\U{2003}\U{2004}\U{2005}\U{2006}\U{2008}\U{2009}\U{200A}"
    + "\U{2028}\U{2029}\U{205F}\U{3000}"

  /** Character.isWhitespace as of Java 9 (Unicode 8.0 and later): ASCII controls
      9-13 and 28-31, and the Unicode space, line and paragraph separators other
      than the no-break spaces. Java 8 (Unicode 6.2) also counts U+180E, then a
      space separator; this list does not. */
  function IsWhitespace(c: char): (b: bool)
    ensures b <==> c in JavaWhitespace
  {
    c == ' ' || ('\t' <= c <= '\r') || ('\U{1C}' <= c <= '\U{1F}')
    || c == '\U{1680}' || ('\U{2000}' <= c <= '\U{2006}') || ('\U{2008}' <= c <= '\U{200A}')
    || c == '\U{2028}' || c == '\U{2029}' || c == '\U{205F}' || c == '\U{3000}'
  }

  /** StringUtils.isBlank for a non-null string, scanning from the front:
      true exactly when every character is whitespace (so also when empty). */
  function IsBlank(s: string): (b: bool)
    ensures b <==> forall i :: 0 <= i < |s| ==> IsWhitespace(s[i])
  {
    s == [] || (IsWhitespace(s[0]) && IsBlank(s[1..]))
  }

  const LowerLetters: string := "abcdefghijklmnopqrstuvwxyz"
  const UpperLetters: string := "ABCDEFGHIJKLMNOPQRSTUVWXYZ"

  /** Upper-casing of one character: the letters of the ASCII alphabet map to
      the letter at the same place in the upper-case alphabet. */
  function UpperChar(c: char): (u: char)
    ensures forall i :: 0 <= i < |LowerLetters| && c == LowerLetters[i] ==> u == UpperLetters[i]
    ensures c !in LowerLetters ==> u == c
  {
    if 'a' <= c <= 'z' then (c as int - 32) as char else c
  }

  /** String.toUpperCase, character by character. */
  function ToUpper(s: string): (r: string)
    ensures |r| == |s|
    ensures forall i :: 0 <= i < |s| ==> r[i] == UpperChar(s[i])
  {
    if s == [] then [] else [UpperChar(s[0])] + ToUpper(s[1..])
  }

  /** A string with no lower-case ASCII letter. */
  predicate IsUpperCase(s: string) {
    forall i :: 0 <= i < |s| ==> !('a' <= s[i] <= 'z')
  }

  /** Upper-casing yields an upper-case string. */
  lemma ToUpperIsUpperCase(s: string)
    ensures IsUpperCase(ToUpper(s))
  {
  }

  /** An upper-case string is its own upper-casing. */
  lemma UpperCaseIsFixed(s: string)
    requires IsUpperCase(s)
    ensures ToUpper(s) == s
  {
  }

  /** Upper-casing twice is upper-casing once. */
  lemma ToUpperIdempotent(s: string)
    ensures ToUpper(ToUpper(s)) == ToUpper(s)
  {
    ToUpperIsUpperCase(s);
    UpperCaseIsFixed(ToUpper(s));
  }
}

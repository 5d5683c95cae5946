/** Character classes used by the regular expressions of the core (non-Unicode mode). */
module Chars {

  /** `\d` */
  predicate IsDigit(c: char) {
    '0' <= c <= '9'
  }

  /** `[0-9a-fA-F]`, which is also what `[0-9a-f]` matches under the `i` flag. */
  predicate IsHexDigit(c: char) {
    IsDigit(c) || 'a' <= c <= 'f' || 'A' <= c <= 'F'
  }

  /** `\w`, the class `\b` is defined by. */
  predicate IsWordChar(c: char) {
    'a' <= c <= 'z' || 'A' <= c <= 'Z' || IsDigit(c) || c == '_'
  }

  predicate IsUpperLetter(c: char) {
    'A' <= c <= 'Z'
  }

  /** ASCII case folding, the part of the `i` flag's canonicalisation this model covers. */
  function FoldCase(c: char): char {
    if IsUpperLetter(c) then (c as int + 32) as char else c
  }

  /** Characters that end a regular expression literal's plain run: the syntax characters. */
  predicate IsRegexSyntaxChar(c: char) {
    c in "\\^$.|?*+()[]{}"
  }

  /** A string that a `RegExp` built from it matches literally. */
  predicate IsRegexLiteral(w: string) {
    forall i :: 0 <= i < |w| ==> !IsRegexSyntaxChar(w[i])
  }

  /** ECMAScript WhiteSpace and LineTerminator code points, stripped by `parseInt`. */
  predicate IsJsWhitespace(c: char) {
    || c == '\t' || c == '\U{000B}' || c == '\U{000C}' || c == ' '
    || c == '\U{00A0}' || c == '\U{FEFF}'
    || c == '\n' || c == '\r' || c == '\U{2028}' || c == '\U{2029}'
    || c == '\U{1680}' || ('\U{2000}' <= c <= '\U{200A}')
    || c == '\U{202F}' || c == '\U{205F}' || c == '\U{3000}'
  }
}

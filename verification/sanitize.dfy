/**
 * The content filter: global replacement of filter words (`String.prototype.replace`
 * with a `g` regular expression built from a literal word) and the `needsSanit` test.
 */
module Sanitize {
  import opened Wrappers
  import opened Chars
  import opened JsValue

  /** Every word of the filter list is matched literally by the `RegExp` built from it. */
  predicate ValidFilter(words: seq<string>) {
    forall i :: 0 <= i < |words| ==> IsRegexLiteral(words[i])
  }

  predicate CharMatch(a: char, b: char, ignoreCase: bool) {
    if ignoreCase then FoldCase(a) == FoldCase(b) else a == b
  }

  /** The literal pattern `pat` matches `s` at index `i`. */
  predicate MatchesAt(s: string, pat: string, i: nat, ignoreCase: bool) {
    i + |pat| <= |s| && forall k :: 0 <= k < |pat| ==> CharMatch(s[i + k], pat[k], ignoreCase)
  }

  /** `s.match(re)` is non-null. */
  predicate Occurs(s: string, pat: string, ignoreCase: bool) {
    exists i: nat :: i <= |s| && MatchesAt(s, pat, i, ignoreCase)
  }

  /**
   * The replacement text for one match of length `len` at `pos` of `str`
   * (GetSubstitution with no capture groups): `$$` is `$`, `$&` the match,
   * `` $` `` the text before it, `$'` the text after it; any other `$` is literal.
   */
  function Substitute(rep: string, str: string, pos: nat, len: nat): string
    requires pos + len <= |str|
    decreases |rep|
  {
    if |rep| == 0 then ""
    else if rep[0] == '$' && |rep| >= 2 && rep[1] == '$' then "$" + Substitute(rep[2..], str, pos, len)
    else if rep[0] == '$' && |rep| >= 2 && rep[1] == '&' then str[pos..pos + len] + Substitute(rep[2..], str, pos, len)
    else if rep[0] == '$' && |rep| >= 2 && rep[1] == '`' then str[..pos] + Substitute(rep[2..], str, pos, len)
    else if rep[0] == '$' && |rep| >= 2 && rep[1] == '\'' then str[pos + len..] + Substitute(rep[2..], str, pos, len)
    else [rep[0]] + Substitute(rep[1..], str, pos, len)
  }

  /**
   * The global replace scanning `s` from index `i`: a match found at the scan
   * position is replaced and the scan resumes after it (one character further
   * for an empty match, whose skipped character is kept).
   */
  function ReplaceFrom(s: string, i: nat, pat: string, rep: string, ignoreCase: bool): string
    requires i <= |s|
    decreases |s| - i
  {
    if MatchesAt(s, pat, i, ignoreCase) then
      Substitute(rep, s, i, |pat|) +
        (if |pat| > 0 then ReplaceFrom(s, i + |pat|, pat, rep, ignoreCase)
         else if i < |s| then [s[i]] + ReplaceFrom(s, i + 1, pat, rep, ignoreCase)
         else "")
    else if i < |s| then [s[i]] + ReplaceFrom(s, i + 1, pat, rep, ignoreCase)
    else ""
  }

  /** `s.replace(new RegExp(pat, flags), rep)` with the `g` flag, and `i` when `ignoreCase`. */
  function ReplaceAll(s: string, pat: string, rep: string, ignoreCase: bool): string {
    ReplaceFrom(s, 0, pat, rep, ignoreCase)
  }

  /** `word.toLowerCase()` on the ASCII letters. */
  function LowerAscii(w: string): (r: string)
    ensures |r| == |w|
  {
    seq(|w|, i requires 0 <= i < |w| => FoldCase(w[i]))
  }

  /** Filter words as `sanitizeText.ts` compiles them, one after the other. */
  function SanitizeWords(text: string, words: seq<string>, rep: string): string
    decreases |words|
  {
    if |words| == 0 then text
    else
      var pat := LowerAscii(words[0]);
      var next := if Occurs(text, pat, true) then ReplaceAll(text, pat, rep, true) else text;
      SanitizeWords(next, words[1..], rep)
  }

  const DefaultReplacement := "***"

  /**
   * `sanitizeText(text, replacement)` of `sanitizeText.ts`: a TypeError for
   * non-string text, "***" for a non-string replacement, then every filter word
   * replaced case-insensitively, in list order.
   */
  function SanitizeText(text: Value, replacement: Value, words: seq<string>): (r: Result<string, JsError>)
    requires ValidFilter(words)
    ensures r.Err? <==> !text.Str?
  {
    if !text.Str? then Err(TypeError("Can't sanitize value of type " + TypeOf(text) + ", expected string instead"))
    else
      var rep := if replacement.Str? then replacement.s else DefaultReplacement;
      Ok(SanitizeWords(text.s, words, rep))
  }

  /** `needsSanit(text)`: some filter word occurs in `text`, ignoring case. */
  function NeedsSanit(text: string, words: seq<string>): (r: bool)
    requires ValidFilter(words)
    ensures r <==> exists i :: 0 <= i < |words| && Occurs(text, words[i], true)
    decreases |words|
  {
    if |words| == 0 then false
    else
      OccursLowered(text, words[0]);
      var rest := NeedsSanit(text, words[1..]);
      assert rest <==> exists i :: 1 <= i < |words| && Occurs(text, words[i], true) by {
        if rest {
          var i :| 0 <= i < |words[1..]| && Occurs(text, words[1..][i], true);
          assert Occurs(text, words[i + 1], true);
        }
      }
      Occurs(text, LowerAscii(words[0]), true) || rest
  }

  /** Lower-casing a pattern does not change where it matches case-insensitively. */
  lemma OccursLowered(s: string, w: string)
    ensures Occurs(s, LowerAscii(w), true) <==> Occurs(s, w, true)
  {
    forall i: nat ensures MatchesAt(s, LowerAscii(w), i, true) <==> MatchesAt(s, w, i, true) {
      MatchesAtLowered(s, w, i);
    }
  }

  /** Under the `i` flag a lower-cased word matches at exactly the positions the word does. */
  lemma MatchesAtLowered(s: string, w: string, i: nat)
    ensures MatchesAt(s, LowerAscii(w), i, true) <==> MatchesAt(s, w, i, true)
  {
    assert forall k :: 0 <= k < |w| ==> FoldCase(LowerAscii(w)[k]) == FoldCase(w[k]);
  }

  // ---------------------------------------------------------------------------
  // The earlier `sanitizeText.js`

  const LegacyDefaultReplacement := "-"

  /** The pattern `sanitizeText.js` builds: the word between two literal slashes. */
  function SlashPattern(word: string): string {
    "/" + word + "/"
  }

  function LegacySanitizeWords(text: Value, words: seq<string>, rep: string): (r: Result<Value, JsError>)
    ensures r.Err? <==> !text.Str? && |words| > 0
    ensures text.Str? ==> r.Ok? && r.value.Str?
    decreases |words|
  {
    if |words| == 0 then Ok(text)
    else if text.Undefined? || text.Null? then Get(text, "replace")
    else if !text.Str? then Err(TypeError("text.replace is not a function"))
    else LegacySanitizeWords(Str(ReplaceAll(text.s, SlashPattern(words[0]), rep, false)), words[1..], rep)
  }

  /**
   * `sanitizeText(text, replacement)` of `sanitizeText.js`: "-" for a non-string
   * replacement, then every `/word/` replaced case-sensitively, in list order.
   * Non-string text throws as soon as there is a word to replace.
   */
  function LegacySanitizeText(text: Value, replacement: Value, words: seq<string>): (r: Result<Value, JsError>)
    requires ValidFilter(words)
    ensures r.Err? <==> !text.Str? && |words| > 0
    ensures r.Ok? && text.Str? ==> r.value.Str?
  {
    var rep := if replacement.Str? then replacement.s else LegacyDefaultReplacement;
    LegacySanitizeWords(text, words, rep)
  }
}

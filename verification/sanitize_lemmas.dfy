/** Properties of the content filter: identities, a reference definition, and examples. */
module SanitizeLemmas {
  import opened Wrappers
  import opened Chars
  import opened JsValue
  import opened Sanitize

  /** A replacement without `$` is inserted as written. */
  lemma {:induction false} SubstituteLiteral(rep: string, str: string, pos: nat, len: nat)
    requires pos + len <= |str|
    requires '$' !in rep
    ensures Substitute(rep, str, pos, len) == rep
    decreases |rep|
  {
    if |rep| > 0 {
      assert rep[0] != '$';
      assert forall k :: 0 <= k < |rep[1..]| ==> rep[1..][k] == rep[k + 1];
      SubstituteLiteral(rep[1..], str, pos, len);
      assert [rep[0]] + rep[1..] == rep;
    }
  }

  /** With no match from `i` on, the scan copies the rest of `s`. */
  lemma {:induction false} ReplaceFromNoMatch(s: string, i: nat, pat: string, rep: string, ignoreCase: bool)
    requires i <= |s|
    requires forall j: nat :: i <= j ==> !MatchesAt(s, pat, j, ignoreCase)
    ensures ReplaceFrom(s, i, pat, rep, ignoreCase) == s[i..]
    decreases |s| - i
  {
    if i < |s| {
      ReplaceFromNoMatch(s, i + 1, pat, rep, ignoreCase);
      assert s[i..] == [s[i]] + s[i + 1..];
    }
  }

  /** Reference for an empty pattern: the replacement before every character and once more at the end. */
  function InterleaveReplacement(t: string, rep: string): string
    decreases |t|
  {
    if |t| == 0 then rep else rep + ([t[0]] + InterleaveReplacement(t[1..], rep))
  }

  /** An empty word matches at every position, so the scan inserts the replacement around each character. */
  lemma {:induction false} ReplaceFromEmpty(s: string, i: nat, rep: string, ignoreCase: bool)
    requires i <= |s|
    requires '$' !in rep
    ensures ReplaceFrom(s, i, "", rep, ignoreCase) == InterleaveReplacement(s[i..], rep)
    decreases |s| - i
  {
    assert MatchesAt(s, "", i, ignoreCase);
    SubstituteLiteral(rep, s, i, 0);
    if i < |s| {
      ReplaceFromEmpty(s, i + 1, rep, ignoreCase);
      assert s[i..][1..] == s[i + 1..];
      assert s[i..][0] == s[i];
    }
  }

  lemma ReplaceAllEmpty(s: string, rep: string, ignoreCase: bool)
    requires '$' !in rep
    ensures ReplaceAll(s, "", rep, ignoreCase) == InterleaveReplacement(s, rep)
  {
    ReplaceFromEmpty(s, 0, rep, ignoreCase);
    assert s[0..] == s;
  }

  /** A text in which the pattern does not occur is returned unchanged. */
  lemma ReplaceAllNoMatch(s: string, pat: string, rep: string, ignoreCase: bool)
    requires !Occurs(s, pat, ignoreCase)
    ensures ReplaceAll(s, pat, rep, ignoreCase) == s
  {
    forall j: nat ensures !MatchesAt(s, pat, j, ignoreCase) {
      if j <= |s| {
        assert !MatchesAt(s, pat, j, ignoreCase);
      }
    }
    ReplaceFromNoMatch(s, 0, pat, rep, ignoreCase);
  }

  /** The leftmost match at or after `from`, the search `RegExpBuiltinExec` performs. */
  function IndexOf(s: string, pat: string, from: nat, ignoreCase: bool): (r: Option<nat>)
    requires from <= |s|
    ensures r.Some? ==> from <= r.value <= |s| && MatchesAt(s, pat, r.value, ignoreCase)
    ensures r.Some? ==> forall j: nat :: from <= j < r.value ==> !MatchesAt(s, pat, j, ignoreCase)
    ensures r.None? ==> forall j: nat :: from <= j ==> !MatchesAt(s, pat, j, ignoreCase)
    decreases |s| - from
  {
    if MatchesAt(s, pat, from, ignoreCase) then Some(from)
    else if from == |s| then None
    else IndexOf(s, pat, from + 1, ignoreCase)
  }

  /**
   * Reference definition of the global replace for a non-empty pattern, in the
   * shape of `RegExp.prototype[Symbol.replace]`: find the leftmost match, keep
   * the text before it, substitute, continue after the match.
   */
  function ReplaceByIndex(s: string, from: nat, pat: string, rep: string, ignoreCase: bool): string
    requires from <= |s| && |pat| > 0
    decreases |s| - from
  {
    match IndexOf(s, pat, from, ignoreCase)
    case None => s[from..]
    case Some(j) => s[from..j] + (Substitute(rep, s, j, |pat|) + ReplaceByIndex(s, j + |pat|, pat, rep, ignoreCase))
  }

  /** One step of the scan: a match at the scan position is substituted. */
  lemma ReplaceFromAtMatch(s: string, from: nat, pat: string, rep: string, ignoreCase: bool)
    requires from <= |s| && |pat| > 0
    requires MatchesAt(s, pat, from, ignoreCase)
    ensures ReplaceFrom(s, from, pat, rep, ignoreCase)
         == Substitute(rep, s, from, |pat|) + ReplaceFrom(s, from + |pat|, pat, rep, ignoreCase)
    ensures ReplaceByIndex(s, from, pat, rep, ignoreCase)
         == Substitute(rep, s, from, |pat|) + ReplaceByIndex(s, from + |pat|, pat, rep, ignoreCase)
  {
    assert IndexOf(s, pat, from, ignoreCase) == Some(from);
    assert s[from..from] == "";
  }

  /** One step of the scan: without a match the character is copied. */
  lemma ReplaceFromPastChar(s: string, from: nat, pat: string, rep: string, ignoreCase: bool)
    requires from < |s| && |pat| > 0
    requires !MatchesAt(s, pat, from, ignoreCase)
    ensures ReplaceFrom(s, from, pat, rep, ignoreCase)
         == [s[from]] + ReplaceFrom(s, from + 1, pat, rep, ignoreCase)
  {
  }

  lemma ConsAppend(a: char, b: string, c: string, x: string)
    requires c == [a] + b
    ensures c + x == [a] + (b + x)
  {
  }

  /** The same step for the reference: the leftmost match lies further on. */
  lemma ReplaceByIndexPastChar(s: string, from: nat, pat: string, rep: string, ignoreCase: bool)
    requires from < |s| && |pat| > 0
    requires !MatchesAt(s, pat, from, ignoreCase)
    ensures ReplaceByIndex(s, from, pat, rep, ignoreCase)
         == [s[from]] + ReplaceByIndex(s, from + 1, pat, rep, ignoreCase)
  {
    var idx := IndexOf(s, pat, from + 1, ignoreCase);
    assert IndexOf(s, pat, from, ignoreCase) == idx;
    if idx.None? {
      ReplaceByIndexNoMatch(s, from, pat, rep, ignoreCase);
      ReplaceByIndexNoMatch(s, from + 1, pat, rep, ignoreCase);
      assert s[from..] == [s[from]] + s[from + 1..];
    } else {
      ReplaceByIndexAhead(s, from, idx.value, pat, rep, ignoreCase);
    }
  }

  /** Without a match ahead the reference copies the rest of the text. */
  lemma ReplaceByIndexNoMatch(s: string, from: nat, pat: string, rep: string, ignoreCase: bool)
    requires from <= |s| && |pat| > 0
    requires IndexOf(s, pat, from, ignoreCase).None?
    ensures ReplaceByIndex(s, from, pat, rep, ignoreCase) == s[from..]
  {
  }

  /** With the leftmost match at `j > from`, the character at `from` is copied before the rest. */
  lemma ReplaceByIndexAhead(s: string, from: nat, j: nat, pat: string, rep: string, ignoreCase: bool)
    requires from < j <= |s| && |pat| > 0
    requires IndexOf(s, pat, from, ignoreCase) == Some(j)
    requires IndexOf(s, pat, from + 1, ignoreCase) == Some(j)
    ensures ReplaceByIndex(s, from, pat, rep, ignoreCase)
         == [s[from]] + ReplaceByIndex(s, from + 1, pat, rep, ignoreCase)
  {
    ReplaceByIndexAt(s, from, j, pat, rep, ignoreCase);
    ReplaceByIndexAt(s, from + 1, j, pat, rep, ignoreCase);
    var tail := Substitute(rep, s, j, |pat|) + ReplaceByIndex(s, j + |pat|, pat, rep, ignoreCase);
    assert s[from..j] == [s[from]] + s[from + 1..j];
    ConsAppend(s[from], s[from + 1..j], s[from..j], tail);
  }

  /** The reference keeps the text up to the leftmost match, then substitutes and goes on. */
  lemma ReplaceByIndexAt(s: string, from: nat, j: nat, pat: string, rep: string, ignoreCase: bool)
    requires from <= j <= |s| && |pat| > 0
    requires IndexOf(s, pat, from, ignoreCase) == Some(j)
    ensures j + |pat| <= |s|
    ensures ReplaceByIndex(s, from, pat, rep, ignoreCase)
         == s[from..j] + (Substitute(rep, s, j, |pat|) + ReplaceByIndex(s, j + |pat|, pat, rep, ignoreCase))
  {
  }

  /** The position-by-position scan and the leftmost-match reference agree. */
  lemma {:induction false} ReplaceFromIsReference(s: string, from: nat, pat: string, rep: string, ignoreCase: bool)
    requires from <= |s| && |pat| > 0
    ensures ReplaceFrom(s, from, pat, rep, ignoreCase) == ReplaceByIndex(s, from, pat, rep, ignoreCase)
    decreases |s| - from
  {
    if MatchesAt(s, pat, from, ignoreCase) {
      ReplaceFromAtMatch(s, from, pat, rep, ignoreCase);
      ReplaceFromIsReference(s, from + |pat|, pat, rep, ignoreCase);
    } else if from < |s| {
      ReplaceFromPastChar(s, from, pat, rep, ignoreCase);
      ReplaceByIndexPastChar(s, from, pat, rep, ignoreCase);
      ReplaceFromIsReference(s, from + 1, pat, rep, ignoreCase);
    } else {
      assert IndexOf(s, pat, from, ignoreCase).None?;
    }
  }

  /** `ReplaceAll` is the leftmost-match replacement for every non-empty pattern. */
  lemma ReplaceAllIsReference(s: string, pat: string, rep: string, ignoreCase: bool)
    requires |pat| > 0
    ensures ReplaceAll(s, pat, rep, ignoreCase) == ReplaceByIndex(s, 0, pat, rep, ignoreCase)
  {
    ReplaceFromIsReference(s, 0, pat, rep, ignoreCase);
  }

  /** Filter words that do not occur leave `SanitizeWords` with nothing to do. */
  lemma {:induction false} SanitizeWordsNoMatch(t: string, words: seq<string>, rep: string)
    requires forall i :: 0 <= i < |words| ==> !Occurs(t, words[i], true)
    ensures SanitizeWords(t, words, rep) == t
    decreases |words|
  {
    if |words| > 0 {
      OccursLowered(t, words[0]);
      SanitizeWordsNoMatch(t, words[1..], rep);
    }
  }

  /** Plain sequential global replacement of each word, in list order, ignoring case. */
  function ReplaceEach(text: string, words: seq<string>, rep: string): string
    decreases |words|
  {
    if |words| == 0 then text
    else ReplaceEach(ReplaceAll(text, words[0], rep, true), words[1..], rep)
  }

  /** Under the `i` flag a lower-cased word matches, and so replaces, exactly where the word does. */
  lemma {:induction false} ReplaceFromLowered(s: string, i: nat, w: string, rep: string)
    requires i <= |s|
    ensures ReplaceFrom(s, i, LowerAscii(w), rep, true) == ReplaceFrom(s, i, w, rep, true)
    decreases |s| - i
  {
    MatchesAtLowered(s, w, i);
    if MatchesAt(s, w, i, true) && |w| > 0 {
      ReplaceFromLowered(s, i + |w|, w, rep);
    } else if i < |s| {
      ReplaceFromLowered(s, i + 1, w, rep);
    }
  }

  /**
   * `sanitizeText`'s loop is sequential replace-all: the `match` guard only
   * skips replacements that would change nothing, and lower-casing the word
   * changes nothing under the `i` flag.
   */
  lemma {:induction false} SanitizeWordsIsReplaceEach(text: string, words: seq<string>, rep: string)
    ensures SanitizeWords(text, words, rep) == ReplaceEach(text, words, rep)
    decreases |words|
  {
    if |words| > 0 {
      var w := words[0];
      ReplaceFromLowered(text, 0, w, rep);
      OccursLowered(text, w);
      if !Occurs(text, w, true) {
        ReplaceAllNoMatch(text, w, rep, true);
      }
      SanitizeWordsIsReplaceEach(ReplaceAll(text, w, rep, true), words[1..], rep);
    }
  }

  /** Text that `needsSanit` passes comes out of `sanitizeText` unchanged, whatever the replacement. */
  lemma SanitizeTextUnflagged(t: string, replacement: Value, words: seq<string>)
    requires ValidFilter(words)
    requires !NeedsSanit(t, words)
    ensures SanitizeText(Str(t), replacement, words) == Ok(t)
  {
    SanitizeWordsNoMatch(t, words, if replacement.Str? then replacement.s else DefaultReplacement);
  }

  /**
   * `sanitizeText.ts` on a string is sequential case-insensitive replace-all of
   * each word, in list order, with the replacement or "***" when it is not a string.
   */
  lemma SanitizeTextIsReplaceEach(t: string, replacement: Value, words: seq<string>)
    requires ValidFilter(words)
    ensures SanitizeText(Str(t), replacement, words)
         == Ok(ReplaceEach(t, words, if replacement.Str? then replacement.s else DefaultReplacement))
  {
    SanitizeWordsIsReplaceEach(t, words, if replacement.Str? then replacement.s else DefaultReplacement);
  }

  /** An occurrence survives any surrounding text. */
  lemma OccursPadded(t: string, w: string, p: string, q: string, ignoreCase: bool)
    requires Occurs(t, w, ignoreCase)
    ensures Occurs(p + t + q, w, ignoreCase)
  {
    var i: nat :| i <= |t| && MatchesAt(t, w, i, ignoreCase);
    var s := p + t + q;
    forall k | 0 <= k < |w| ensures CharMatch(s[|p| + i + k], w[k], ignoreCase) {
      assert s[|p| + i + k] == t[i + k];
    }
    assert MatchesAt(s, w, |p| + i, ignoreCase);
  }

  /** Flagged text stays flagged inside any longer text. */
  lemma NeedsSanitPadded(t: string, p: string, q: string, words: seq<string>)
    requires ValidFilter(words)
    requires NeedsSanit(t, words)
    ensures NeedsSanit(p + t + q, words)
  {
    var i :| 0 <= i < |words| && Occurs(t, words[i], true);
    OccursPadded(t, words[i], p, q, true);
  }

  /** `sanitizeText.js` cannot change a text without a slash. */
  lemma {:induction false} LegacyWordsNoSlash(t: string, words: seq<string>, rep: string)
    requires '/' !in t
    ensures LegacySanitizeWords(Str(t), words, rep) == Ok(Str(t))
    decreases |words|
  {
    if |words| > 0 {
      var pat := SlashPattern(words[0]);
      assert !Occurs(t, pat, false) by {
        forall i: nat ensures !MatchesAt(t, pat, i, false) {
          if i < |t| {
            assert pat[0] == '/' && t[i] != '/';
          }
        }
      }
      ReplaceAllNoMatch(t, pat, rep, false);
      LegacyWordsNoSlash(t, words[1..], rep);
    }
  }

  lemma LegacyNoSlash(t: string, replacement: Value, words: seq<string>)
    requires ValidFilter(words)
    requires '/' !in t
    ensures LegacySanitizeText(Str(t), replacement, words) == Ok(Str(t))
  {
    LegacyWordsNoSlash(t, words, if replacement.Str? then replacement.s else LegacyDefaultReplacement);
  }

  /**
   * Reference for `sanitizeText.js`: for each word in list order, the
   * leftmost-match global replacement of `/word/`, matching case exactly.
   */
  function LegacyReference(t: string, words: seq<string>, rep: string): string
    decreases |words|
  {
    if |words| == 0 then t
    else LegacyReference(ReplaceByIndex(t, 0, SlashPattern(words[0]), rep, false), words[1..], rep)
  }

  lemma {:induction false} LegacyWordsIsReference(t: string, words: seq<string>, rep: string)
    ensures LegacySanitizeWords(Str(t), words, rep) == Ok(Str(LegacyReference(t, words, rep)))
    decreases |words|
  {
    if |words| > 0 {
      var pat := SlashPattern(words[0]);
      ReplaceAllIsReference(t, pat, rep, false);
      LegacyWordsIsReference(ReplaceAll(t, pat, rep, false), words[1..], rep);
    }
  }

  /**
   * `sanitizeText.js` on a string replaces every case-exact `/word/` in list
   * order, with the replacement or "-" when it is not a string.
   */
  lemma LegacySanitizeTextIsReference(t: string, replacement: Value, words: seq<string>)
    requires ValidFilter(words)
    ensures LegacySanitizeText(Str(t), replacement, words)
         == Ok(Str(LegacyReference(t, words, if replacement.Str? then replacement.s else LegacyDefaultReplacement)))
  {
    LegacyWordsIsReference(t, words, if replacement.Str? then replacement.s else LegacyDefaultReplacement);
  }

  /** Without a case-exact `/word/` in the text, `sanitizeText.js` changes nothing. */
  lemma {:induction false} LegacyWordsNoMatch(t: string, words: seq<string>, rep: string)
    requires forall i :: 0 <= i < |words| ==> !Occurs(t, SlashPattern(words[i]), false)
    ensures LegacySanitizeWords(Str(t), words, rep) == Ok(Str(t))
    decreases |words|
  {
    if |words| > 0 {
      ReplaceAllNoMatch(t, SlashPattern(words[0]), rep, false);
      LegacyWordsNoMatch(t, words[1..], rep);
    }
  }

  lemma LegacyUnmatched(t: string, replacement: Value, words: seq<string>)
    requires ValidFilter(words)
    requires forall i :: 0 <= i < |words| ==> !Occurs(t, SlashPattern(words[i]), false)
    ensures LegacySanitizeText(Str(t), replacement, words) == Ok(Str(t))
  {
    LegacyWordsNoMatch(t, words, if replacement.Str? then replacement.s else LegacyDefaultReplacement);
  }

  /** A filter word written without its slashes is left alone by `sanitizeText.js`. */
  lemma LegacyBareWord(words: seq<string>, k: nat, replacement: Value)
    requires ValidFilter(words)
    requires k < |words| && '/' !in words[k]
    ensures LegacySanitizeText(Str(words[k]), replacement, words) == Ok(Str(words[k]))
  {
    LegacyNoSlash(words[k], replacement, words);
  }

  /** `sanitizeText.js` only rewrites a word between slashes, and only in its own case. */
  lemma LegacyExamples()
    ensures LegacySanitizeText(Str("/bad/"), Undefined, ["bad"]) == Ok(Str("-"))
    ensures LegacySanitizeText(Str("/BAD/"), Undefined, ["bad"]) == Ok(Str("/BAD/"))
  {
    var pat := SlashPattern("bad");
    assert pat == "/bad/";
    assert MatchesAt("/bad/", pat, 0, false);
    SubstituteLiteral("-", "/bad/", 0, 5);
    assert ReplaceFrom("/bad/", 5, pat, "-", false) == "";
    assert ReplaceAll("/bad/", pat, "-", false) == "-" + "";
    assert !Occurs("/BAD/", pat, false) by {
      forall i: nat ensures !MatchesAt("/BAD/", pat, i, false) {
        if i == 0 {
          assert "/BAD/"[1] != pat[1];
        }
      }
    }
    ReplaceAllNoMatch("/BAD/", pat, "-", false);
  }

  /** `sanitizeText.ts` ignores case and needs no slashes; the default replacement is "***". */
  lemma SanitizeExample()
    ensures SanitizeText(Str("/BAD/"), Undefined, ["bad"]) == Ok("/***/")
  {
    var s := "/BAD/";
    var pat := LowerAscii("bad");
    assert pat == "bad";
    assert !MatchesAt(s, pat, 0, true) by {
      assert FoldCase(s[0]) != FoldCase(pat[0]);
    }
    assert MatchesAt(s, pat, 1, true);
    SubstituteLiteral("***", s, 1, 3);
    assert !MatchesAt(s, pat, 4, true);
    assert ReplaceFrom(s, 4, pat, "***", true) == "/";
    assert ReplaceFrom(s, 1, pat, "***", true) == "***" + "/";
    assert ReplaceFrom(s, 0, pat, "***", true) == "/" + "***/";
    assert Occurs(s, pat, true);
    assert SanitizeWords(s, ["bad"], "***") == SanitizeWords("/***/", [], "***");
  }
}

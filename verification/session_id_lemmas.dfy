/** Properties of the two session-ID recognisers and of the generator. */
module SessionIdLemmas {
  import opened Wrappers
  import opened Chars
  import opened JsValue
  import opened Sanitize
  import opened SessionId

  /** A canonical ID as `crypto.randomUUID` prints it (lower-case, version 4). */
  const SampleId: string := "123e4567-e89b-42d3-a456-426614174000"

  lemma SampleIdIsUuid()
    ensures IsUuidText(SampleId)
  {
    forall k | 0 <= k < UuidLength
      ensures if IsDashIndex(k) then SampleId[0 + k] == '-' else IsHexDigit(SampleId[0 + k])
    {
    }
  }

  /** Every string in the layout is accepted by both recognisers. */
  lemma CanonicalIsValid(s: string)
    requires IsUuidText(s)
    ensures IsValidSessId(Str(s))
    ensures MatchSessIdAnchored(Str(s)) == Some(s)
  {
    assert BoundedUuidAt(s, 0);
  }

  /** Nothing shorter than the 36-character layout is accepted. */
  lemma ShortIsInvalid(v: Value)
    requires v.Str? && |v.s| < UuidLength
    ensures !IsValidSessId(v)
    ensures MatchSessIdAnchored(v) == None
  {
  }

  /** Whatever the anchored recogniser accepts, the unanchored one accepts too. */
  lemma AnchoredImpliesUnanchored(v: Value)
    ensures MatchSessIdAnchored(v).Some? ==> IsValidSessId(v)
  {
    if MatchSessIdAnchored(v).Some? {
      CanonicalIsValid(v.s);
    }
  }

  /**
   * The recognisers differ: an ID with surrounding blanks passes the unanchored
   * pattern of `sessionID.ts` and fails the anchored one of `sessionID.js`.
   */
  lemma PaddedIdSplitsRecognisers()
    ensures IsValidSessId(Str(" " + SampleId + " "))
    ensures MatchSessIdAnchored(Str(" " + SampleId + " ")) == None
  {
    var s := " " + SampleId + " ";
    SampleIdIsUuid();
    forall k | 0 <= k < UuidLength
      ensures if IsDashIndex(k) then s[1 + k] == '-' else IsHexDigit(s[1 + k])
    {
      assert s[1 + k] == SampleId[0 + k];
    }
    assert BoundedUuidAt(s, 1);
  }

  /** Padding by non-word characters keeps a string valid for the unanchored recogniser. */
  lemma PaddedStaysValid(s: string, p: string, q: string)
    requires IsValidSessId(Str(s))
    requires p == [] || !IsWordChar(p[|p| - 1])
    requires q == [] || !IsWordChar(q[0])
    ensures IsValidSessId(Str(p + s + q))
  {
    var i: nat :| BoundedUuidAt(s, i);
    var t := p + s + q;
    assert forall k :: 0 <= k < |s| ==> t[|p| + k] == s[k];
    forall k | 0 <= k < UuidLength
      ensures if IsDashIndex(k) then t[|p| + i + k] == '-' else IsHexDigit(t[|p| + i + k])
    {
      assert t[|p| + (i + k)] == s[i + k];
    }
    if i == 0 && p != [] {
      assert t[|p| + i - 1] == p[|p| - 1];
    } else if i > 0 {
      assert t[|p| + i - 1] == s[i - 1];
    }
    if i + UuidLength == |s| && q != [] {
      assert t[|p| + i + UuidLength] == q[0];
    } else if i + UuidLength < |s| {
      assert t[|p| + (i + UuidLength)] == s[i + UuidLength];
    }
    assert BoundedUuidAt(t, |p| + i);
  }

  /** A word character glued to the front defeats the leading `\b`. */
  lemma WordPrefixRejected()
    ensures !IsValidSessId(Str("a" + SampleId))
  {
    var s := "a" + SampleId;
    forall i: nat
      ensures !BoundedUuidAt(s, i)
    {
      if i == 0 {
        assert s[0 + 8] == SampleId[7];
      } else if i == 1 {
        assert IsWordChar(s[i - 1]);
      }
    }
  }

  /**
   * When the supply holds canonical IDs, a generated ID passes both recognisers
   * and the content filter.
   */
  lemma GeneratedIsValid(uuids: seq<string>, words: seq<string>)
    requires ValidFilter(words)
    requires forall k :: 0 <= k < |uuids| ==> IsUuidText(uuids[k])
    requires GenerateSessId(uuids, words).Some?
    ensures var id := GenerateSessId(uuids, words).value;
      IsValidSessId(Str(id)) && MatchSessIdAnchored(Str(id)) == Some(id) && !NeedsSanit(id, words)
  {
    var id := GenerateSessId(uuids, words).value;
    var k :| 0 <= k < |uuids| && uuids[k] == id;
    CanonicalIsValid(id);
  }
}

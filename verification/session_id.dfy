/**
 * Session identifiers: the two recognisers of the 8-4-4-4-12 hexadecimal layout
 * (section 3 of RFC 4122; neither checks the version or variant nibble) and the
 * filtered re-roll generator over a supply of `crypto.randomUUID` results.
 */
module SessionId {
  import opened Wrappers
  import opened Chars
  import opened JsValue
  import opened Sanitize

  const UuidLength := 36

  /** The hyphen positions of the textual layout. */
  predicate IsDashIndex(k: int) {
    k == 8 || k == 13 || k == 18 || k == 23
  }

  /** The 36 characters of `s` starting at `i` have the 8-4-4-4-12 hexadecimal layout. */
  predicate UuidShapeAt(s: string, i: nat) {
    && i + UuidLength <= |s|
    && forall k :: 0 <= k < UuidLength ==>
         if IsDashIndex(k) then s[i + k] == '-' else IsHexDigit(s[i + k])
  }

  /** A whole string in the textual layout. */
  predicate IsUuidText(s: string) {
    |s| == UuidLength && UuidShapeAt(s, 0)
  }

  predicate AllHex(t: string) {
    forall i :: 0 <= i < |t| ==> IsHexDigit(t[i])
  }

  /**
   * Anchored matching of hexadecimal runs of the given lengths joined by '-':
   * `^(\d|[a-fA-F]){8}-…-(\d|[a-fA-F]){12}$` for the lengths 8, 4, 4, 4, 12.
   */
  function MatchGroups(s: string, groups: seq<nat>): bool
    decreases |groups|
  {
    if |groups| == 0 then s == ""
    else
      var g := groups[0];
      g <= |s| && AllHex(s[..g]) &&
      (if |groups| == 1 then |s| == g
       else g < |s| && s[g] == '-' && MatchGroups(s[g + 1..], groups[1..]))
  }

  const SessionGroups: seq<nat> := [8, 4, 4, 4, 12]

  /**
   * `isValidSessID` of `sessionID.js`: `false` for a non-string, otherwise the
   * anchored match. `Some(m)` is a match array whose whole match is `m`; `None`
   * is `false` or `null`.
   */
  function MatchSessIdAnchored(v: Value): (r: Option<string>)
    ensures r.Some? <==> v.Str? && IsUuidText(v.s)
    ensures r.Some? ==> r.value == v.s
  {
    if !v.Str? then None
    else
      MatchGroupsIsLayout(v.s);
      if MatchGroups(v.s, SessionGroups) then Some(v.s) else None
  }

  /** The positional reading of `MatchGroups` on the suffix of `s` from `off`. */
  predicate GroupsAt(s: string, off: nat, groups: seq<nat>)
    decreases |groups|
  {
    if |groups| == 0 then off == |s|
    else
      var g := groups[0];
      off + g <= |s| &&
      (forall k :: off <= k < off + g ==> IsHexDigit(s[k])) &&
      (if |groups| == 1 then off + g == |s|
       else off + g < |s| && s[off + g] == '-' && GroupsAt(s, off + g + 1, groups[1..]))
  }

  lemma {:induction false} MatchGroupsAt(s: string, off: nat, groups: seq<nat>)
    requires off <= |s|
    ensures MatchGroups(s[off..], groups) <==> GroupsAt(s, off, groups)
    decreases |groups|
  {
    if |groups| > 0 {
      var g := groups[0];
      var t := s[off..];
      if off + g <= |s| {
        assert AllHex(t[..g]) <==> (forall k :: off <= k < off + g ==> IsHexDigit(s[k])) by {
          assert forall k :: 0 <= k < g ==> t[..g][k] == s[off + k];
        }
        if |groups| > 1 && off + g < |s| {
          assert t[g + 1..] == s[off + g + 1..];
          MatchGroupsAt(s, off + g + 1, groups[1..]);
        }
      }
    }
  }

  /** The grammar of the anchored pattern describes exactly the positional layout. */
  lemma MatchGroupsIsLayout(s: string)
    ensures MatchGroups(s, SessionGroups) <==> IsUuidText(s)
  {
    MatchGroupsAt(s, 0, SessionGroups);
    assert s[0..] == s;
    var G := SessionGroups;
    assert G[1..] == [4, 4, 4, 12] && G[1..][1..] == [4, 4, 12];
    assert G[1..][1..][1..] == [4, 12] && G[1..][1..][1..][1..] == [12];
    if GroupsAt(s, 0, G) {
      assert GroupsAt(s, 9, G[1..]);
      assert GroupsAt(s, 14, G[1..][1..]);
      assert GroupsAt(s, 19, G[1..][1..][1..]);
      assert GroupsAt(s, 24, G[1..][1..][1..][1..]);
      assert |s| == 36;
      forall k | 0 <= k < UuidLength
        ensures if IsDashIndex(k) then s[k] == '-' else IsHexDigit(s[k])
      {
      }
    }
    if IsUuidText(s) {
      forall k | 0 <= k < UuidLength && !IsDashIndex(k)
        ensures IsHexDigit(s[k])
      {
        assert IsHexDigit(s[0 + k]);
      }
      forall k | 0 <= k < UuidLength && IsDashIndex(k)
        ensures s[k] == '-'
      {
        assert s[0 + k] == '-';
      }
      assert IsDashIndex(8) && IsDashIndex(13) && IsDashIndex(18) && IsDashIndex(23);
      assert [4, 12][1..] == [12] && [4, 4, 12][1..] == [4, 12] && [4, 4, 4, 12][1..] == [4, 4, 12];
      assert GroupsAt(s, 24, [12]);
      assert GroupsAt(s, 19, [4, 12]);
      assert GroupsAt(s, 14, [4, 4, 12]);
      assert GroupsAt(s, 9, [4, 4, 4, 12]);
      assert GroupsAt(s, 0, G);
    }
  }

  /**
   * A match of `\b[0-9a-f]{8}\b-[0-9a-f]{4}-[0-9a-f]{4}-[0-9a-f]{4}-\b[0-9a-f]{12}\b`
   * (flag `i`) at `i`: the layout, with no word character just before or after it.
   * The two inner `\b` always hold between a hex digit and '-'.
   */
  predicate BoundedUuidAt(s: string, i: nat) {
    && UuidShapeAt(s, i)
    && (i == 0 || !IsWordChar(s[i - 1]))
    && (i + UuidLength == |s| || !IsWordChar(s[i + UuidLength]))
  }

  /** The leftmost match at or after `from`, as `String.prototype.match` finds it. */
  function FirstUuidMatch(s: string, from: nat): (r: Option<nat>)
    ensures r.Some? ==> from <= r.value && BoundedUuidAt(s, r.value)
    ensures r.Some? ==> forall j: nat :: from <= j < r.value ==> !BoundedUuidAt(s, j)
    ensures r.None? ==> forall j: nat :: from <= j ==> !BoundedUuidAt(s, j)
    decreases |s| - from
  {
    if from + UuidLength > |s| then None
    else if BoundedUuidAt(s, from) then Some(from)
    else FirstUuidMatch(s, from + 1)
  }

  /** `isValidSessID` of `sessionID.ts`: a string containing a bounded match anywhere. */
  function IsValidSessId(v: Value): (r: bool)
    ensures r <==> v.Str? && exists i: nat :: BoundedUuidAt(v.s, i)
  {
    v.Str? && FirstUuidMatch(v.s, 0).Some?
  }

  /**
   * `generateSessID`: take `crypto.randomUUID` results from the supply until one
   * passes the content filter. `None` is a supply exhausted before that happens
   * (the source recurses without bound).
   */
  function GenerateSessId(uuids: seq<string>, words: seq<string>): (r: Option<string>)
    requires ValidFilter(words)
    ensures r.Some? ==> !NeedsSanit(r.value, words)
    ensures r.Some? ==> exists k :: 0 <= k < |uuids| && uuids[k] == r.value
                                   && forall j :: 0 <= j < k ==> NeedsSanit(uuids[j], words)
    ensures r.None? <==> forall k :: 0 <= k < |uuids| ==> NeedsSanit(uuids[k], words)
    decreases |uuids|
  {
    if |uuids| == 0 then None
    else if !NeedsSanit(uuids[0], words) then Some(uuids[0])
    else
      var r := GenerateSessId(uuids[1..], words);
      assert forall k :: 1 <= k < |uuids| ==> uuids[k] == uuids[1..][k - 1];
      if r.Some? then
        var k :| 0 <= k < |uuids[1..]| && uuids[1..][k] == r.value
                 && forall j :: 0 <= j < k ==> NeedsSanit(uuids[1..][j], words);
        assert uuids[k + 1] == r.value;
        r
      else r
  }
}

/**
 * Six-letter lobby codes: the byte-to-letter map both lobby classes use, and the
 * `^\w{6}$` check of `isValidLobbyID`.
 */
module LobbyCode {
  import opened Chars
  import opened JsValue

  type Byte = b: int | 0 <= b < 256

  /** One `randomBytes(6)` draw. */
  type SixBytes = s: seq<Byte> | |s| == 6 witness [0, 0, 0, 0, 0, 0]

  const LobbyCodeChars: string := "ABCDEFGHIJKLMNOPQRSTUVWXYZ"
  const LobbyIdLength := 6

  /**
   * `Math.floor(mapRange(b, 0, 255, 0, 25))`: the floor of the linear map of
   * [0, 255] onto [0, 25].
   */
  function CharIndex(b: Byte): (k: nat)
    ensures k < |LobbyCodeChars|
    ensures k * 255 <= b * 25 < (k + 1) * 255
  {
    b * 25 / 255
  }

  function Letter(b: Byte): char {
    LobbyCodeChars[CharIndex(b)]
  }

  /** The letters of a draw, joined in order. */
  function CodeFromBytes(rb: seq<Byte>): (code: string)
    ensures |code| == |rb|
    ensures forall i :: 0 <= i < |rb| ==> code[i] == Letter(rb[i])
    ensures forall i :: 0 <= i < |code| ==> IsUpperLetter(code[i])
  {
    if |rb| == 0 then ""
    else [Letter(rb[0])] + CodeFromBytes(rb[1..])
  }

  /** Anchored `\w{n}`: exactly `n` characters remain, all word characters. */
  function MatchWordRun(s: string, n: nat): bool
    decreases n
  {
    if n == 0 then s == ""
    else |s| > 0 && IsWordChar(s[0]) && MatchWordRun(s[1..], n - 1)
  }

  /** `isValidLobbyID`: a string matching `^\w{6}$`. */
  function IsValidLobbyId(v: Value): (r: bool)
    ensures r <==> v.Str? && |v.s| == LobbyIdLength && forall i :: 0 <= i < |v.s| ==> IsWordChar(v.s[i])
  {
    if !v.Str? then false
    else
      WordRunIsLength(v.s, LobbyIdLength);
      MatchWordRun(v.s, LobbyIdLength)
  }

  lemma {:induction false} WordRunIsLength(s: string, n: nat)
    ensures MatchWordRun(s, n) <==> |s| == n && forall i :: 0 <= i < |s| ==> IsWordChar(s[i])
    decreases n
  {
    if n > 0 && |s| > 0 {
      WordRunIsLength(s[1..], n - 1);
      assert forall i :: 1 <= i < |s| ==> s[i] == s[1..][i - 1];
    }
  }

  /** Every code drawn from six bytes passes `isValidLobbyID`. */
  lemma CodeIsValidLobbyId(rb: SixBytes)
    ensures IsValidLobbyId(Str(CodeFromBytes(rb)))
  {
    var code := CodeFromBytes(rb);
    forall i | 0 <= i < |code|
      ensures IsWordChar(code[i])
    {
      assert IsUpperLetter(code[i]);
    }
  }

  /** The floored map gives 'Z' to byte 255 alone and 'A' to bytes 0 to 10, so 'Z' is eleven times rarer than 'A'. */
  lemma ZOnlyFromTopByte(b: Byte)
    ensures Letter(b) == 'Z' <==> b == 255
    ensures Letter(b) == 'A' <==> b <= 10
  {
    assert LobbyCodeChars[25] == 'Z';
    assert LobbyCodeChars[0] == 'A';
    assert forall k :: 0 <= k < 25 ==> LobbyCodeChars[k] != 'Z';
  }

  /** Every letter of the alphabet is produced by some byte. */
  lemma EveryLetterReachable(k: nat)
    requires k < |LobbyCodeChars|
    ensures exists b: Byte :: CharIndex(b) == k
  {
    var b := (k * 255 + 24) / 25;
    assert b * 25 <= k * 255 + 24;
    assert k * 255 <= b * 25;
    assert CharIndex(b) == k;
  }
}

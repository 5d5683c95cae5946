/**
 * JavaScript number <-> string conversions the core relies on: `String(n)` for
 * integral numbers and the global `parseInt` with no radix argument.
 */
module JsNumber {
  import opened Wrappers
  import opened Chars

  /** A digit of the given radix; `parseInt` only ever uses 10 or 16. */
  predicate IsRadixDigit(c: char, radix: nat) {
    if radix == 16 then IsHexDigit(c) else IsDigit(c)
  }

  predicate AllRadixDigits(ds: string, radix: nat) {
    forall i :: 0 <= i < |ds| ==> IsRadixDigit(ds[i], radix)
  }

  function DigitValue(c: char): (d: nat)
    requires IsHexDigit(c)
    ensures d < 16
    ensures IsDigit(c) <==> d < 10
  {
    if IsDigit(c) then c as int - '0' as int
    else if 'a' <= c <= 'f' then c as int - 'a' as int + 10
    else c as int - 'A' as int + 10
  }

  function DigitChar(d: nat): (c: char)
    requires d < 10
    ensures IsDigit(c) && DigitValue(c) == d
  {
    (d + '0' as int) as char
  }

  /** Numeric value of a run of digits, most significant digit first. */
  function DigitsValue(ds: string, radix: nat): nat
    requires AllRadixDigits(ds, radix)
  {
    if |ds| == 0 then 0
    else DigitsValue(ds[..|ds| - 1], radix) * radix + DigitValue(ds[|ds| - 1])
  }

  /** Length of the longest prefix of `s` made of digits of `radix`. */
  function DigitRunLength(s: string, radix: nat): (n: nat)
    ensures n <= |s|
    ensures AllRadixDigits(s[..n], radix)
    ensures n < |s| ==> !IsRadixDigit(s[n], radix)
  {
    if |s| == 0 || !IsRadixDigit(s[0], radix) then 0
    else
      var m := DigitRunLength(s[1..], radix);
      assert s[..m + 1] == [s[0]] + s[1..][..m];
      1 + m
  }

  /** `s` with its leading ECMAScript white space removed. */
  function TrimStart(s: string): (t: string)
    ensures |t| <= |s| && t == s[|s| - |t|..]
    ensures forall i :: 0 <= i < |s| - |t| ==> IsJsWhitespace(s[i])
    ensures t == [] || !IsJsWhitespace(t[0])
  {
    if |s| > 0 && IsJsWhitespace(s[0]) then TrimStart(s[1..]) else s
  }

  /**
   * `parseInt(s)` with the radix left undefined: skip white space, read an optional
   * sign, switch to radix 16 after a `0x`/`0X` prefix, then read the longest run of
   * digits. `None` stands for `NaN` (no digit at all).
   */
  function ParseInt(s: string): Option<int> {
    ParseTrimmed(TrimStart(s))
  }

  /** `parseInt` after its white space has been skipped: an optional sign, then the numeral. */
  function ParseTrimmed(t: string): Option<int> {
    var negative := |t| > 0 && t[0] == '-';
    match ParseUnsignedPart(t[SignLength(t)..])
    case None => None
    case Some(v) => var x: int := v; Some(if negative then -x else x)
  }

  /** 1 when `t` starts with a sign `parseInt` skips, 0 otherwise. */
  function SignLength(t: string): (k: nat)
    ensures k <= |t|
  {
    if |t| > 0 && (t[0] == '-' || t[0] == '+') then 1 else 0
  }

  /** The `0x`/`0X` prefix that switches an undefined radix to 16. */
  predicate HasHexPrefix(u: string) {
    |u| >= 2 && u[0] == '0' && (u[1] == 'x' || u[1] == 'X')
  }

  /** The longest run of digits after the sign, in radix 16 behind a hex prefix and 10 otherwise. */
  function ParseUnsignedPart(u: string): Option<nat> {
    var radix := if HasHexPrefix(u) then 16 else 10;
    var w := if HasHexPrefix(u) then u[2..] else u;
    var n := DigitRunLength(w, radix);
    if n == 0 then None else Some(DigitsValue(w[..n], radix))
  }

  /** `String(n)` for a natural number: its shortest decimal numeral. */
  function NatToDecimal(n: nat): (s: string)
    ensures |s| > 0 && AllRadixDigits(s, 10)
    ensures n == 0 <==> s == "0"
    ensures s[0] == '0' ==> n == 0
    ensures DigitsValue(s, 10) == n
    decreases n
  {
    if n < 10 then [DigitChar(n)]
    else
      var p := NatToDecimal(n / 10);
      var s := p + [DigitChar(n % 10)];
      assert s[..|s| - 1] == p;
      s
  }

  /** `String(n)` for an integral number (below 10^21 in magnitude in JavaScript). */
  function IntToDecimal(n: int): string {
    if n < 0 then "-" + NatToDecimal(-n) else NatToDecimal(n)
  }

  lemma {:induction false} DigitRunOfDigits(d: string, rest: string)
    requires AllRadixDigits(d, 10)
    requires rest == [] || !IsDigit(rest[0])
    ensures DigitRunLength(d + rest, 10) == |d|
    decreases |d|
  {
    if |d| > 0 {
      assert (d + rest)[1..] == d[1..] + rest;
      DigitRunOfDigits(d[1..], rest);
    } else {
      assert d + rest == rest;
    }
  }

  lemma TrimStartKeeps(s: string)
    requires |s| > 0 && !IsJsWhitespace(s[0])
    ensures TrimStart(s) == s
  {
  }

  /**
   * `parseInt` reads back what `String` wrote, and ignores whatever follows the
   * numeral as long as it does not extend it (a digit, or an `x` turning "0" into a
   * hexadecimal prefix).
   */
  lemma {:induction false} ParseIntOfDecimal(n: int, rest: string)
    requires rest == [] || !IsDigit(rest[0])
    requires n == 0 && rest != [] ==> rest[0] != 'x' && rest[0] != 'X'
    ensures ParseInt(IntToDecimal(n) + rest) == Some(n)
  {
    var m: nat := if n < 0 then -n else n;
    var u := NatToDecimal(m) + rest;
    DecimalPrefix(m, rest);
    UnsignedDecimal(u);
    SignedNumeral(u, m);
    var s := IntToDecimal(n) + rest;
    if n < 0 {
      assert s == "-" + u;
    } else {
      assert s == u;
    }
    TrimStartKeeps(s);
  }

  /** The digits of `m` followed by text that does not extend them. */
  lemma DecimalPrefix(m: nat, rest: string)
    requires rest == [] || !IsDigit(rest[0])
    requires m == 0 && rest != [] ==> rest[0] != 'x' && rest[0] != 'X'
    ensures var u := NatToDecimal(m) + rest;
      && IsDigit(u[0])
      && !HasHexPrefix(u)
      && DigitRunLength(u, 10) == |NatToDecimal(m)|
      && DigitsValue(u[..DigitRunLength(u, 10)], 10) == m
  {
    var d := NatToDecimal(m);
    var u := d + rest;
    assert u[0] == d[0];
    if |u| >= 2 && u[0] == '0' {
      assert m == 0 && d == "0";
      assert u[1] == rest[0];
    }
    DigitRunOfDigits(d, rest);
    assert u[..|d|] == d;
  }

  /** The numeral part of text starting with a decimal digit and no hex prefix. */
  lemma UnsignedDecimal(u: string)
    requires |u| > 0 && IsDigit(u[0]) && !HasHexPrefix(u)
    ensures DigitRunLength(u, 10) > 0
    ensures ParseUnsignedPart(u) == Some(DigitsValue(u[..DigitRunLength(u, 10)], 10))
  {
    assert IsRadixDigit(u[0], 10);
  }

  /** A numeral that does not start with a sign reads the same with and without a minus in front. */
  lemma SignedNumeral(u: string, v: nat)
    requires ParseUnsignedPart(u) == Some(v)
    requires |u| > 0 && u[0] != '-' && u[0] != '+'
    ensures var x: int := v; ParseTrimmed(u) == Some(x) && ParseTrimmed("-" + u) == Some(-x)
  {
    assert SignLength(u) == 0 && u[0..] == u;
    var m := "-" + u;
    assert m[0] == '-';
    assert SignLength(m) == 1 && m[1..] == u;
  }

  lemma ParseIntRoundTrip(n: int)
    ensures ParseInt(IntToDecimal(n)) == Some(n)
  {
    ParseIntOfDecimal(n, []);
    assert IntToDecimal(n) + [] == IntToDecimal(n);
  }

  /** A string without a single decimal digit parses to `NaN`. */
  lemma ParseIntWithoutDigits(s: string)
    requires forall i :: 0 <= i < |s| ==> !IsDigit(s[i])
    ensures ParseInt(s) == None
  {
    var t := TrimStart(s);
    var u := t[SignLength(t)..];
    if |u| > 0 {
      assert u[0] == s[|s| - |t| + SignLength(t)];
      assert !HasHexPrefix(u) && DigitRunLength(u, 10) == 0;
    }
  }

  lemma {:induction false} TrimStartSkips(ws: string, s: string)
    requires forall i :: 0 <= i < |ws| ==> IsJsWhitespace(ws[i])
    ensures TrimStart(ws + s) == TrimStart(s)
    decreases |ws|
  {
    if |ws| > 0 {
      assert (ws + s)[1..] == ws[1..] + s;
      TrimStartSkips(ws[1..], s);
    } else {
      assert ws + s == s;
    }
  }

  /** Leading white space never changes what `parseInt` reads. */
  lemma ParseIntSkipsWhitespace(ws: string, s: string)
    requires forall i :: 0 <= i < |ws| ==> IsJsWhitespace(ws[i])
    ensures ParseInt(ws + s) == ParseInt(s)
  {
    TrimStartSkips(ws, s);
  }
}

/**
 * The JavaScript string built-ins the client relies on: `String.prototype.trim`,
 * ASCII lower-casing and decimal rendering of numbers (`Number.prototype.toString`
 * and `padStart`).
 */
module Strings {

  /** The WhiteSpace and LineTerminator code points of ECMAScript: exactly what `trim` removes. */
  predicate IsJsWhitespace(c: char) {
    || c == '\t' || c == '\n' || c == '\U{000B}' || c == '\U{000C}' || c == '\r'
    || c == ' ' || c == '\U{00A0}' || c == '\U{1680}'
    || ('\U{2000}' <= c <= '\U{200A}')
    || c == '\U{2028}' || c == '\U{2029}' || c == '\U{202F}' || c == '\U{205F}'
    || c == '\U{3000}' || c == '\U{FEFF}'
  }

  predicate AllWhitespace(s: string) {
    forall k :: 0 <= k < |s| ==> IsJsWhitespace(s[k])
  }

  /** How many whitespace characters `s` starts with. */
  function LeadingWhitespace(s: string): (i: nat)
    ensures i <= |s|
    ensures forall k :: 0 <= k < i ==> IsJsWhitespace(s[k])
    ensures i < |s| ==> !IsJsWhitespace(s[i])
  {
    if |s| > 0 && IsJsWhitespace(s[0]) then 1 + LeadingWhitespace(s[1..]) else 0
  }

  /** Where the trailing whitespace of `s` starts. */
  function TrailingWhitespace(s: string): (j: nat)
    ensures j <= |s|
    ensures forall k :: j <= k < |s| ==> IsJsWhitespace(s[k])
    ensures j > 0 ==> !IsJsWhitespace(s[j - 1])
  {
    if |s| > 0 && IsJsWhitespace(s[|s| - 1]) then TrailingWhitespace(s[..|s| - 1]) else |s|
  }

  /** Drops the leading whitespace. */
  function TrimStart(s: string): string {
    s[LeadingWhitespace(s)..]
  }

  /** Drops the trailing whitespace. */
  function TrimEnd(s: string): string {
    s[..TrailingWhitespace(s)]
  }

  /** `s.trim()`. */
  function Trim(s: string): (r: string)
    ensures |r| <= |s|
    ensures r == [] || (!IsJsWhitespace(r[0]) && !IsJsWhitespace(r[|r| - 1]))
  {
    TrimEnd(TrimStart(s))
  }

  /** Trimming yields the empty string exactly when the input is whitespace only. */
  lemma TrimEmptyIff(s: string)
    ensures Trim(s) == [] <==> AllWhitespace(s)
  {
  }

  lemma TrimStartSkips(a: string, m: string)
    requires AllWhitespace(a)
    requires m == [] || !IsJsWhitespace(m[0])
    ensures TrimStart(a + m) == m
  {
    var s := a + m;
    assert s[|a|..] == m;
  }

  lemma TrimEndSkips(m: string, b: string)
    requires AllWhitespace(b)
    requires m == [] || !IsJsWhitespace(m[|m| - 1])
    ensures TrimEnd(m + b) == m
  {
    var s := m + b;
    assert s[..|m|] == m;
  }

  /**
   * An independent description of `trim`: whatever whitespace surrounds a core that neither
   * starts nor ends with whitespace, trimming returns exactly that core.
   */
  lemma TrimCharacterization(a: string, m: string, b: string)
    requires AllWhitespace(a) && AllWhitespace(b)
    requires m == [] || (!IsJsWhitespace(m[0]) && !IsJsWhitespace(m[|m| - 1]))
    ensures Trim(a + m + b) == m
  {
    if m == [] {
      assert a + m + b == a + b;
      assert AllWhitespace(a + b) by {
        forall k | 0 <= k < |a + b| ensures IsJsWhitespace((a + b)[k]) {
          if k >= |a| { assert (a + b)[k] == b[k - |a|]; }
        }
      }
      TrimEmptyIff(a + b);
    } else {
      assert a + m + b == a + (m + b);
      TrimStartSkips(a, m + b);
      TrimEndSkips(m, b);
    }
  }

  /** Trimming twice is trimming once. */
  lemma TrimIdempotent(s: string)
    ensures Trim(Trim(s)) == Trim(s)
  {
    var r := Trim(s);
    assert [] + r + [] == r;
    TrimCharacterization([], r, []);
  }

  /** `toLowerCase` on one character, for the ASCII letters. */
  function LowerChar(c: char): char {
    if 'A' <= c <= 'Z' then (c as int + 32) as char else c
  }

  /** `s.toLowerCase()`, for the ASCII letters. */
  function ToLowerAscii(s: string): (r: string)
    ensures |r| == |s|
    ensures forall k :: 0 <= k < |s| ==> r[k] == LowerChar(s[k])
  {
    seq(|s|, k requires 0 <= k < |s| => LowerChar(s[k]))
  }

  predicate IsDigit(c: char) {
    '0' <= c <= '9'
  }

  predicate AllDigits(s: string) {
    forall k :: 0 <= k < |s| ==> IsDigit(s[k])
  }

  function DigitChar(d: nat): (c: char)
    requires d < 10
    ensures IsDigit(c)
  {
    ('0' as int + d) as char
  }

  function DigitValue(c: char): (d: nat)
    requires IsDigit(c)
    ensures d < 10 && DigitChar(d) == c
  {
    c as int - '0' as int
  }

  /** The decimal rendering of a natural number, without leading zeros (`n.toString()`). */
  function DecimalString(n: nat): (r: string)
    ensures |r| >= 1 && AllDigits(r)
  {
    if n < 10 then [DigitChar(n)] else DecimalString(n / 10) + [DigitChar(n % 10)]
  }

  /** The value of a string of decimal digits (the inverse of `DecimalString`). */
  function ParseDecimal(s: string): nat
    requires AllDigits(s)
  {
    if s == [] then 0 else 10 * ParseDecimal(s[..|s| - 1]) + DigitValue(s[|s| - 1])
  }

  lemma {:induction false} DecimalRoundTrip(n: nat)
    ensures ParseDecimal(DecimalString(n)) == n
  {
    var s := DecimalString(n);
    if n >= 10 {
      DecimalRoundTrip(n / 10);
      assert s[..|s| - 1] == DecimalString(n / 10);
    }
  }

  function Pow10(k: nat): (p: nat)
    ensures p >= 1
  {
    if k == 0 then 1 else 10 * Pow10(k - 1)
  }

  /** A number with k + 1 decimal digits is rendered with k + 1 characters. */
  lemma {:induction false} DecimalStringLength(n: nat, k: nat)
    requires Pow10(k) <= n < Pow10(k + 1)
    ensures |DecimalString(n)| == k + 1
  {
    if k > 0 {
      DecimalStringLength(n / 10, k - 1);
    }
  }

  /** `n.toString()` for an integer: a minus sign before the digits of a negative number. */
  function IntString(i: int): (r: string)
    ensures i >= 0 ==> r == DecimalString(i)
  {
    if i < 0 then "-" + DecimalString(-i) else DecimalString(i)
  }

  /** `s.padStart(width, fill)`: `fill` repeated before `s` until it is `width` long. */
  function PadStart(s: string, width: nat, fill: char): (r: string)
    ensures |r| == if |s| >= width then |s| else width
    ensures r[|r| - |s|..] == s
    ensures forall k :: 0 <= k < |r| - |s| ==> r[k] == fill
  {
    if |s| >= width then s else seq(width - |s|, _ => fill) + s
  }
}

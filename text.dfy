/**
 * The small string conversions the display code relies on: JavaScript's
 * `String(n)` for integers, `padStart`, `parseInt(s, 10)` and Python's
 * substring test `sub in s`.
 */
module Text {
  import opened Wrappers

  predicate IsDigit(c: char) { '0' <= c <= '9' }

  predicate AllDigits(s: string) { forall i :: 0 <= i < |s| ==> IsDigit(s[i]) }

  /** The character of decimal digit `d`. */
  function DigitChar(d: int): (c: char)
    requires 0 <= d < 10
    ensures IsDigit(c) && c as int - '0' as int == d
  {
    ('0' as int + d) as char
  }

  /** `String(n)` for a non-negative integer: its decimal digits, without leading zeros. */
  function DecimalString(n: nat): (s: string)
    ensures 0 < |s| && AllDigits(s)
    ensures |s| == 1 <==> n < 10
    ensures s[0] != '0' || n == 0
    decreases n
  {
    if n < 10 then [DigitChar(n)] else DecimalString(n / 10) + [DigitChar(n % 10)]
  }

  /** The number a string of decimal digits denotes, most significant digit first. */
  function DigitsValue(s: string): nat
    requires AllDigits(s)
  {
    if s == [] then 0 else DigitsValue(s[..|s| - 1]) * 10 + (s[|s| - 1] as int - '0' as int)
  }

  /** `String(i)` for any integer, with JavaScript's leading minus sign. */
  function IntString(i: int): string {
    if i < 0 then "-" + DecimalString(-i) else DecimalString(i)
  }

  function Repeat(c: char, n: nat): (r: string)
    ensures |r| == n && forall i :: 0 <= i < n ==> r[i] == c
  {
    seq(n, _ => c)
  }

  /** `s.padStart(len, pad)` with a one-character pad string. */
  function PadStart(s: string, len: int, pad: char): string {
    if len <= |s| then s else Repeat(pad, len - |s|) + s
  }

  /** `String(n).padStart(2, "0")`, the two-digit fields of a clock reading. */
  function Pad2(n: int): string {
    PadStart(IntString(n), 2, '0')
  }

  /**
   * The characters `parseInt` skips before a number: ECMAScript's white space
   * (tab, vertical tab, form feed, the byte order mark and every Unicode space
   * separator) and its line terminators.
   */
  predicate IsJsSpace(c: char) {
    || c == '\t' || c == '\U{0B}' || c == '\U{0C}' || c == '\U{FEFF}'
    || c == '\n' || c == '\r' || c == '\U{2028}' || c == '\U{2029}'
    || c == ' ' || c == '\U{A0}' || c == '\U{1680}' || '\U{2000}' <= c <= '\U{200A}'
    || c == '\U{202F}' || c == '\U{205F}' || c == '\U{3000}'
  }

  /** `Number.MAX_SAFE_INTEGER`: up to this magnitude every integer is exactly a JavaScript number. */
  const MAX_SAFE_INTEGER := 9007199254740991

  function TrimStart(s: string): string {
    if 0 < |s| && IsJsSpace(s[0]) then TrimStart(s[1..]) else s
  }

  /** The longest prefix of `s` made of decimal digits. */
  function DigitPrefix(s: string): string {
    if 0 < |s| && IsDigit(s[0]) then [s[0]] + DigitPrefix(s[1..]) else []
  }

  /** `parseInt(s, 10)`: `None` stands for `NaN`. */
  function ParseInt(s: string): Option<int> {
    ParseSigned(TrimStart(s))
  }

  /** `parseInt` after the leading blanks: an optional sign, then the digits up to the first non-digit. */
  function ParseSigned(t: string): Option<int> {
    var negative := 0 < |t| && t[0] == '-';
    var body := if 0 < |t| && (t[0] == '-' || t[0] == '+') then t[1..] else t;
    var digits := DigitPrefix(body);
    if digits == [] then None
    else
      DigitPrefixDigits(body);
      var value: int := DigitsValue(digits);
      Some(if negative then -value else value)
  }

  /** Python's `sub in s` for strings. */
  predicate Contains(s: string, sub: string) {
    exists i :: 0 <= i <= |s| - |sub| && OccursAt(s, sub, i)
  }

  predicate OccursAt(s: string, sub: string, i: int)
    requires 0 <= i <= |s| - |sub|
  {
    s[i..i + |sub|] == sub
  }

  lemma {:induction false} DigitPrefixDigits(s: string)
    ensures AllDigits(DigitPrefix(s)) && |DigitPrefix(s)| <= |s|
  {
    if 0 < |s| && IsDigit(s[0]) {
      DigitPrefixDigits(s[1..]);
    }
  }

  /** Reading back the digits `String(n)` writes gives `n`. */
  lemma {:induction false} DecimalRoundTrip(n: nat)
    ensures DigitsValue(DecimalString(n)) == n
    decreases n
  {
    if n >= 10 {
      var s := DecimalString(n);
      assert s[..|s| - 1] == DecimalString(n / 10);
      DecimalRoundTrip(n / 10);
    }
  }

  /** A leading zero does not change the value of a digit string. */
  lemma {:induction false} LeadingZero(s: string)
    requires AllDigits(s)
    ensures AllDigits("0" + s) && DigitsValue("0" + s) == DigitsValue(s)
    decreases |s|
  {
    if s != [] {
      assert ("0" + s)[..|"0" + s| - 1] == "0" + s[..|s| - 1];
      LeadingZero(s[..|s| - 1]);
    }
  }

  /**
   * `String(n).padStart(2, "0")` of a non-negative `n` is at least two digits long,
   * exactly two below 100, and still denotes `n`.
   */
  lemma Pad2Value(n: nat)
    ensures AllDigits(Pad2(n)) && DigitsValue(Pad2(n)) == n
    ensures |Pad2(n)| >= 2 && (n < 100 ==> |Pad2(n)| == 2)
  {
    DecimalRoundTrip(n);
    var d := DecimalString(n);
    if |d| < 2 {
      assert Pad2(n) == "0" + d;
      LeadingZero(d);
    } else if n < 100 {
      assert n / 10 < 10;
    }
  }

  /** `parseInt` reads the digits of a prefix and stops at the first character that is not one. */
  lemma {:induction false} DigitPrefixStops(d: string, rest: string)
    requires AllDigits(d)
    requires rest == [] || !IsDigit(rest[0])
    ensures DigitPrefix(d + rest) == d
    decreases |d|
  {
    if d != [] {
      assert (d + rest)[1..] == d[1..] + rest;
      DigitPrefixStops(d[1..], rest);
    }
  }

  /**
   * `parseInt(String(n) + rest, 10) == n` whenever `rest` does not begin with a digit:
   * the parser and the printer are inverse.
   */
  lemma ParseIntRoundTrip(n: int, rest: string)
    requires rest == [] || !IsDigit(rest[0])
    ensures ParseInt(IntString(n) + rest) == Some(n)
  {
    if n < 0 {
      NegativeRoundTrip(-n, rest);
    } else {
      NaturalRoundTrip(n, rest);
    }
  }

  /** The round trip for a non-negative number. */
  lemma NaturalRoundTrip(m: nat, rest: string)
    requires rest == [] || !IsDigit(rest[0])
    ensures ParseInt(DecimalString(m) + rest) == Some(m)
  {
    var d := DecimalString(m);
    DecimalRoundTrip(m);
    ParseUnsigned(d, rest);
    NoLeadingBlank(d + rest);
  }

  /** The round trip for a negative number, written as a minus sign and the digits of `m`. */
  lemma NegativeRoundTrip(m: nat, rest: string)
    requires 0 < m
    requires rest == [] || !IsDigit(rest[0])
    ensures ParseInt("-" + DecimalString(m) + rest) == Some(-(m as int))
  {
    var d := DecimalString(m);
    DecimalRoundTrip(m);
    assert "-" + d + rest == "-" + (d + rest);
    ParseNegative(d, rest);
    NoLeadingBlank("-" + (d + rest));
  }

  /** Text that starts with a sign or a digit has no blanks to trim. */
  lemma NoLeadingBlank(t: string)
    requires t != [] && (t[0] == '-' || IsDigit(t[0]))
    ensures ParseInt(t) == ParseSigned(t)
  {
    assert !IsJsSpace(t[0]);
  }

  /** Digits, then a non-digit or nothing, parse as the digits' value. */
  lemma ParseUnsigned(d: string, rest: string)
    requires d != [] && AllDigits(d)
    requires rest == [] || !IsDigit(rest[0])
    ensures ParseSigned(d + rest) == Some(DigitsValue(d) as int)
    ensures IsDigit((d + rest)[0])
  {
    DigitPrefixStops(d, rest);
    assert (d + rest)[0] == d[0];
    assert IsDigit(d[0]);
  }

  /** A minus sign, digits, then a non-digit or nothing, parse as the negated value. */
  lemma ParseNegative(d: string, rest: string)
    requires d != [] && AllDigits(d)
    requires rest == [] || !IsDigit(rest[0])
    ensures ParseSigned("-" + (d + rest)) == Some(-(DigitsValue(d) as int))
  {
    DigitPrefixStops(d, rest);
    assert ("-" + (d + rest))[1..] == d + rest;
  }
}

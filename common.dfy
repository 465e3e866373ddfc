/**
 * Small shared vocabulary: an optional value, the C string helpers the
 * STM32 board configuration relies on, and decimal-prefix parsing.
 *
 * Characters stand for the bytes of a C string; `NUL` is its terminator.
 */
module Common {

  datatype Option<T> = None | Some(value: T)

  const NUL: char := '\0'

  /** `isSpaceOrTab`: a blank is a space or a horizontal tab. */
  predicate IsSpaceOrTab(c: char) {
    c == ' ' || c == '\t'
  }

  /** `tolower` in the C locale: only 'A'..'Z' change. */
  function LowerChar(c: char): char {
    if 'A' <= c <= 'Z' then (c as int + 32) as char else c
  }

  /** `toupper` in the C locale: only 'a'..'z' change. */
  function UpperChar(c: char): char {
    if 'a' <= c <= 'z' then (c as int - 32) as char else c
  }

  /** A string with every character passed through `tolower`. */
  function Lower(s: string): string {
    seq(|s|, i requires 0 <= i < |s| => LowerChar(s[i]))
  }

  /** `StringEqualsIgnoreCase`: equal once both sides are lower-cased. */
  predicate EqualsIgnoreCase(a: string, b: string) {
    Lower(a) == Lower(b)
  }

  predicate IsDigit(c: char) {
    '0' <= c <= '9'
  }

  function DigitValue(c: char): nat
    requires IsDigit(c)
  {
    c as int - '0' as int
  }

  /** The number of decimal digits at the front of `s`. */
  function DigitRun(s: string): (n: nat)
    ensures n <= |s|
    ensures forall i :: 0 <= i < n ==> IsDigit(s[i])
    ensures n < |s| ==> !IsDigit(s[n])
  {
    if |s| == 0 || !IsDigit(s[0]) then 0 else 1 + DigitRun(s[1..])
  }

  /** The value of a string of decimal digits, most significant first. */
  function DecimalValue(d: string): nat
    requires forall i :: 0 <= i < |d| ==> IsDigit(d[i])
  {
    if |d| == 0 then 0 else 10 * DecimalValue(d[..|d| - 1]) + DigitValue(d[|d| - 1])
  }

  /**
   * `StrToU32` as a decimal-prefix parse: the value of the leading digits of
   * `s`, wrapped to 32 bits; the number of digits consumed tells whether the
   * end pointer moved.  A sign and leading white space are not read, and a
   * value of 2^32 or more wraps rather than saturating.
   */
  function StrToU32(s: string): nat {
    DecimalValue(s[..DigitRun(s)]) % 0x1_0000_0000
  }

  /** The decimal text of `n`, as `%d`/`%u` prints it. */
  function DecimalText(n: nat): (d: string)
    ensures |d| > 0
    ensures forall i :: 0 <= i < |d| ==> IsDigit(d[i])
    ensures DecimalValue(d) == n
  {
    if n < 10 then [('0' as int + n) as char]
    else DecimalText(n / 10) + [('0' as int + n % 10) as char]
  }

  /** Lower-casing commutes with taking a suffix. */
  lemma LowerDrop(s: string, k: nat)
    requires k <= |s|
    ensures Lower(s)[k..] == Lower(s[k..])
  {
  }

  /** Lower-casing twice is lower-casing once. */
  lemma LowerIdempotent(s: string)
    ensures Lower(Lower(s)) == Lower(s)
  {
  }
}

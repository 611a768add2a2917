/**
 * ASCII character classes and decimal readings shared by both tokenizer generations.
 *
 * Every recogniser in the source advances by slicing one byte per character, which
 * panics on multi-byte UTF-8 input. The model therefore works on ASCII text, where a
 * character is a byte, span offsets count characters, and Rust's Unicode predicates
 * `char::is_whitespace`, `char::is_numeric`, `char::is_alphabetic` and
 * `str::to_lowercase` coincide with the definitions below.
 */
module Ascii {

  predicate IsAscii(s: seq<char>) {
    forall i :: 0 <= i < |s| ==> (s[i] as int) < 128
  }

  /** `char::is_whitespace` on ASCII: space and the controls U+0009 to U+000D. */
  predicate IsWhitespace(c: char) {
    c == ' ' || ('\t' <= c <= '\r')
  }

  /** `char::is_numeric` on ASCII. */
  predicate IsDigit(c: char) {
    '0' <= c <= '9'
  }

  /** `char::is_alphabetic` on ASCII. */
  predicate IsAlphabetic(c: char) {
    ('a' <= c <= 'z') || ('A' <= c <= 'Z')
  }

  function ToLower(c: char): (r: char)
    ensures IsAlphabetic(c) <==> IsAlphabetic(r)
    ensures !('A' <= r <= 'Z')
    ensures !('A' <= c <= 'Z') ==> r == c
  {
    if 'A' <= c <= 'Z' then (c as int + 32) as char else c
  }

  /** `s.to_lowercase().starts_with(lit)` for ASCII `s` and a lower-case literal `lit`. */
  predicate StartsWithIgnoreCase(s: seq<char>, lit: seq<char>) {
    |lit| <= |s| && forall i :: 0 <= i < |lit| ==> ToLower(s[i]) == lit[i]
  }

  predicate AllDigits(s: seq<char>) {
    forall i :: 0 <= i < |s| ==> IsDigit(s[i])
  }

  function DigitValue(c: char): (d: nat)
    requires IsDigit(c)
    ensures d < 10
  {
    c as int - '0' as int
  }

  function DigitChar(d: nat): (c: char)
    requires d < 10
    ensures IsDigit(c) && DigitValue(c) == d
  {
    ('0' as int + d) as char
  }

  /** The number a string of decimal digits denotes, most significant digit first. */
  function DecimalValue(s: seq<char>): nat
    requires AllDigits(s)
    decreases |s|
  {
    if |s| == 0 then 0 else DecimalValue(s[..|s| - 1]) * 10 + DigitValue(s[|s| - 1])
  }

  /** The shortest decimal spelling of `n`, as Rust's `u32` formatting prints it. */
  function DecimalString(n: nat): (s: seq<char>)
    ensures AllDigits(s) && |s| > 0
    decreases n
  {
    if n < 10 then [DigitChar(n)] else DecimalString(n / 10) + [DigitChar(n % 10)]
  }

  /** Reading back the spelling of a number gives the number. */
  lemma {:induction false} DecimalRoundTrip(n: nat)
    ensures DecimalValue(DecimalString(n)) == n
    decreases n
  {
    var s := DecimalString(n);
    if n >= 10 {
      DecimalRoundTrip(n / 10);
      assert s[..|s| - 1] == DecimalString(n / 10);
    }
  }

  /** A run of length `k` at the front of `s` whose characters all satisfy `accept`, followed by the end or a rejected character. */
  function LeadingRun(accept: char -> bool, s: seq<char>): (k: nat)
    ensures k <= |s|
    ensures forall i :: 0 <= i < k ==> accept(s[i])
    ensures k < |s| ==> !accept(s[k])
    decreases |s|
  {
    if |s| == 0 || !accept(s[0]) then 0 else 1 + LeadingRun(accept, s[1..])
  }

}

/**
 * Decimal text of unsigned integers as Rust writes and reads it:
 * `format!("{}", n)` for a `usize` and `str::parse::<usize>()`.
 */
module Decimal {
  import opened Wrappers

  /** Largest `usize` on a 64-bit target. */
  const USIZE_MAX: nat := 0xFFFF_FFFF_FFFF_FFFF

  predicate IsDigit(c: char)
  {
    '0' <= c <= '9'
  }

  predicate AllDigits(s: string)
  {
    forall i :: 0 <= i < |s| ==> IsDigit(s[i])
  }

  function DigitValue(c: char): nat
    requires IsDigit(c)
  {
    c as int - '0' as int
  }

  function DigitChar(d: nat): (c: char)
    requires d < 10
    ensures IsDigit(c) && DigitValue(c) == d
  {
    ('0' as int + d) as char
  }

  /** The number a string of decimal digits denotes, most significant digit first. */
  function DigitsValue(s: string): nat
    requires AllDigits(s)
  {
    if s == [] then 0 else 10 * DigitsValue(s[..|s| - 1]) + DigitValue(s[|s| - 1])
  }

  /** `n` in decimal, without leading zeros. */
  function NatToDecimal(n: nat): (s: string)
    ensures |s| >= 1 && AllDigits(s)
    ensures DigitsValue(s) == n
    ensures |s| > 1 ==> s[0] != '0'
    decreases n
  {
    if n < 10 then
      [DigitChar(n)]
    else
      var prefix := NatToDecimal(n / 10);
      var s := prefix + [DigitChar(n % 10)];
      assert s[..|s| - 1] == prefix;
      s
  }

  /**
   * `str::parse::<usize>`: an optional leading '+', then at least one
   * decimal digit and nothing else; values above `USIZE_MAX` overflow.
   * Leading zeros are accepted.
   */
  function ParseUsize(s: string): (r: Option<nat>)
    ensures r.Some? ==> r.value <= USIZE_MAX
  {
    var digits := if |s| > 0 && s[0] == '+' then s[1..] else s;
    if digits == [] || !AllDigits(digits) then None
    else if DigitsValue(digits) <= USIZE_MAX then Some(DigitsValue(digits))
    else None
  }

  /** Parsing reads back every formatted `usize`. */
  lemma ParseFormatRoundTrip(n: nat)
    requires n <= USIZE_MAX
    ensures ParseUsize(NatToDecimal(n)) == Some(n)
  {
    var s := NatToDecimal(n);
    assert IsDigit(s[0]);
  }

  /** Formatted numbers above `USIZE_MAX` are refused as overflowing. */
  lemma ParseRejectsOverflow(n: nat)
    requires n > USIZE_MAX
    ensures ParseUsize(NatToDecimal(n)) == None
  {
    var s := NatToDecimal(n);
    assert IsDigit(s[0]);
  }

  /** What `parse` accepts and refuses besides canonical decimal text. */
  lemma ParseUsizeExamples()
    ensures ParseUsize("05") == Some(5)
    ensures ParseUsize("+5") == Some(5)
    ensures ParseUsize("") == None
    ensures ParseUsize("+") == None
    ensures ParseUsize("-1") == None
    ensures ParseUsize("1a") == None
  {
    assert "05"[..1] == "0" && "0"[..0] == "";
    assert "+5"[1..] == "5";
    assert !IsDigit("-1"[0]);
    assert !IsDigit("1a"[1]);
  }
}

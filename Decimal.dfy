/**
 * Decimal text and numbers: std::to_wstring of an unsigned value and the
 * part of std::stoi the model covers (a non-empty run of decimal digits).
 */
module Decimal {
  import opened Wrappers

  /** The largest value std::stoi returns (INT_MAX for a 32-bit int). */
  const IntMax: nat := 0x7FFF_FFFF

  predicate IsDigit(c: char) { '0' <= c <= '9' }

  predicate AllDigits(s: string) { forall i :: 0 <= i < |s| ==> IsDigit(s[i]) }

  function DigitChar(d: nat): (c: char)
    requires d < 10
    ensures IsDigit(c) && c as int - '0' as int == d
  {
    ('0' as int + d) as char
  }

  function DigitValue(c: char): nat
    requires IsDigit(c)
  {
    c as int - '0' as int
  }

  /** The number a string of decimal digits denotes (leading zeros allowed). */
  function Value(s: string): nat
    requires AllDigits(s)
    decreases |s|
  {
    if s == [] then 0 else Value(s[..|s| - 1]) * 10 + DigitValue(s[|s| - 1])
  }

  /** std::to_wstring of an unsigned value: its digits, most significant first, without leading zeros. */
  function Render(n: nat): (s: string)
    ensures |s| >= 1 && AllDigits(s)
    ensures |s| > 1 ==> s[0] != '0'
    decreases n
  {
    if n < 10 then [DigitChar(n)] else Render(n / 10) + [DigitChar(n % 10)]
  }

  /**
   * std::stoi on a token: a non-empty run of digits whose value fits in an int
   * yields that value; any other token makes stoi throw (None).
   */
  function ParseInt(s: string): (r: Option<nat>)
    ensures r.Some? ==> r.value <= IntMax
  {
    if s != [] && AllDigits(s) && Value(s) <= IntMax then Some(Value(s)) else None
  }

  /** Rendering then reading the digits gives the number back. */
  lemma {:induction false} ValueOfRender(n: nat)
    ensures Value(Render(n)) == n
    decreases n
  {
    var s := Render(n);
    if n >= 10 {
      ValueOfRender(n / 10);
      assert s[..|s| - 1] == Render(n / 10);
    }
  }

  /** What std::to_wstring prints for an int-sized value, std::stoi reads back. */
  lemma ParseRender(n: nat)
    requires n <= IntMax
    ensures ParseInt(Render(n)) == Some(n)
  {
    ValueOfRender(n);
  }
}

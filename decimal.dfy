/**
  The `u32` type and its decimal text: what `format!("{}", n)` prints and what
  `str::parse::<u32>()` accepts from the `\d+` groups of the hOCR pattern.
*/
module Decimal {

  const U32_LIMIT: nat := 0x1_0000_0000

  /** Rust's `u32`. */
  type u32 = x: int | 0 <= x < U32_LIMIT

  predicate IsDigit(c: char) {
    '0' <= c <= '9'
  }

  /** Non-empty and ASCII digits only. */
  predicate IsDigits(s: string) {
    |s| > 0 && forall i :: 0 <= i < |s| ==> IsDigit(s[i])
  }

  function DigitValue(c: char): nat {
    if IsDigit(c) then (c - '0') as nat else 0
  }

  function DigitChar(d: nat): char
    requires d < 10
  {
    ('0' as int + d) as char
  }

  /** The number a digit string denotes (leading zeros allowed, as `parse` allows them). */
  function Value(s: string): nat
    decreases |s|
  {
    if s == [] then 0 else 10 * Value(s[..|s| - 1]) + DigitValue(s[|s| - 1])
  }

  /** `parse::<u32>()` succeeds on the text: ASCII digits whose value fits in 32 bits. */
  predicate ParsesAsU32(s: string) {
    IsDigits(s) && Value(s) < U32_LIMIT
  }

  /** `format!("{}", n)`: shortest decimal text, no leading zero. */
  function Show(n: nat): (s: string)
    ensures IsDigits(s)
    ensures s[0] == '0' ==> s == "0"
    ensures |s| == 1 <==> n < 10
    decreases n
  {
    if n < 10 then [DigitChar(n)] else Show(n / 10) + [DigitChar(n % 10)]
  }

  /** Printing then parsing gives the number back. */
  lemma {:induction false} ShowValue(n: nat)
    ensures Value(Show(n)) == n
    decreases n
  {
    if n >= 10 {
      ShowValue(n / 10);
      var s := Show(n);
      assert s[..|s| - 1] == Show(n / 10);
    }
  }

  /** Two numbers print the same exactly when they are equal. */
  lemma ShowInjective(m: nat, n: nat)
    ensures Show(m) == Show(n) <==> m == n
  {
    ShowValue(m);
    ShowValue(n);
  }
}

/**
 * A specification-level model of rendering a C `int` with the `%d`
 * conversion: an optional leading minus sign followed by decimal digits.
 * Only what the host/port joiner relies on is proved about it.
 */
module Decimal {

  /** The values a C `int` can hold. */
  type Int32 = n: int | -0x8000_0000 <= n < 0x8000_0000

  predicate IsDigit(c: char) {
    '0' <= c <= '9'
  }

  function DigitChar(d: nat): (c: char)
    requires d < 10
    ensures IsDigit(c)
    ensures c as int - '0' as int == d
  {
    ('0' as int + d) as char
  }

  /** The decimal digits of `n`, most significant first, without leading zeros. */
  function NatDigits(n: nat): (s: string)
    ensures |s| > 0
    ensures forall i | 0 <= i < |s| :: IsDigit(s[i])
    ensures s[0] == '0' <==> n == 0
    decreases n
  {
    if n < 10 then [DigitChar(n)] else NatDigits(n / 10) + [DigitChar(n % 10)]
  }

  /** What `%d` prints for `n`. */
  function Dec(n: int): (s: string)
    ensures |s| > 0
    ensures s[0] == '-' <==> n < 0
    ensures n >= 0 ==> IsDigit(s[0])
    ensures forall i | 0 < i < |s| :: IsDigit(s[i])
    ensures ':' !in s && ']' !in s
  {
    if n < 0 then "-" + NatDigits(-n) else NatDigits(n)
  }
}

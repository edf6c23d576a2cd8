/** ASCII decimal digits and zero-padded rendering of small numbers. */
module Digits {

  predicate IsDigit(c: char) {
    '0' <= c <= '9'
  }

  function DigitValue(c: char): (n: int)
    requires IsDigit(c)
    ensures 0 <= n <= 9
  {
    c as int - '0' as int
  }

  function DigitChar(n: int): (c: char)
    requires 0 <= n <= 9
    ensures IsDigit(c) && DigitValue(c) == n
  {
    ('0' as int + n) as char
  }

  /** `String(n).padStart(2, "0")` and `%m`/`%d` for 0 <= n < 100. */
  function Pad2(n: int): (s: string)
    requires 0 <= n < 100
    ensures |s| == 2 && IsDigit(s[0]) && IsDigit(s[1])
    ensures 10 * DigitValue(s[0]) + DigitValue(s[1]) == n
  {
    [DigitChar(n / 10), DigitChar(n % 10)]
  }

  /** Four-digit zero-padded year, as `%Y` renders years 1000..9999. */
  function Pad4(n: int): (s: string)
    requires 0 <= n < 10000
    ensures |s| == 4 && forall i :: 0 <= i < 4 ==> IsDigit(s[i])
    ensures 1000 * DigitValue(s[0]) + 100 * DigitValue(s[1]) + 10 * DigitValue(s[2]) + DigitValue(s[3]) == n
  {
    var hi := n / 100;
    var lo := n % 100;
    assert n == 100 * hi + lo;
    Pad2(hi) + Pad2(lo)
  }
}

/**
 * Decimal text of integers, as JavaScript's string conversion writes it
 * (`${n}` and `'0' + n` for the integral values used here).
 */
module Decimal {

  predicate IsDigit(c: char) {
    '0' <= c <= '9'
  }

  predicate AllDigits(s: string) {
    forall j :: 0 <= j < |s| ==> IsDigit(s[j])
  }

  function DigitChar(d: int): (c: char)
    requires 0 <= d < 10
    ensures IsDigit(c)
  {
    ('0' as int + d) as char
  }

  function DigitValue(c: char): (d: int)
    requires IsDigit(c)
    ensures 0 <= d < 10
  {
    c as int - '0' as int
  }

  /** The shortest decimal text of `n`. */
  function NatToString(n: nat): (s: string)
    ensures |s| >= 1 && AllDigits(s)
    decreases n
  {
    if n < 10 then [DigitChar(n)] else NatToString(n / 10) + [DigitChar(n % 10)]
  }

  /** JavaScript's text of an integral number: a '-' before the digits of a negative one. */
  function IntToString(i: int): (r: string) {
    if i < 0 then "-" + NatToString(-i) else NatToString(i)
  }

  /** The value a digit string denotes. */
  function ParseNat(s: string): (r: nat)
    requires AllDigits(s)
  {
    if s == [] then 0 else ParseNat(s[..|s| - 1]) * 10 + DigitValue(s[|s| - 1])
  }

  /** The value an `IntToString` text denotes. */
  function ParseInt(s: string): (r: int)
    requires s != [] ==> (if s[0] == '-' then AllDigits(s[1..]) else AllDigits(s))
  {
    if s != [] && s[0] == '-' then -(ParseNat(s[1..]) as int) else ParseNat(s) as int
  }

  /** Decimal text round-trips. */
  lemma {:induction false} ParseNatToString(n: nat)
    ensures ParseNat(NatToString(n)) == n
    decreases n
  {
    if n >= 10 {
      var s := NatToString(n);
      assert s[..|s| - 1] == NatToString(n / 10);
      ParseNatToString(n / 10);
    }
  }

  /** Integer text round-trips, sign included. */
  lemma ParseIntToString(i: int)
    ensures ParseInt(IntToString(i)) == i
  {
    if i < 0 {
      assert IntToString(i)[1..] == NatToString(-i);
      ParseNatToString(-i);
    } else {
      ParseNatToString(i);
    }
  }

  /** Different integers have different texts. */
  lemma IntToStringInjective(i: int, j: int)
    requires IntToString(i) == IntToString(j)
    ensures i == j
  {
    ParseIntToString(i);
    ParseIntToString(j);
  }

  /** The years 1000 to 9999 are written with exactly four digits. */
  lemma FourDigitYear(y: int)
    requires 1000 <= y <= 9999
    ensures |IntToString(y)| == 4 && AllDigits(IntToString(y))
  {
    assert |NatToString(y / 1000)| == 1;
    assert |NatToString(y / 100)| == 2;
    assert |NatToString(y / 10)| == 3;
  }
}

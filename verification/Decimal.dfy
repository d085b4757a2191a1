/** Decimal numerals, as printf("%d"), printf("%u") and Python's str() write them. */
module Decimal {
  predicate IsDigit(c: char)
  {
    '0' <= c <= '9'
  }

  predicate AllDigits(s: string)
  {
    forall i :: 0 <= i < |s| ==> IsDigit(s[i])
  }

  function DigitChar(d: nat): (c: char)
    requires d < 10
    ensures IsDigit(c) && DigitValue(c) == d
  {
    ('0' as int + d) as char
  }

  function DigitValue(c: char): (d: nat)
    requires IsDigit(c)
    ensures d < 10
  {
    c as int - '0' as int
  }

  function Digits(n: nat): (s: string)
  {
    if n < 10 then [DigitChar(n)] else Digits(n / 10) + [DigitChar(n % 10)]
  }

  function Signed(n: int): (s: string)
  {
    if n < 0 then "-" + Digits(-n) else Digits(n)
  }

  /** The number a string of digits denotes, leading zeros allowed. */
  function ValueOf(s: string): (n: nat)
    requires AllDigits(s)
  {
    if s == "" then 0 else 10 * ValueOf(s[..|s| - 1]) + DigitValue(s[|s| - 1])
  }

  lemma {:induction false} DigitsDenote(n: nat)
    ensures AllDigits(Digits(n)) && ValueOf(Digits(n)) == n
    ensures |Digits(n)| > 0 && (Digits(n)[0] == '0' ==> n == 0)
  {
    if n >= 10 {
      DigitsDenote(n / 10);
      assert Digits(n)[..|Digits(n)| - 1] == Digits(n / 10);
    }
  }

  /** A numeral has at most k digits exactly when its number is below 10^k. */
  lemma {:induction false} DigitsLength(n: nat, k: nat)
    requires k > 0
    ensures |Digits(n)| <= k <==> n < Power10(k)
  {
    if n >= 10 && k > 1 {
      DigitsLength(n / 10, k - 1);
    } else if n >= 10 {
      assert Power10(1) == 10 * Power10(0) && |Digits(n / 10)| > 0;
    } else {
      Power10Grows(k);
    }
  }

  function Power10(k: nat): nat
  {
    if k == 0 then 1 else 10 * Power10(k - 1)
  }

  lemma {:induction false} Power10Grows(k: nat)
    requires k > 0
    ensures Power10(k) >= 10
  {
    if k > 1 { Power10Grows(k - 1); }
  }

  /** The longest prefix of digits. */
  function TakeDigits(s: string): (d: string)
    ensures d <= s && AllDigits(d)
  {
    if s != "" && IsDigit(s[0]) then [s[0]] + TakeDigits(s[1..]) else ""
  }

  lemma {:induction false} TakeDigitsStops(d: string, rest: string)
    requires AllDigits(d) && (rest == "" || !IsDigit(rest[0]))
    ensures TakeDigits(d + rest) == d && (d + rest)[|d|..] == rest
  {
    if d == "" {
      assert d + rest == rest;
    } else {
      TakeDigitsStops(d[1..], rest);
      assert (d + rest)[1..] == d[1..] + rest;
    }
  }
}

/** Base-10 spelling of integers, as JavaScript's number-to-string conversion
    writes an integral number (template literals and `textContent`), and the
    inverse reading used to state that the spelling loses nothing. */
module Decimal {
  import opened Optional

  predicate IsDigit(c: char)
  {
    '0' <= c <= '9'
  }

  predicate AllDigits(s: string)
  {
    forall i :: 0 <= i < |s| ==> IsDigit(s[i])
  }

  function DigitChar(d: nat): (c: char)
    requires d < 10
    ensures IsDigit(c)
  {
    (d + '0' as int) as char
  }

  function DigitValue(c: char): (d: nat)
    requires IsDigit(c)
    ensures d < 10
    ensures DigitChar(d) == c
  {
    c as int - '0' as int
  }

  /** Shortest decimal spelling of `n`: at least one digit, no leading zero. */
  function NatToDecimal(n: nat): (s: string)
    ensures |s| >= 1 && AllDigits(s)
    ensures |s| > 1 ==> s[0] != '0'
    ensures n < 10 <==> |s| == 1
    decreases n
  {
    if n < 10 then [DigitChar(n)] else NatToDecimal(n / 10) + [DigitChar(n % 10)]
  }

  /** Value of a digit string, most significant digit first. */
  function DecimalToNat(s: string): nat
    requires AllDigits(s)
  {
    if |s| == 0 then 0 else DecimalToNat(s[..|s| - 1]) * 10 + DigitValue(s[|s| - 1])
  }

  lemma {:induction false} NatRoundTrip(n: nat)
    ensures DecimalToNat(NatToDecimal(n)) == n
  {
    if n >= 10 {
      var s := NatToDecimal(n);
      assert s[..|s| - 1] == NatToDecimal(n / 10);
      NatRoundTrip(n / 10);
      assert DigitValue(DigitChar(n % 10)) == n % 10;
    } else {
      assert DigitValue(DigitChar(n)) == n;
    }
  }

  /** Decimal spelling of any integer: a '-' sign before the magnitude when negative. */
  function IntToDecimal(i: int): (s: string)
    ensures |s| >= 1
    ensures i < 0 <==> s[0] == '-'
    ensures i >= 0 <==> AllDigits(s)
  {
    if i < 0 then "-" + NatToDecimal(-i) else NatToDecimal(i)
  }

  /** Reads an optionally signed, non-empty digit string; anything else is None. */
  function ParseInt(s: string): (r: Option<int>)
    ensures r.Some? ==> |s| >= 1
    ensures |s| >= 1 && AllDigits(s) ==> r.Some? && r.value >= 0
  {
    if |s| >= 2 && s[0] == '-' && AllDigits(s[1..]) then Some(-(DecimalToNat(s[1..]) as int))
    else if |s| >= 1 && AllDigits(s) then Some(DecimalToNat(s))
    else None
  }

  lemma IntRoundTrip(i: int)
    ensures ParseInt(IntToDecimal(i)) == Some(i)
  {
    var s := IntToDecimal(i);
    if i < 0 {
      assert s[1..] == NatToDecimal(-i);
      NatRoundTrip(-i);
    } else {
      NatRoundTrip(i);
    }
  }

  /** Distinct numbers are spelled differently. */
  lemma IntToDecimalInjective(i: int, j: int)
    ensures IntToDecimal(i) == IntToDecimal(j) ==> i == j
  {
    IntRoundTrip(i);
    IntRoundTrip(j);
  }
}

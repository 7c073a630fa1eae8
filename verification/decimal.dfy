/**
 Python's `str(n)` for integers (decimal digits, a leading `-` for negative
 values), with a parser that inverts it. The bot names each channel's
 webhook `str(channel.id)`, so the round trip is what makes those names
 distinct across channels.
 */
module Decimal {

  function DigitChar(d: nat): (c: char)
    requires d < 10
    ensures '0' <= c <= '9'
  {
    ['0', '1', '2', '3', '4', '5', '6', '7', '8', '9'][d]
  }

  function DigitValue(c: char): nat
  {
    if '0' <= c <= '9' then (c as int) - ('0' as int) else 0
  }

  lemma DigitRoundTrip(d: nat)
    requires d < 10
    ensures DigitValue(DigitChar(d)) == d
  {
  }

  predicate IsDigits(s: string)
  {
    forall i :: 0 <= i < |s| ==> '0' <= s[i] <= '9'
  }

  /** `str(n)` for `n >= 0`: no leading zeros, `"0"` for zero. */
  function ShowNat(n: nat): (s: string)
    ensures |s| >= 1 && IsDigits(s)
    ensures |s| > 1 ==> s[0] != '0'
  {
    if n < 10 then [DigitChar(n)] else ShowNat(n / 10) + [DigitChar(n % 10)]
  }

  /** `str(n)` for any integer. */
  function ShowInt(n: int): (s: string)
    ensures |s| >= 1
  {
    if n < 0 then "-" + ShowNat(-n) else ShowNat(n)
  }

  /** The value of a string of decimal digits (most significant first). */
  function ParseNat(s: string): nat
  {
    if |s| == 0 then 0 else 10 * ParseNat(s[..|s| - 1]) + DigitValue(s[|s| - 1])
  }

  /** Python's `int(s)` on the strings `ShowInt` produces. */
  function ParseInt(s: string): int
  {
    if |s| > 0 && s[0] == '-' then -(ParseNat(s[1..]) as int) else ParseNat(s)
  }

  lemma {:induction false} ParseShowNat(n: nat)
    ensures ParseNat(ShowNat(n)) == n
  {
    if n < 10 {
      DigitRoundTrip(n);
    } else {
      var s := ShowNat(n / 10) + [DigitChar(n % 10)];
      assert s[..|s| - 1] == ShowNat(n / 10);
      ParseShowNat(n / 10);
      DigitRoundTrip(n % 10);
    }
  }

  /** `int(str(n)) == n`. */
  lemma ParseShowInt(n: int)
    ensures ParseInt(ShowInt(n)) == n
  {
    ParseShowNat(if n < 0 then -n else n);
    if n < 0 {
      assert ("-" + ShowNat(-n))[1..] == ShowNat(-n);
    } else {
      assert ShowNat(n)[0] != '-';
    }
  }

  /** Different integers print differently. */
  lemma ShowIntInjective(m: int, n: int)
    requires m != n
    ensures ShowInt(m) != ShowInt(n)
  {
    ParseShowInt(m);
    ParseShowInt(n);
  }
}

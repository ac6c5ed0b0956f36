/** Decimal text for the servers' money and counters: a `Decimal` with two
    decimal places, as `str()` prints it, and a natural number in base ten.
    Amounts are integer cents. */
module Money {
  import opened Wrappers

  predicate IsDigit(c: char) {
    '0' <= c <= '9'
  }

  function DigitChar(d: nat): (c: char)
    requires d < 10
    ensures IsDigit(c) && c as int - '0' as int == d
  {
    ('0' as int + d) as char
  }

  function DigitValue(c: char): (d: nat)
    requires IsDigit(c)
    ensures d < 10 && DigitChar(d) == c
  {
    c as int - '0' as int
  }

  /** `n` in base ten without leading zeros ("0" for zero). */
  function NatToString(n: nat): (s: string)
    ensures |s| > 0 && forall i :: 0 <= i < |s| ==> IsDigit(s[i])
    ensures |s| > 1 ==> s[0] != '0'
    decreases n
  {
    if n < 10 then [DigitChar(n)] else NatToString(n / 10) + [DigitChar(n % 10)]
  }

  /** The value of a string of digits. */
  function ParseDigits(s: string): (n: nat)
    requires forall i :: 0 <= i < |s| ==> IsDigit(s[i])
    decreases |s|
  {
    if |s| == 0 then 0 else ParseDigits(s[..|s| - 1]) * 10 + DigitValue(s[|s| - 1])
  }

  /** Printing a natural number and reading it back gives the number. */
  lemma {:induction false} ParseNatToString(n: nat)
    ensures ParseDigits(NatToString(n)) == n
    decreases n
  {
    var s := NatToString(n);
    if n >= 10 {
      ParseNatToString(n / 10);
      assert s[..|s| - 1] == NatToString(n / 10);
    }
  }

  /** `str(Decimal)` of `cents / 100` quantized to two places: the whole part,
      a point, and exactly two digits. */
  function FormatCents(cents: nat): (s: string)
    ensures |s| >= 4 && s[|s| - 3] == '.'
    ensures forall i :: 0 <= i < |s| && i != |s| - 3 ==> IsDigit(s[i])
  {
    NatToString(cents / 100) + "." + [DigitChar(cents % 100 / 10), DigitChar(cents % 10)]
  }

  /** Reads "W.DD" back into cents. */
  function ParseCents(s: string): (r: Option<nat>) {
    if |s| >= 4 && s[|s| - 3] == '.' &&
       (forall i :: 0 <= i < |s| && i != |s| - 3 ==> IsDigit(s[i]))
    then
      var whole := s[..|s| - 3];
      assert forall i :: 0 <= i < |whole| ==> IsDigit(whole[i]) by {
        forall i | 0 <= i < |whole| ensures IsDigit(whole[i]) { assert whole[i] == s[i]; }
      }
      Some(ParseDigits(whole) * 100 + DigitValue(s[|s| - 2]) * 10 + DigitValue(s[|s| - 1]))
    else None
  }

  /** Every amount printed by `FormatCents` reads back to itself. */
  lemma FormatCentsRoundTrip(cents: nat)
    ensures ParseCents(FormatCents(cents)) == Some(cents)
  {
    var s := FormatCents(cents);
    var w := NatToString(cents / 100);
    assert s[..|s| - 3] == w;
    ParseNatToString(cents / 100);
    assert DigitValue(s[|s| - 2]) == cents % 100 / 10;
    assert DigitValue(s[|s| - 1]) == cents % 10;
  }

  /** Different amounts print differently. */
  lemma FormatCentsInjective(a: nat, b: nat)
    requires FormatCents(a) == FormatCents(b)
    ensures a == b
  {
    FormatCentsRoundTrip(a);
    FormatCentsRoundTrip(b);
  }
}

/**
 * Decimal text of 64-bit integers: strconv.ParseInt(s, 10, 64), which the
 * router applies to the timestamp header, and strconv.FormatInt(n, 10),
 * with which a signer renders that header.
 */
module Decimal {
  import opened Wrappers

  const MinInt64: int := -0x8000_0000_0000_0000
  const MaxInt64: int := 0x7FFF_FFFF_FFFF_FFFF

  predicate IsInt64(n: int) {
    MinInt64 <= n <= MaxInt64
  }

  predicate IsDigit(c: char) {
    '0' <= c <= '9'
  }

  predicate AllDigits(s: string) {
    forall i :: 0 <= i < |s| ==> IsDigit(s[i])
  }

  /** The number a string of decimal digits denotes (most significant first). */
  function DigitsValue(s: string): nat
    requires AllDigits(s)
  {
    if s == [] then 0
    else 10 * DigitsValue(s[..|s| - 1]) + (s[|s| - 1] as int - '0' as int)
  }

  /** The text after an optional leading sign. */
  function Magnitude(s: string): string {
    if |s| > 0 && (s[0] == '+' || s[0] == '-') then s[1..] else s
  }

  /** The syntax ParseInt accepts in base 10: an optional sign, then one or more digits. */
  predicate WellFormed(s: string) {
    |Magnitude(s)| > 0 && AllDigits(Magnitude(s))
  }

  /** The integer a well-formed text denotes, whatever its size. */
  function Denoted(s: string): int
    requires WellFormed(s)
  {
    if s[0] == '-' then -(DigitsValue(Magnitude(s)) as int) else DigitsValue(Magnitude(s))
  }

  /**
   * strconv.ParseInt(s, 10, 64): an optional '+' or '-', then at least one
   * decimal digit and nothing else; the value must fit in 64 bits. Both a
   * syntax error and a range error are reported as None.
   */
  function ParseInt64(s: string): (r: Option<int>)
    ensures r.Some? <==> WellFormed(s) && IsInt64(Denoted(s))
    ensures r.Some? ==> r.value == Denoted(s)
    ensures AllDigits(s) && |s| > 0 && DigitsValue(s) <= MaxInt64 ==> r == Some(DigitsValue(s))
  {
    if s == [] then None
    else
      var digits := if s[0] == '+' || s[0] == '-' then s[1..] else s;
      if digits == [] || !AllDigits(digits) then None
      else
        var n: int := if s[0] == '-' then -(DigitsValue(digits) as int) else DigitsValue(digits);
        if IsInt64(n) then Some(n) else None
  }

  function Digit(d: int): (c: char)
    requires 0 <= d < 10
    ensures IsDigit(c) && c as int - '0' as int == d
  {
    ('0' as int + d) as char
  }

  /** The shortest decimal text of a natural number. */
  function FormatNat(n: nat): (s: string)
    ensures |s| > 0 && AllDigits(s)
  {
    if n < 10 then [Digit(n)] else FormatNat(n / 10) + [Digit(n % 10)]
  }

  /**
   * strconv.FormatInt(n, 10): a '-' exactly for a negative number, then
   * the digits of its magnitude.
   */
  function FormatInt(n: int): (s: string)
    ensures WellFormed(s) && (s[0] == '-' <==> n < 0) && s[0] != '+'
    ensures DigitsValue(Magnitude(s)) == if n < 0 then -n else n
  {
    if n < 0 then
      FormatNatValue(-n);
      var s := "-" + FormatNat(-n);
      assert s[1..] == FormatNat(-n);
      s
    else
      FormatNatValue(n);
      FormatNat(n)
  }

  lemma {:induction false} FormatNatValue(n: nat)
    ensures DigitsValue(FormatNat(n)) == n
  {
    var s := FormatNat(n);
    if n >= 10 {
      FormatNatValue(n / 10);
      assert s[..|s| - 1] == FormatNat(n / 10);
    }
  }

  /** Parsing the text FormatInt renders gives the number back. */
  lemma ParseFormatInt(n: int)
    requires IsInt64(n)
    ensures ParseInt64(FormatInt(n)) == Some(n)
  {
    var s := FormatInt(n);
    if n < 0 {
      FormatNatValue(-n);
      assert s[1..] == FormatNat(-n);
    } else {
      FormatNatValue(n);
    }
  }

  /**
   * ParseInt accepts more than one text for one number: a leading '+' and
   * leading zeros are allowed. So the header's raw text is not determined
   * by the timestamp it denotes.
   */
  lemma NonCanonicalTexts(n: nat)
    requires n <= MaxInt64
    ensures ParseInt64("+" + FormatNat(n)) == Some(n)
    ensures ParseInt64("0" + FormatNat(n)) == Some(n)
  {
    FormatNatValue(n);
    var s := "0" + FormatNat(n);
    assert ("+" + FormatNat(n))[1..] == FormatNat(n);
    assert s[..|s| - 1] == "0" + FormatNat(n)[..|FormatNat(n)| - 1];
    LeadingZeroValue(FormatNat(n));
  }

  lemma {:induction false} LeadingZeroValue(s: string)
    requires AllDigits(s)
    ensures AllDigits("0" + s) && DigitsValue("0" + s) == DigitsValue(s)
  {
    var z := "0" + s;
    if s != [] {
      assert z[..|z| - 1] == "0" + s[..|s| - 1];
      LeadingZeroValue(s[..|s| - 1]);
    }
  }
}

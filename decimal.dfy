/** How a JavaScript template literal renders an integer-valued number of
    magnitude at most 2^53, where every integer is an exact double: optional
    minus sign, then the decimal digits with no leading zeros. Above 2^53
    JavaScript prints the shortest digits that round back to the double, which
    this module does not model. `DigitsValue` is the inverse reading of a digit
    string. */
module Decimal {

  predicate IsDigit(c: char) {
    '0' <= c <= '9'
  }

  predicate IsDigits(s: string) {
    forall i :: 0 <= i < |s| ==> IsDigit(s[i])
  }

  /** A digit string as the renderer produces it: non-empty, and no leading
      zero unless it is the single digit "0". */
  predicate IsCanonical(s: string) {
    |s| > 0 && IsDigits(s) && (s[0] == '0' ==> |s| == 1)
  }

  function DigitChar(d: nat): (c: char)
    requires d < 10
    ensures IsDigit(c) && (c as int) - ('0' as int) == d
  {
    (('0' as int) + d) as char
  }

  /** Decimal rendering of a natural number, most significant digit first. */
  function Digits(n: nat): (s: string)
    ensures IsCanonical(s)
    ensures s[0] == '0' <==> n == 0
  {
    if n < 10 then [DigitChar(n)] else Digits(n / 10) + [DigitChar(n % 10)]
  }

  /** The value a digit string denotes. */
  function DigitsValue(s: string): nat
    requires IsDigits(s)
  {
    if s == [] then 0
    else DigitsValue(s[..|s| - 1]) * 10 + ((s[|s| - 1] as int) - ('0' as int))
  }

  /** `${x}` for an integer-valued JavaScript number x with |x| <= 2^53. */
  function NumberToString(x: int): (s: string)
    ensures |s| > 0
    ensures s[0] == '-' <==> x < 0
    ensures x >= 0 ==> IsCanonical(s)
    ensures x < 0 ==> IsCanonical(s[1..]) && s[1] != '0'
    ensures forall i :: 1 <= i < |s| ==> IsDigit(s[i])
  {
    if x < 0 then "-" + Digits(-x) else Digits(x)
  }

  /** Reading back a rendered natural number gives the number. */
  lemma {:induction false} DigitsRoundTrip(n: nat)
    ensures DigitsValue(Digits(n)) == n
  {
    if n >= 10 {
      var s := Digits(n);
      assert s[..|s| - 1] == Digits(n / 10);
      DigitsRoundTrip(n / 10);
    }
  }

  lemma {:induction false} LeadingNonZeroPositive(s: string)
    requires |s| > 0 && IsDigits(s) && s[0] != '0'
    ensures DigitsValue(s) >= 1
  {
    if |s| > 1 {
      LeadingNonZeroPositive(s[..|s| - 1]);
    }
  }

  /** Rendering the value of a canonical digit string gives the string back:
      the canonical strings are exactly the renderings of natural numbers. */
  lemma {:induction false} CanonicalRoundTrip(s: string)
    requires IsCanonical(s)
    ensures Digits(DigitsValue(s)) == s
  {
    if |s| > 1 {
      var init := s[..|s| - 1];
      LeadingNonZeroPositive(init);
      CanonicalRoundTrip(init);
      var v := DigitsValue(s);
      var d := (s[|s| - 1] as int) - ('0' as int);
      assert v / 10 == DigitsValue(init) && v % 10 == d;
      assert s == init + [s[|s| - 1]];
    }
  }

  /** Distinct integers never render to the same string. */
  lemma NumberToStringInjective(x: int, y: int)
    requires NumberToString(x) == NumberToString(y)
    ensures x == y
  {
    if x < 0 {
      assert Digits(-x) == NumberToString(x)[1..] == NumberToString(y)[1..] == Digits(-y);
      DigitsRoundTrip(-x);
      DigitsRoundTrip(-y);
    } else {
      DigitsRoundTrip(x);
      DigitsRoundTrip(y);
    }
  }
}

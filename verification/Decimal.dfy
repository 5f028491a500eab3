/** Decimal numerals: Go's `%d` and strconv.FormatUint, and reading digits back. */
module Decimal {

  predicate IsDigit(c: char) { '0' <= c <= '9' }

  predicate AllDigits(s: string) { forall i :: 0 <= i < |s| ==> IsDigit(s[i]) }

  predicate HasLeadingZero(s: string) { |s| > 1 && s[0] == '0' }

  function Digit(d: nat): (c: char)
    requires d < 10
    ensures IsDigit(c) && DigitValue(c) == d
  {
    '0' + d as char
  }

  function DigitValue(c: char): (d: nat)
    requires IsDigit(c)
    ensures d < 10
  {
    (c as int - '0' as int) as nat
  }

  function Format(n: nat): (s: string)
    ensures s != "" && AllDigits(s)
  {
    if n < 10 then [Digit(n)] else Format(n / 10) + [Digit(n % 10)]
  }

  function Value(s: string): nat
    requires AllDigits(s)
  {
    if s == "" then 0 else Value(s[..|s| - 1]) * 10 + DigitValue(s[|s| - 1])
  }

  lemma {:induction false} ValueOfFormat(n: nat)
    ensures Value(Format(n)) == n
  {
    if n >= 10 {
      ValueOfFormat(n / 10);
      assert Format(n)[..|Format(n)| - 1] == Format(n / 10);
    } else {
      assert Format(n)[..0] == "";
    }
  }

  lemma FormatInjective(m: nat, n: nat)
    requires Format(m) == Format(n)
    ensures m == n
  {
    ValueOfFormat(m);
    ValueOfFormat(n);
  }

  lemma {:induction false} ValuePositive(s: string)
    requires AllDigits(s) && s != "" && s[0] != '0'
    ensures Value(s) > 0
  {
    if |s| > 1 {
      ValuePositive(s[..|s| - 1]);
    }
  }

  /** A numeral without leading zeros is the one that its value is printed as. */
  lemma {:induction false} FormatOfValue(s: string)
    requires AllDigits(s) && s != "" && !HasLeadingZero(s)
    ensures Format(Value(s)) == s
  {
    if |s| > 1 {
      var front := s[..|s| - 1];
      ValuePositive(front);
      FormatOfValue(front);
      assert Value(s) / 10 == Value(front) && Value(s) % 10 == DigitValue(s[|s| - 1]);
      assert s == front + [s[|s| - 1]];
    } else {
      assert s[..0] == "";
    }
  }

  lemma {:induction false} FormatHasNoLeadingZero(n: nat)
    ensures !HasLeadingZero(Format(n))
    ensures n > 0 ==> Format(n)[0] != '0'
  {
    if n >= 10 { FormatHasNoLeadingZero(n / 10); }
  }
}

/** Canonical decimal numerals. */
module Decimal {

  predicate IsDigit(c: char) {
    '0' <= c <= '9'
  }

  predicate AllDigits(s: string) {
    forall i :: 0 <= i < |s| ==> IsDigit(s[i])
  }

  function DigitValue(c: char): nat
    requires IsDigit(c)
  {
    c as int - '0' as int
  }

  function Digit(n: nat): char
    requires n < 10
  {
    ('0' as int + n) as char
  }

  /** The shortest numeral of `n`. */
  function Numeral(n: nat): (s: string)
    ensures s != "" && AllDigits(s)
  {
    if n < 10 then [Digit(n)] else Numeral(n / 10) + [Digit(n % 10)]
  }

  /** The value of a string of digits. */
  function Value(s: string): nat
    requires AllDigits(s)
  {
    if s == "" then 0 else 10 * Value(s[..|s| - 1]) + DigitValue(s[|s| - 1])
  }

  /** A numeral without superfluous leading zeros. */
  predicate IsCanonical(s: string) {
    s != "" && AllDigits(s) && (|s| > 1 ==> s[0] != '0')
  }

  lemma {:induction false} ValueOfNumeral(n: nat)
    ensures IsCanonical(Numeral(n)) && Value(Numeral(n)) == n
    ensures n > 0 ==> Numeral(n)[0] != '0'
  {
    if n >= 10 {
      ValueOfNumeral(n / 10);
      var s := Numeral(n);
      assert s[..|s| - 1] == Numeral(n / 10);
    }
  }

  lemma {:induction false} LeadingDigitPositive(s: string)
    requires AllDigits(s) && s != "" && s[0] != '0'
    ensures Value(s) > 0
  {
    if |s| > 1 {
      LeadingDigitPositive(s[..|s| - 1]);
    }
  }

  lemma NumeralStep(n: nat, d: nat)
    requires n > 0 && d < 10
    ensures Numeral(10 * n + d) == Numeral(n) + [Digit(d)]
  {
    assert (10 * n + d) / 10 == n && (10 * n + d) % 10 == d;
  }

  lemma {:induction false} NumeralOfValue(s: string)
    requires IsCanonical(s)
    ensures Numeral(Value(s)) == s
  {
    var front, last := s[..|s| - 1], s[|s| - 1];
    assert s == front + [last];
    if front == "" {
      assert Value(s) == DigitValue(last);
    } else {
      assert front[0] == s[0];
      LeadingDigitPositive(front);
      NumeralOfValue(front);
      NumeralStep(Value(front), DigitValue(last));
    }
  }

  /** The numeral of a signed integer. */
  function SignedNumeral(n: int): string {
    if n < 0 then "-" + Numeral(-n) else Numeral(n)
  }

  /** A prefix of a string of digits is worth no more than the whole. */
  lemma {:induction false} PrefixValue(s: string, k: nat)
    requires AllDigits(s) && k <= |s|
    ensures AllDigits(s[..k]) && Value(s[..k]) <= Value(s)
    decreases |s|
  {
    if k < |s| {
      PrefixValue(s[..|s| - 1], k);
      assert s[..|s| - 1][..k] == s[..k];
    } else {
      assert s[..k] == s;
    }
  }

  lemma ValueStep(s: string, k: nat)
    requires k < |s| && AllDigits(s[..k + 1])
    ensures AllDigits(s[..k]) && Value(s[..k + 1]) == 10 * Value(s[..k]) + DigitValue(s[k])
  {
    var t := s[..k + 1];
    assert t[..|t| - 1] == s[..k];
    assert t[|t| - 1] == s[k];
    assert forall i :: 0 <= i < k ==> s[..k][i] == t[i];
  }
}

/** The text `%.17g` prints for a double: seventeen significant digits, rounded half to even, in plain or exponent
    style, without trailing zeros. */
module DoubleText {
  import opened Scalars
  import opened Decimal

  const PRECISION: nat := 17

  function Pow10(k: nat): (p: nat)
    ensures p >= 1
  {
    if k == 0 then 1 else 10 * Pow10(k - 1)
  }

  // ----- Scientific form

  /** `mantissa * 10^exponent`, the mantissa from one up to but not including ten. */
  datatype Scientific = Scientific(mantissa: real, exponent: int)

  function FromAbove(x: real): (s: Scientific)
    requires x >= 1.0
    ensures 1.0 <= s.mantissa < 10.0 && s.exponent >= 0
    decreases x
  {
    if x < 10.0 then Scientific(x, 0)
    else
      var s := FromAbove(x / 10.0);
      s.(exponent := s.exponent + 1)
  }

  function FromBelow(x: real): (s: Scientific)
    requires 0.0 < x < 1.0
    ensures 1.0 <= s.mantissa < 10.0 && s.exponent < 0
    decreases 10.0 / x
  {
    if x * 10.0 >= 1.0 then Scientific(x * 10.0, -1)
    else
      assert 10.0 / (x * 10.0) == 1.0 / x && 10.0 / x - 1.0 / x == 9.0 / x && 1.0 / x > 1.0;
      var s := FromBelow(x * 10.0);
      s.(exponent := s.exponent - 1)
  }

  function ScientificOf(x: real): (s: Scientific)
    requires x > 0.0
    ensures 1.0 <= s.mantissa < 10.0
  {
    if x >= 1.0 then FromAbove(x) else FromBelow(x)
  }

  function RoundHalfEven(y: real): int {
    var below := y.Floor;
    var rest := y - below as real;
    if rest < 0.5 || (rest == 0.5 && below % 2 == 0) then below else below + 1
  }

  /** The seventeen digits as a number and the exponent of the first of them, once rounded. */
  datatype Rounded = Rounded(digits: nat, exponent: int)

  function RoundedOf(x: real): (r: Rounded)
    requires x > 0.0
    ensures Pow10(16) <= r.digits < Pow10(17)
  {
    var s := ScientificOf(x);
    Pow10Values();
    var n := RoundHalfEven(s.mantissa * 1_0000_0000_0000_0000.0);
    if n == Pow10(17) then Rounded(Pow10(16), s.exponent + 1) else Rounded(n, s.exponent)
  }

  lemma Pow10Values()
    ensures Pow10(15) == 1000_0000_0000_0000
    ensures Pow10(16) == 1_0000_0000_0000_0000 && Pow10(17) == 10_0000_0000_0000_0000
  {
    assert Pow10(2) == 100 && Pow10(4) == 1_0000 && Pow10(6) == 100_0000 && Pow10(8) == 1_0000_0000;
    assert Pow10(10) == 100_0000_0000 && Pow10(12) == 1_0000_0000_0000 && Pow10(14) == 100_0000_0000_0000;
  }

  // ----- Text

  /** The `k` last digits of `n`. */
  function Digits(n: nat, k: nat): (s: string)
    ensures |s| == k && AllDigits(s)
  {
    if k == 0 then "" else Digits(n / 10, k - 1) + [Digit(n % 10)]
  }

  function WithoutTrailingZeros(s: string): (t: string)
    ensures |t| <= |s| && (AllDigits(s) ==> AllDigits(t))
  {
    if s != "" && s[|s| - 1] == '0' then WithoutTrailingZeros(s[..|s| - 1]) else s
  }

  function Zeros(k: nat): (s: string)
    ensures |s| == k && AllDigits(s)
  {
    if k == 0 then "" else "0" + Zeros(k - 1)
  }

  /** A point and the fraction, or nothing. */
  function Fraction(digits: string): string {
    var kept := WithoutTrailingZeros(digits);
    if kept == "" then "" else "." + kept
  }

  function ExponentText(e: int): string {
    var size: nat := if e < 0 then -e else e;
    "e" + (if e < 0 then "-" else "+") + (if size < 10 then "0" else "") + Numeral(size)
  }

  /** Exponent style is for exponents below -4 and from the precision on. */
  function Text(r: Rounded): string {
    var digits := Digits(r.digits, PRECISION);
    if r.exponent < -4 || r.exponent >= PRECISION then
      [digits[0]] + Fraction(digits[1..]) + ExponentText(r.exponent)
    else if r.exponent < 0 then "0." + Zeros(-r.exponent - 1) + WithoutTrailingZeros(digits)
    else digits[..r.exponent + 1] + Fraction(digits[r.exponent + 1..])
  }

  function Printed(d: DoubleValue): string {
    match d
    case NotANumber => "nan"
    case NegativeInfinity => "-inf"
    case PositiveInfinity => "inf"
    case Finite(v) =>
      if v == 0.0 then "0" else if v < 0.0 then "-" + Text(RoundedOf(-v)) else Text(RoundedOf(v))
  }

  // ----- The alphabet

  /** What printing uses besides the `+` of an exponent. */
  predicate IsPlain(c: char) {
    'a' <= c <= 'z' || IsDigit(c) || c == '-' || c == '.'
  }

  predicate AllPlain(s: string) {
    forall i :: 0 <= i < |s| ==> IsPlain(s[i])
  }

  predicate PlainOrPlus(s: string) {
    forall i :: 0 <= i < |s| ==> IsPlain(s[i]) || s[i] == '+'
  }

  lemma TextAlphabet(r: Rounded)
    ensures PlainOrPlus(Text(r))
    ensures '+' in Text(r) <==> r.exponent >= PRECISION
  {
    hide Numeral, WithoutTrailingZeros, Digits, Zeros;
    var digits := Digits(r.digits, PRECISION);
    var e := ExponentText(r.exponent);
    if r.exponent < -4 || r.exponent >= PRECISION {
      var front := [digits[0]] + Fraction(digits[1..]);
      assert AllPlain(front);
      assert PlainOrPlus(e);
      assert e[1] == (if r.exponent < 0 then '-' else '+');
      assert Text(r) == front + e;
      assert Text(r)[|front| + 1] == e[1];
    }
  }

  /** A `+` is printed exactly for finite values that round to an exponent of seventeen or more. */
  lemma PrintedAlphabet(d: DoubleValue)
    ensures PlainOrPlus(Printed(d))
    ensures '+' in Printed(d) <==>
              && d.Finite? && d.value != 0.0
              && RoundedOf(if d.value < 0.0 then -d.value else d.value).exponent >= PRECISION
  {
    hide Text, RoundedOf;
    if d.Finite? && d.value != 0.0 {
      TextAlphabet(RoundedOf(if d.value < 0.0 then -d.value else d.value));
    }
  }

  // ----- Which values these are

  /** The least value that rounds to 10^17. */
  const BOUND := 9_9999_9999_9999_9999.5

  lemma {:induction false} FromAboveIs(x: real)
    requires x >= 1.0
    ensures x == FromAbove(x).mantissa * Pow10(FromAbove(x).exponent) as real
    decreases x
  {
    if x >= 10.0 {
      FromAboveIs(x / 10.0);
      var s := FromAbove(x / 10.0);
      assert Pow10(s.exponent + 1) as real == 10.0 * Pow10(s.exponent) as real;
      Regroup(s.mantissa, Pow10(s.exponent) as real);
    }
  }

  lemma Regroup(m: real, p: real)
    ensures 10.0 * (m * p) == m * (10.0 * p)
  {
  }

  lemma {:induction false} Pow10Monotone(j: nat, k: nat)
    requires j <= k
    ensures Pow10(j) <= Pow10(k)
  {
    if j < k {
      Pow10Monotone(j, k - 1);
    }
  }

  lemma ScaledBounds(m: real, p: real)
    requires 1.0 <= m < 10.0 && p >= 1.0
    ensures p <= m * p < 10.0 * p
  {
  }

  /** Where the exponent of the value itself lies, by its magnitude. */
  lemma ExponentBounds(x: real)
    requires x >= 1.0
    ensures var s := FromAbove(x);
            && (s.exponent >= 17 ==> x >= 10_0000_0000_0000_0000.0)
            && (s.exponent <= 15 ==> x < 1_0000_0000_0000_0000.0)
            && (s.exponent == 16 ==> x == s.mantissa * 1_0000_0000_0000_0000.0)
  {
    hide FromAbove, Pow10;
    Pow10Values();
    var s := FromAbove(x);
    FromAboveIs(x);
    ScaledBounds(s.mantissa, Pow10(s.exponent) as real);
    if s.exponent >= 17 {
      Pow10Monotone(17, s.exponent);
    } else if s.exponent <= 15 {
      Pow10Monotone(s.exponent, 15);
    }
  }

  lemma RoundsUpIff(y: real)
    requires y < 10_0000_0000_0000_0000.0
    ensures RoundHalfEven(y) == 10_0000_0000_0000_0000 <==> y >= BOUND
  {
  }

  /** The exponent after rounding is seventeen or more exactly from the bound on. */
  lemma ExponentIff(x: real)
    requires x > 0.0
    ensures RoundedOf(x).exponent >= PRECISION <==> x >= BOUND
  {
    hide FromAbove, Pow10, RoundHalfEven;
    Pow10Values();
    if x >= 1.0 {
      ExponentBounds(x);
      var s := FromAbove(x);
      if s.exponent == 16 {
        RoundsUpIff(s.mantissa * 1_0000_0000_0000_0000.0);
      }
    }
  }

  /** A double is printed with a `+` exactly when its magnitude reaches the bound. */
  lemma PrintsPlusIff(d: DoubleValue)
    ensures '+' in Printed(d) <==> d.Finite? && (d.value >= BOUND || d.value <= -BOUND)
  {
    hide RoundedOf, Printed;
    PrintedAlphabet(d);
    if d.Finite? && d.value != 0.0 {
      ExponentIff(if d.value < 0.0 then -d.value else d.value);
    }
  }

  /** Among whole numbers, and every double from 2^53 on is one, the bound is 10^17. */
  lemma WholePrintsPlusIff(n: int)
    ensures '+' in Printed(Finite(n as real)) <==> n >= 10_0000_0000_0000_0000 || n <= -10_0000_0000_0000_0000
  {
    hide Printed;
    PrintsPlusIff(Finite(n as real));
  }

  // ----- Powers of ten

  lemma {:induction false} FromAbovePower(k: nat)
    ensures FromAbove(Pow10(k) as real) == Scientific(1.0, k)
  {
    if k > 0 {
      FromAbovePower(k - 1);
      assert Pow10(k) as real / 10.0 == Pow10(k - 1) as real;
    }
  }

  lemma {:induction false} DigitsOfPower(k: nat)
    ensures Digits(Pow10(k), k + 1) == "1" + Zeros(k)
  {
    if k == 0 {
      assert Digits(1, 1) == Digits(0, 0) + [Digit(1)];
    } else {
      DigitsOfPower(k - 1);
      ZerosEnd(k - 1);
      assert Pow10(k) / 10 == Pow10(k - 1) && Pow10(k) % 10 == 0;
      assert Digits(Pow10(k), k + 1) == Digits(Pow10(k - 1), k) + "0";
    }
  }

  lemma {:induction false} ZerosEnd(k: nat)
    ensures Zeros(k + 1) == Zeros(k) + "0"
  {
    if k > 0 {
      ZerosEnd(k - 1);
    }
  }

  lemma {:induction false} ZerosAreDropped(k: nat)
    ensures WithoutTrailingZeros(Zeros(k)) == ""
  {
    if k > 0 {
      ZerosEnd(k - 1);
      ZerosAreDropped(k - 1);
      assert Zeros(k)[..k - 1] == Zeros(k - 1);
    }
  }

  lemma PowerRounds(k: nat)
    ensures RoundedOf(Pow10(k) as real) == Rounded(Pow10(16), k)
  {
    hide FromAbove, Pow10;
    FromAbovePower(k);
    Pow10Values();
  }

  lemma PowerText(k: nat)
    requires k >= PRECISION
    ensures Text(Rounded(Pow10(16), k)) == "1e+" + Numeral(k)
  {
    hide Numeral, Digits, WithoutTrailingZeros, Pow10, Zeros;
    DigitsOfPower(16);
    ZerosAreDropped(16);
    var digits := Digits(Pow10(16), 17);
    assert digits[0] == '1' && digits[1..] == Zeros(16);
    assert ExponentText(k) == "e+" + Numeral(k);
  }

  /** From the seventeenth on, powers of ten print as `1e+` and their exponent. */
  lemma PowerOfTenPrints(k: nat)
    requires k >= PRECISION
    ensures Printed(Finite(Pow10(k) as real)) == "1e+" + Numeral(k)
  {
    hide Text, RoundedOf, Numeral;
    PowerRounds(k);
    PowerText(k);
  }

  // ----- The buffer

  /** The magnitudes of binary64 lie well within these. */
  predicate InRange(x: real) {
    x < Pow10(400) as real && x * Pow10(400) as real >= 1.0
  }

  predicate IsBinary64(d: DoubleValue) {
    d.Finite? ==> d.value == 0.0 || InRange(if d.value < 0.0 then -d.value else d.value)
  }

  lemma {:induction false} FromBelowIs(x: real)
    requires 0.0 < x < 1.0
    ensures x * Pow10(-FromBelow(x).exponent) as real == FromBelow(x).mantissa
    decreases 10.0 / x
  {
    if x * 10.0 < 1.0 {
      assert 10.0 / (x * 10.0) == 1.0 / x && 10.0 / x - 1.0 / x == 9.0 / x && 1.0 / x > 1.0;
      FromBelowIs(x * 10.0);
      var k: nat := -FromBelow(x * 10.0).exponent;
      assert Pow10(k + 1) as real == 10.0 * Pow10(k) as real;
      Regroup(x, Pow10(k) as real);
    } else {
      assert Pow10(1) == 10 * Pow10(0);
    }
  }

  lemma ExponentInRange(x: real)
    requires x > 0.0 && InRange(x)
    ensures -400 <= ScientificOf(x).exponent < 400
  {
    hide FromAbove, FromBelow, Pow10;
    if x >= 1.0 {
      var s := FromAbove(x);
      FromAboveIs(x);
      ScaledBounds(s.mantissa, Pow10(s.exponent) as real);
      if s.exponent >= 400 {
        Pow10Monotone(400, s.exponent);
      }
    } else {
      ExponentFromBelow(x);
    }
  }

  lemma ExponentFromBelow(x: real)
    requires 0.0 < x < 1.0 && InRange(x)
    ensures -400 <= FromBelow(x).exponent
  {
    hide FromBelow, Pow10;
    var k: nat := -FromBelow(x).exponent;
    FromBelowIs(x);
    if k > 400 {
      Pow10Monotone(401, k);
      TenTimes(x, k);
    }
  }

  lemma TenTimes(x: real, k: nat)
    requires x > 0.0 && x * Pow10(400) as real >= 1.0 && Pow10(k) >= Pow10(401)
    ensures x * Pow10(k) as real >= 10.0
  {
    hide Pow10;
    assert Pow10(401) == 10 * Pow10(400) by { Pow10Next(400); }
    ScaleUp(x, Pow10(401) as real, Pow10(k) as real);
    Regroup(x, Pow10(400) as real);
  }

  lemma Pow10Next(k: nat)
    ensures Pow10(k + 1) == 10 * Pow10(k)
  {
  }

  lemma ScaleUp(x: real, p: real, q: real)
    requires x > 0.0 && q >= p
    ensures x * q >= x * p
  {
  }

  lemma PowerInRange(k: nat)
    requires k < 400
    ensures IsBinary64(Finite(Pow10(k) as real))
  {
    hide Pow10;
    Pow10Monotone(k, 399);
    Pow10Next(399);
    ScaleUp(Pow10(k) as real, 1.0, Pow10(400) as real);
  }

  lemma ShortNumeral(n: nat)
    requires n < 1000
    ensures |Numeral(n)| <= 3
  {
    if n >= 10 {
      assert Numeral(n) == Numeral(n / 10) + [Digit(n % 10)];
      if n >= 100 {
        assert Numeral(n / 10) == Numeral(n / 10 / 10) + [Digit(n / 10 % 10)];
      }
    }
  }

  /** Whatever double is printed fits the buffer of 64 characters. */
  lemma PrintedFits(d: DoubleValue)
    requires IsBinary64(d)
    ensures 0 < |Printed(d)| < 64
  {
    hide ScientificOf, Pow10, Digits, WithoutTrailingZeros, Numeral, RoundHalfEven;
    if d.Finite? && d.value != 0.0 {
      var x := if d.value < 0.0 then -d.value else d.value;
      ExponentInRange(x);
      var e := RoundedOf(x).exponent;
      assert -400 <= e <= 400;
      ShortNumeral(if e < 0 then -e else e);
    }
  }
}

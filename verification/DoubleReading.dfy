/** Reading decimal text as a number, and the number the printed text of a double denotes. */
module DoubleReading {
  import opened Results
  import opened Scalars
  import opened Decimal
  import opened DoubleText

  // ----- Powers of ten

  function TenTo(k: int): (p: real)
    ensures p > 0.0
    decreases if k < 0 then -k else k
  {
    if k == 0 then 1.0 else if k > 0 then 10.0 * TenTo(k - 1) else TenTo(k + 1) / 10.0
  }

  lemma TenToNext(k: int)
    ensures TenTo(k + 1) == 10.0 * TenTo(k)
  {
  }

  lemma {:induction false} TenToSum(a: int, b: int)
    ensures TenTo(a + b) == TenTo(a) * TenTo(b)
    decreases if b < 0 then -b else b
  {
    hide TenTo;
    if b > 0 {
      TenToSum(a, b - 1);
      TenToNext(a + b - 1);
      TenToNext(b - 1);
      Regroup(TenTo(a), TenTo(b - 1));
    } else if b < 0 {
      TenToSum(a, b + 1);
      TenToNext(a + b);
      TenToNext(b);
      Regroup(TenTo(a), TenTo(b));
    } else {
      TenToZero();
    }
  }

  lemma TenToZero()
    ensures TenTo(0) == 1.0
  {
  }

  lemma {:induction false} PowerIs(k: nat)
    ensures Pow10(k) as real == TenTo(k)
  {
    if k > 0 {
      PowerIs(k - 1);
    }
  }

  // ----- Reading

  function IndexOf(s: string, c: char): (i: nat)
    ensures i <= |s|
  {
    if s == "" || s[0] == c then 0 else 1 + IndexOf(s[1..], c)
  }

  /** Digits behind a sign. */
  function ReadExponent(s: string): Option<int> {
    if |s| < 2 || !AllDigits(s[1..]) || (s[0] != '+' && s[0] != '-') then None
    else if s[0] == '-' then Some(-(Value(s[1..]) as int))
    else Some(Value(s[1..]))
  }

  /** Digits, and perhaps a point and more digits. */
  function ReadDecimal(s: string): Option<real> {
    var at := IndexOf(s, '.');
    var fraction := if at == |s| then "" else s[at + 1..];
    if at == 0 || !AllDigits(s[..at]) || !AllDigits(fraction) || (at < |s| && fraction == "") then None
    else Some(Value(s[..at] + fraction) as real * TenTo(-|fraction|))
  }

  function ReadUnsigned(s: string): Option<real> {
    var at := IndexOf(s, 'e');
    var significand := ReadDecimal(s[..at]);
    var exponent: Option<int> := if at == |s| then Some(0) else ReadExponent(s[at + 1..]);
    if significand.None? || exponent.None? then None else Some(significand.value * TenTo(exponent.value))
  }

  function Read(s: string): Option<DoubleValue> {
    if s == "nan" then Some(NotANumber)
    else if s == "inf" then Some(PositiveInfinity)
    else if s == "-inf" then Some(NegativeInfinity)
    else if s != "" && s[0] == '-' then
      var size := ReadUnsigned(s[1..]);
      if size.None? then None else Some(Finite(-size.value))
    else
      var size := ReadUnsigned(s);
      if size.None? then None else Some(Finite(size.value))
  }

  // ----- Digits

  lemma {:induction false} ValueJoined(a: string, b: string)
    requires AllDigits(a) && AllDigits(b)
    ensures AllDigits(a + b) && Value(a + b) == Value(a) * Pow10(|b|) + Value(b)
    decreases |b|
  {
    hide Pow10;
    if b == "" {
      PowerIs(0);
      assert a + b == a;
    } else {
      var front, last := b[..|b| - 1], b[|b| - 1];
      ValueJoined(a, front);
      assert (a + b)[..|a + b| - 1] == a + front && (a + b)[|a + b| - 1] == last;
      Pow10Next(|b| - 1);
      Shift(Value(a), Pow10(|front|), Value(front), DigitValue(last));
    }
  }

  lemma Shift(v: nat, p: nat, w: nat, d: nat)
    ensures 10 * (v * p + w) + d == v * (10 * p) + (10 * w + d)
  {
  }

  lemma {:induction false} ZerosValue(k: nat)
    ensures Value(Zeros(k)) == 0
  {
    if k > 0 {
      ZerosValue(k - 1);
      ZerosEnd(k - 1);
      assert Zeros(k)[..k - 1] == Zeros(k - 1);
    }
  }

  lemma {:induction false} DigitsValue(n: nat, k: nat)
    requires n < Pow10(k)
    ensures Value(Digits(n, k)) == n
  {
    hide Pow10;
    if k > 0 {
      Pow10Next(k - 1);
      DigitsValue(n / 10, k - 1);
      var s := Digits(n, k);
      assert s[..|s| - 1] == Digits(n / 10, k - 1) && s[|s| - 1] == Digit(n % 10);
      assert n == 10 * (n / 10) + n % 10;
    } else {
      PowerIs(0);
      TenToZero();
    }
  }

  /** What is cut off is zeros. */
  lemma {:induction false} Trimmed(s: string) returns (k: nat)
    requires AllDigits(s)
    ensures s == WithoutTrailingZeros(s) + Zeros(k)
  {
    if s != "" && s[|s| - 1] == '0' {
      k := Trimmed(s[..|s| - 1]);
      ZerosEnd(k);
      assert s == s[..|s| - 1] + "0";
      k := k + 1;
    } else {
      k := 0;
      assert s == s + "";
    }
  }

  /** Zeros at the end of a fraction count for nothing. */
  lemma TrimmedValue(a: string, d: string)
    requires AllDigits(a) && AllDigits(d)
    ensures var kept := WithoutTrailingZeros(d);
            && AllDigits(a + kept) && AllDigits(a + d)
            && Value(a + d) as real * TenTo(-|d|) == Value(a + kept) as real * TenTo(-|kept|)
  {
    hide Value, TenTo, Pow10, Zeros, WithoutTrailingZeros;
    var kept := WithoutTrailingZeros(d);
    var k := Trimmed(d);
    assert a + d == (a + kept) + Zeros(k);
    ValueJoined(a, d);
    ValueJoined(a, kept);
    ValueJoined(a + kept, Zeros(k));
    ZerosValue(k);
    PowerIs(k);
    TenToSum(k, -|d|);
    assert k - |d| == -|kept|;
    Associate(Value(a + kept) as real, TenTo(k), TenTo(-|d|));
  }

  lemma Associate(a: real, b: real, c: real)
    ensures (a * b) * c == a * (b * c)
  {
  }

  // ----- Reading the printed pieces

  lemma {:induction false} IndexOfAbsent(s: string, c: char, rest: string)
    requires c !in s
    ensures IndexOf(s + rest, c) == |s| + IndexOf(rest, c)
  {
    if s == "" {
      assert s + rest == rest;
    } else {
      assert (s + rest)[1..] == s[1..] + rest;
      IndexOfAbsent(s[1..], c, rest);
    }
  }

  lemma NoPoint(digits: string)
    requires AllDigits(digits)
    ensures '.' !in digits && 'e' !in digits
  {
  }

  lemma DecimalRead(a: string, kept: string)
    requires a != "" && AllDigits(a) && AllDigits(kept)
    ensures AllDigits(a + kept)
    ensures ReadDecimal(a + (if kept == "" then "" else "." + kept)) == Some(Value(a + kept) as real * TenTo(-|kept|))
  {
    hide Value, TenTo;
    NoPoint(a);
    IndexOfAbsent(a, '.', if kept == "" then "" else "." + kept);
    var s := a + (if kept == "" then "" else "." + kept);
    if kept != "" {
      assert s[..|a|] == a && s[|a| + 1..] == kept;
    } else {
      assert s[..|a|] == a;
    }
  }

  lemma FractionRead(a: string, d: string)
    requires a != "" && AllDigits(a) && AllDigits(d)
    ensures AllDigits(a + d) && ReadDecimal(a + Fraction(d)) == Some(Value(a + d) as real * TenTo(-|d|))
    ensures 'e' !in a + Fraction(d)
  {
    hide Value, TenTo, WithoutTrailingZeros, ReadDecimal;
    DecimalRead(a, WithoutTrailingZeros(d));
    TrimmedValue(a, d);
    NoPoint(a);
    NoPoint(WithoutTrailingZeros(d));
  }

  lemma PlainRead(s: string, value: real)
    requires 'e' !in s && ReadDecimal(s) == Some(value)
    ensures ReadUnsigned(s) == Some(value)
  {
    hide ReadDecimal;
    IndexOfAbsent(s, 'e', "");
    assert s + "" == s && s[..|s|] == s;
  }

  lemma ExponentRead(e: int)
    ensures var t := ExponentText(e); t != "" && t[0] == 'e' && ReadExponent(t[1..]) == Some(e)
  {
    hide Numeral, Value;
    var size: nat := if e < 0 then -e else e;
    var digits := (if size < 10 then "0" else "") + Numeral(size);
    var t := ExponentText(e);
    assert t[1..][1..] == digits;
    ValueOfNumeral(size);
    ValueJoined(if size < 10 then "0" else "", Numeral(size));
    assert Value("0") == 0 && Value("") == 0 by { ZeroValue(); }
  }

  lemma ZeroValue()
    ensures Value("0") == 0 && Value("") == 0
  {
    assert "0"[..0] == "";
  }

  lemma ScaledBy(front: string, t: string, value: real, e: int)
    requires 'e' !in front && ReadDecimal(front) == Some(value)
    requires t != "" && t[0] == 'e' && ReadExponent(t[1..]) == Some(e)
    ensures ReadUnsigned(front + t) == Some(value * TenTo(e))
  {
    hide ReadDecimal, TenTo, ReadExponent;
    IndexOfAbsent(front, 'e', t);
    var s := front + t;
    assert IndexOf(s, 'e') == |front| < |s|;
    assert s[..|front|] == front && s[|front| + 1..] == t[1..];
    assert ReadUnsigned(s).value == value * TenTo(e);
  }

  lemma ScaledRead(front: string, value: real, e: int)
    requires 'e' !in front && ReadDecimal(front) == Some(value)
    ensures ReadUnsigned(front + ExponentText(e)) == Some(value * TenTo(e))
  {
    hide ReadDecimal, ReadUnsigned, TenTo, ExponentText, ReadExponent;
    ExponentRead(e);
    ScaledBy(front, ExponentText(e), value, e);
  }

  /** The number seventeen digits and an exponent stand for. */
  function Denoted(r: Rounded): real {
    r.digits as real * TenTo(r.exponent - 16)
  }

  predicate Normal(r: Rounded) {
    Pow10(16) <= r.digits < Pow10(17)
  }

  lemma ScientificRead(r: Rounded)
    requires Normal(r) && (r.exponent < -4 || r.exponent >= PRECISION)
    ensures ReadUnsigned(Text(r)) == Some(Denoted(r))
  {
    hide Value, TenTo, ReadDecimal, ReadUnsigned, Fraction, ExponentText, Digits, Pow10;
    var digits := Digits(r.digits, PRECISION);
    DigitsValue(r.digits, PRECISION);
    var a, d := [digits[0]], digits[1..];
    assert a + d == digits;
    FractionRead(a, d);
    ScaledRead(a + Fraction(d), r.digits as real * TenTo(-16), r.exponent);
    TenToSum(-16, r.exponent);
    Associate(r.digits as real, TenTo(-16), TenTo(r.exponent));
  }

  lemma PointRead(r: Rounded)
    requires Normal(r) && 0 <= r.exponent < PRECISION
    ensures ReadUnsigned(Text(r)) == Some(Denoted(r))
  {
    hide Value, TenTo, ReadDecimal, ReadUnsigned, Fraction, Digits, Pow10;
    var digits := Digits(r.digits, PRECISION);
    DigitsValue(r.digits, PRECISION);
    var a, d := digits[..r.exponent + 1], digits[r.exponent + 1..];
    assert a + d == digits;
    FractionRead(a, d);
    PlainRead(a + Fraction(d), Denoted(r));
  }

  lemma {:induction false} TrimBehind(zeros: string, s: string)
    requires WithoutTrailingZeros(s) != ""
    ensures WithoutTrailingZeros(zeros + s) == zeros + WithoutTrailingZeros(s)
    decreases |s|
  {
    if s[|s| - 1] == '0' {
      assert (zeros + s)[..|zeros + s| - 1] == zeros + s[..|s| - 1];
      TrimBehind(zeros, s[..|s| - 1]);
    }
  }

  lemma SmallRead(r: Rounded)
    requires Normal(r) && -4 <= r.exponent < 0
    ensures ReadUnsigned(Text(r)) == Some(Denoted(r))
  {
    hide Value, TenTo, ReadDecimal, ReadUnsigned, Digits, Pow10, Zeros, WithoutTrailingZeros;
    var digits := Digits(r.digits, PRECISION);
    var zeros := Zeros(-r.exponent - 1);
    DigitsValue(r.digits, PRECISION);
    SomethingKept(digits);
    TrimBehind(zeros, digits);
    FractionRead("0", zeros + digits);
    assert Text(r) == "0" + Fraction(zeros + digits);
    LeadingZeros(-r.exponent - 1, digits);
    assert ReadDecimal(Text(r)) == Some(Denoted(r));
    assert 'e' !in Text(r);
    PlainRead(Text(r), Denoted(r));
  }

  lemma LeadingZeros(k: nat, digits: string)
    requires AllDigits(digits)
    ensures AllDigits("0" + (Zeros(k) + digits)) && Value("0" + (Zeros(k) + digits)) == Value(digits)
  {
    hide Value, Pow10, Zeros;
    assert "0" + (Zeros(k) + digits) == ("0" + Zeros(k)) + digits;
    ValueJoined("0" + Zeros(k), digits);
    ValueJoined("0", Zeros(k));
    ZerosValue(k);
    ZeroValue();
  }

  lemma SomethingKept(digits: string)
    requires AllDigits(digits) && Value(digits) > 0
    ensures WithoutTrailingZeros(digits) != ""
  {
    var k := Trimmed(digits);
    if WithoutTrailingZeros(digits) == "" {
      assert digits == Zeros(k);
      ZerosValue(k);
    }
  }

  lemma TextRead(r: Rounded)
    requires Normal(r)
    ensures ReadUnsigned(Text(r)) == Some(Denoted(r))
  {
    hide Text, ReadUnsigned, Normal;
    if r.exponent < -4 || r.exponent >= PRECISION {
      ScientificRead(r);
    } else if r.exponent < 0 {
      SmallRead(r);
    } else {
      PointRead(r);
    }
  }

  // ----- The rounding

  lemma {:induction false} FromAboveDenotes(x: real)
    requires x >= 1.0
    ensures x == FromAbove(x).mantissa * TenTo(FromAbove(x).exponent)
  {
    hide TenTo, FromAbove;
    FromAboveIs(x);
    PowerIs(FromAbove(x).exponent);
  }

  lemma FromBelowDenotes(x: real)
    requires 0.0 < x < 1.0
    ensures x == FromBelow(x).mantissa * TenTo(FromBelow(x).exponent)
  {
    hide TenTo, FromBelow, Pow10;
    var s := FromBelow(x);
    FromBelowIs(x);
    PowerIs(-s.exponent);
    TenToSum(-s.exponent, s.exponent);
    TenToZero();
    Associate(x, TenTo(-s.exponent), TenTo(s.exponent));
  }

  function Distance(x: real, y: real): real {
    if x < y then y - x else x - y
  }

  lemma Nearest(y: real)
    ensures Distance(y, RoundHalfEven(y) as real) <= 0.5
    ensures Distance(y, RoundHalfEven(y) as real) == 0.5 ==> RoundHalfEven(y) % 2 == 0
  {
  }

  lemma DistanceScales(x: real, w: real, a: real, b: real, unit: real)
    requires unit > 0.0 && x == a * unit && w == b * unit
    ensures Distance(x, w) == Distance(a, b) * unit
  {
    assert x - w == (a - b) * unit && w - x == (b - a) * unit;
    if a < b {
      assert (b - a) * unit > 0.0;
    } else {
      assert (a - b) * unit >= 0.0;
    }
  }

  /** The digits before a carry, and the unit of the last of them. */
  lemma RoundsInUnits(x: real, n: int, unit: real)
    requires x > 0.0 && unit == TenTo(ScientificOf(x).exponent - 16)
    requires n == RoundHalfEven(ScientificOf(x).mantissa * 1_0000_0000_0000_0000.0)
    ensures Distance(x, n as real * unit) <= 0.5 * unit
    ensures Distance(x, n as real * unit) == 0.5 * unit ==> n % 2 == 0
  {
    hide TenTo, ScientificOf, RoundHalfEven, Distance;
    var y := ScientificOf(x).mantissa * 1_0000_0000_0000_0000.0;
    InUnits(x);
    Nearest(y);
    DistanceScales(x, n as real * unit, y, n as real, unit);
    DistancePositive(y, n as real);
    HalfUnit(Distance(y, n as real), unit);
  }

  lemma InUnits(x: real)
    requires x > 0.0
    ensures var s := ScientificOf(x);
            x == (s.mantissa * 1_0000_0000_0000_0000.0) * TenTo(s.exponent - 16)
  {
    hide TenTo, ScientificOf, Pow10;
    var s := ScientificOf(x);
    Pow10Values();
    PowerIs(16);
    ScientificDenotes(x);
    TenToSum(16, s.exponent - 16);
    Associate(s.mantissa, TenTo(16), TenTo(s.exponent - 16));
  }

  lemma CarryDenotes(e: int)
    ensures Denoted(Rounded(Pow10(16), e + 1)) == Pow10(17) as real * TenTo(e - 16)
    ensures TenTo(e + 1 - 16) > TenTo(e - 16)
  {
    hide TenTo, Pow10;
    TenToNext(e - 16);
    Pow10Next(16);
    Carry(Pow10(16) as real, TenTo(e - 16));
  }

  lemma Carry(p: real, unit: real)
    ensures p * (10.0 * unit) == (10.0 * p) * unit
  {
  }

  /** A value rounds to the nearest number of seventeen digits, halfway to an even last digit. */
  lemma RoundsToNearest(x: real)
    requires x > 0.0
    ensures var r := RoundedOf(x);
            && Normal(r)
            && Distance(x, Denoted(r)) <= 0.5 * TenTo(r.exponent - 16)
            && (Distance(x, Denoted(r)) == 0.5 * TenTo(r.exponent - 16) ==> r.digits % 2 == 0)
  {
    hide TenTo, ScientificOf, RoundHalfEven, Pow10, Distance, Denoted;
    var s := ScientificOf(x);
    var n := RoundHalfEven(s.mantissa * 1_0000_0000_0000_0000.0);
    var unit := TenTo(s.exponent - 16);
    RoundsInUnits(x, n, unit);
    if n == Pow10(17) {
      CarryDenotes(s.exponent);
      assert RoundedOf(x) == Rounded(Pow10(16), s.exponent + 1);
      assert Denoted(RoundedOf(x)) == n as real * unit;
    } else {
      assert RoundedOf(x) == Rounded(n, s.exponent);
      PlainDenotes(n, s.exponent);
      assert Denoted(RoundedOf(x)) == n as real * unit;
    }
  }

  lemma PlainDenotes(n: nat, e: int)
    ensures Denoted(Rounded(n, e)) == n as real * TenTo(e - 16)
  {
  }

  lemma ScientificDenotes(x: real)
    requires x > 0.0
    ensures x == ScientificOf(x).mantissa * TenTo(ScientificOf(x).exponent)
  {
    hide TenTo;
    if x >= 1.0 {
      FromAboveDenotes(x);
    } else {
      FromBelowDenotes(x);
    }
  }

  lemma DistancePositive(x: real, y: real)
    ensures Distance(x, y) >= 0.0
  {
  }

  lemma HalfUnit(d: real, unit: real)
    requires 0.0 <= d <= 0.5 && unit > 0.0
    ensures d * unit <= 0.5 * unit
    ensures d * unit == 0.5 * unit ==> d == 0.5
  {
  }

  // ----- The printed text

  lemma TextStartsWithDigit(r: Rounded)
    ensures Text(r) != "" && IsDigit(Text(r)[0])
  {
    hide Digits, Zeros, WithoutTrailingZeros, ExponentText, Fraction;
  }

  /** The text of a value reads as the number of seventeen digits nearest to it, with the value's sign. */
  lemma PrintedReads(v: real)
    requires v != 0.0
    ensures var x := if v < 0.0 then -v else v;
            var w := Denoted(RoundedOf(x));
            Read(Printed(Finite(v))) == Some(Finite(if v < 0.0 then -w else w))
  {
    hide Text, ReadUnsigned, RoundedOf;
    var x := if v < 0.0 then -v else v;
    var text := Text(RoundedOf(x));
    TextRead(RoundedOf(x));
    TextStartsWithDigit(RoundedOf(x));
    if v < 0.0 {
      assert ("-" + text)[0] == '-' && ("-" + text)[1..] == text && ("-" + text)[1] == text[0];
    }
  }

  /** The remaining doubles read back as themselves; minus zero prints as zero here. */
  lemma SpecialsRead()
    ensures Read(Printed(NotANumber)) == Some(NotANumber)
    ensures Read(Printed(PositiveInfinity)) == Some(PositiveInfinity)
    ensures Read(Printed(NegativeInfinity)) == Some(NegativeInfinity)
    ensures Read(Printed(Finite(0.0))) == Some(Finite(0.0))
  {
    hide ReadUnsigned;
    ZeroRead();
  }

  lemma ZeroRead()
    ensures ReadUnsigned("0") == Some(0.0)
  {
    NoPoint("0");
    DecimalRead("0", "");
    ZeroValue();
    assert "0" + "" == "0";
    PlainRead("0", 0.0);
  }

  // ----- The style

  lemma {:induction false} TenToMonotone(a: int, b: int)
    requires a <= b
    ensures TenTo(a) <= TenTo(b)
    decreases b - a
  {
    if a < b {
      TenToNext(b - 1);
      TenToMonotone(a, b - 1);
    }
  }

  lemma DenotedLies(r: Rounded)
    requires Normal(r)
    ensures TenTo(r.exponent) <= Denoted(r) < TenTo(r.exponent + 1)
  {
    hide TenTo, Pow10;
    var unit := TenTo(r.exponent - 16);
    PowerTimes(16, r.exponent - 16);
    PowerTimes(17, r.exponent - 16);
    Scale(Pow10(16) as real, r.digits as real, unit);
    ScaleBelow(r.digits as real, Pow10(17) as real, unit);
  }

  lemma PowerTimes(k: nat, e: int)
    ensures Pow10(k) as real * TenTo(e) == TenTo(k + e)
  {
    hide TenTo, Pow10;
    PowerIs(k);
    TenToSum(k, e);
  }

  lemma Scale(a: real, b: real, unit: real)
    requires a <= b && unit > 0.0
    ensures a * unit <= b * unit
  {
  }

  lemma ScaleBelow(a: real, b: real, unit: real)
    requires a < b && unit > 0.0
    ensures a * unit < b * unit
  {
  }

  /** Exponent style is for rounded values below 10^-4 and from 10^17 on. */
  lemma StyleIff(r: Rounded)
    requires Normal(r)
    ensures 'e' in Text(r) <==> Denoted(r) < TenTo(-4) || Denoted(r) >= TenTo(17)
  {
    hide TenTo, Denoted, Pow10;
    DenotedLies(r);
    ExponentStyle(r);
    if r.exponent < -4 {
      TenToMonotone(r.exponent + 1, -4);
    } else if r.exponent >= 17 {
      TenToMonotone(17, r.exponent);
    } else {
      TenToMonotone(-4, r.exponent);
      TenToMonotone(r.exponent + 1, 17);
    }
  }

  lemma ExponentStyle(r: Rounded)
    ensures 'e' in Text(r) <==> r.exponent < -4 || r.exponent >= 17
  {
    hide Digits, Zeros, WithoutTrailingZeros, Numeral, ExponentText;
    var digits := Digits(r.digits, PRECISION);
    NoPoint(digits);
    if r.exponent < -4 || r.exponent >= 17 {
      ExponentRead(r.exponent);
      var front := [digits[0]] + Fraction(digits[1..]);
      assert Text(r)[|front|] == 'e';
    }
  }
}

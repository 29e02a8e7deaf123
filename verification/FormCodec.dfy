/** Form encoding of request values, and the agreement of the connector that encodes a value with the planner that
    checks the bytes. */
module FormCodec {
  import opened Results
  import opened Scalars
  import opened Decimal
  import Utf8
  import Alphabet
  import Hexadecimal
  import DoubleText

  /** Every character stands for a byte. */
  predicate IsBytes(s: string) {
    forall i :: 0 <= i < |s| ==> s[i] as int < 0x100
  }

  /** The unreserved characters of section 2.3 of RFC 3986. */
  predicate IsUnreserved(c: char) {
    'a' <= c <= 'z' || 'A' <= c <= 'Z' || '0' <= c <= '9' || c == '-' || c == '.' || c == '_' || c == '~'
  }

  function EncodeByte(c: char): string
    requires c as int < 0x100
  {
    if IsUnreserved(c) then [c]
    else if c == ' ' then "+"
    else ['%', Hexadecimal.UpperDigit(c as int / 16), Hexadecimal.UpperDigit(c as int % 16)]
  }

  function Encoded(s: string): string
    requires IsBytes(s)
  {
    if s == "" then "" else EncodeByte(s[0]) + Encoded(s[1..])
  }

  method FormUrlEncode(value: string) returns (result: string)
    requires IsBytes(value)
    ensures result == Encoded(value)
  {
    hide IsUnreserved, Hexadecimal.UpperDigit;
    result := "";
    for i := 0 to |value|
      invariant result == Encoded(value[..i])
    {
      var c := value[i];
      EncodedSnoc(value[..i], c);
      assert value[..i + 1] == value[..i] + [c];
      if IsUnreserved(c) {
        result := result + [c];
      } else if c == ' ' {
        result := result + "+";
      } else {
        result := result + ['%'];
        result := result + [Hexadecimal.UpperDigit(c as int / 16 % 16)];
        result := result + [Hexadecimal.UpperDigit(c as int % 16)];
      }
    }
    assert value[..|value|] == value;
  }

  lemma {:induction false} EncodedSnoc(s: string, c: char)
    requires IsBytes(s + [c])
    requires IsBytes(s) && c as int < 0x100
    ensures Encoded(s + [c]) == Encoded(s) + EncodeByte(c)
  {
    if s == "" {
      assert s + [c] == [c];
      assert Encoded([c]) == EncodeByte(c) + Encoded([c][1..]);
    } else {
      assert (s + [c])[1..] == s[1..] + [c];
      EncodedSnoc(s[1..], c);
    }
  }

  // ----- A decoder

  /** Reads unreserved characters, `+` and percent triplets with upper-case digits; anything else is no form text. */
  function Decode(s: string): Option<string> {
    if s == "" then Some("")
    else if s[0] == '%' then
      if |s| < 3 then None
      else
        var high, low, rest := Hexadecimal.UpperValue(s[1]), Hexadecimal.UpperValue(s[2]), Decode(s[3..]);
        if high.None? || low.None? || rest.None? then None
        else Some([(high.value * 16 + low.value) as char] + rest.value)
    else if !IsUnreserved(s[0]) && s[0] != '+' then None
    else
      var rest := Decode(s[1..]);
      if rest.None? then None else Some([if s[0] == '+' then ' ' else s[0]] + rest.value)
  }

  lemma DecodeEncodedByte(c: char, rest: string)
    requires c as int < 0x100 && Decode(rest).Some?
    ensures Decode(EncodeByte(c) + rest) == Some([c] + Decode(rest).value)
  {
    var s := EncodeByte(c) + rest;
    if !IsUnreserved(c) && c != ' ' {
      assert s[3..] == rest;
      HexRoundTrip(c as int / 16);
      HexRoundTrip(c as int % 16);
      assert c as int / 16 * 16 + c as int % 16 == c as int;
    } else {
      assert s[1..] == rest;
    }
  }

  lemma HexRoundTrip(n: nat)
    requires n < 16
    ensures Hexadecimal.UpperValue(Hexadecimal.UpperDigit(n)) == Some(n)
  {
  }

  /** Form text is made of unreserved characters, `+` and percent triplets, and decoding gives the bytes back; so
      different byte strings never share an encoding. */
  lemma {:induction false} DecodeInvertsEncode(s: string)
    requires IsBytes(s)
    ensures Decode(Encoded(s)) == Some(s)
  {
    if s != "" {
      DecodeInvertsEncode(s[1..]);
      DecodeEncodedByte(s[0], Encoded(s[1..]));
      assert s == [s[0]] + s[1..];
    }
  }

  /** Text that needs no escaping is sent as it is. */
  lemma {:induction false} UnreservedIsIdentity(s: string)
    requires forall i :: 0 <= i < |s| ==> IsUnreserved(s[i])
    ensures IsBytes(s) && Encoded(s) == s
  {
    if s != "" {
      UnreservedIsIdentity(s[1..]);
      assert s == [s[0]] + s[1..];
      assert forall i :: 1 <= i < |s| ==> s[i] == s[1..][i - 1];
    }
  }

  // ----- Encoding a typed value

  function BooleanText(b: bool): string {
    if b then "true" else "false"
  }

  const FORMAT_BUFFER := 64

  /** The text of a double, if it is not empty and fits the buffer it is printed to. */
  function CanonicalDouble(d: DoubleValue): Option<string> {
    var printed := DoubleText.Printed(d);
    if 0 < |printed| < FORMAT_BUFFER then Some(printed) else None
  }

  /** The text a value stands for before form encoding; none for text with controls or broken UTF-8. */
  ghost function DecodedText(v: ScalarValue): Option<string> {
    match v
    case BooleanScalar(b) => Some(BooleanText(b))
    case BigintScalar(n) => Some(SignedNumeral(n))
    case VarcharScalar(s) => if Utf8.IsPlainUtf8(s) then Some(s) else None
    case DoubleScalar(d) => CanonicalDouble(d)
  }

  lemma {:induction false} EncodedTextIsBytes(cps: seq<int>)
    requires Utf8.AllScalars(cps)
    ensures IsBytes(Utf8.EncodeText(cps))
  {
    if cps != [] {
      EncodedTextIsBytes(cps[1..]);
    }
  }

  /** A double prints to unreserved characters and, from the bound on, a `+`. */
  lemma PrintedCharacters(d: DoubleValue)
    ensures var t := DoubleText.Printed(d);
            && (forall i :: 0 <= i < |t| ==> IsUnreserved(t[i]) || t[i] == '+')
            && ('+' in t <==> PrintsPlus(DoubleScalar(d)))
  {
    hide DoubleText.Printed;
    DoubleText.PrintedAlphabet(d);
    DoubleText.PrintsPlusIff(d);
    var t := DoubleText.Printed(d);
    forall i | 0 <= i < |t| ensures IsUnreserved(t[i]) || t[i] == '+' {
      assert DoubleText.IsPlain(t[i]) || t[i] == '+';
    }
  }

  /** A finite double whose magnitude rounds to 10^17 or more. */
  predicate PrintsPlus(v: ScalarValue) {
    v.DoubleScalar? && v.double.Finite? && (v.double.value >= DoubleText.BOUND || v.double.value <= -DoubleText.BOUND)
  }

  lemma BooleanUnreserved(b: bool)
    ensures forall i :: 0 <= i < |BooleanText(b)| ==> IsUnreserved(BooleanText(b)[i])
  {
  }

  lemma NumeralUnreserved(n: int)
    ensures forall i :: 0 <= i < |SignedNumeral(n)| ==> IsUnreserved(SignedNumeral(n)[i])
  {
  }

  lemma DecodedTextIsBytes(v: ScalarValue)
    requires DecodedText(v).Some?
    ensures IsBytes(DecodedText(v).value)
  {
    hide DoubleText.Printed, SignedNumeral;
    match v {
      case BigintScalar(n) => NumeralUnreserved(n); UnreservedIsIdentity(SignedNumeral(n));
      case VarcharScalar(s) =>
        var cps :| Utf8.AllScalars(cps) && Utf8.NoControls(cps) && Utf8.EncodeText(cps) == s;
        EncodedTextIsBytes(cps);
      case DoubleScalar(d) => PrintedCharacters(d);
      case BooleanScalar(_) =>
    }
  }

  /** What the connector sends for a compiled scalar. */
  ghost function ConnectorBytes(v: CompiledScalar): Option<string>
  {
    if v.NullOf? || DecodedText(v.value).None? then None
    else
      DecodedTextIsBytes(v.value);
      Some(Encoded(DecodedText(v.value).value))
  }

  method EncodeCompiledQueryScalar(v: CompiledScalar) returns (out: Option<string>)
    ensures out == ConnectorBytes(v)
  {
    if v.NullOf? {
      return None;
    }
    var decoded: string;
    match v.value {
      case BooleanScalar(b) => decoded := BooleanText(b);
      case BigintScalar(n) => decoded := SignedNumeral(n);
      case VarcharScalar(s) =>
        var valid := Utf8.IsValidUtf8Text(s);
        if !valid {
          return None;
        }
        decoded := s;
      case DoubleScalar(d) =>
        var text := CanonicalDouble(d);
        if text.None? {
          return None;
        }
        decoded := text.value;
    }
    DecodedTextIsBytes(v.value);
    var encoded := FormUrlEncode(decoded);
    return Some(encoded);
  }

  // ----- The planner's binding

  datatype BindingSource =
    | FixedSource | PageSizeSource | PageNumberSource | RelationInputSource | ConditionalInputSource

  /** The constructor arguments of a planned query binding: one active payload, the others at rest. */
  datatype QueryBinding = QueryBinding(
    name: string, source: BindingSource, sourceId: string, kind: ScalarType,
    boolean: bool, bigint: int, varchar: string, double: DoubleValue, encodedValue: string)

  const ZERO := Finite(0.0)

  predicate SourceAgrees(b: QueryBinding) {
    b.name != "" && ((b.source.RelationInputSource? || b.source.ConditionalInputSource?) <==> b.sourceId != "")
  }

  ghost predicate PayloadAgrees(b: QueryBinding) {
    match b.kind
    case Boolean => b.bigint == 0 && b.varchar == "" && b.double == ZERO
    case Bigint => !b.boolean && b.varchar == "" && b.double == ZERO
    case Varchar => !b.boolean && b.bigint == 0 && b.double == ZERO && Utf8.IsPlainUtf8(b.varchar)
    case Double => !b.boolean && b.bigint == 0 && b.varchar == ""
  }

  ghost predicate BytesAgree(b: QueryBinding)
    requires b.kind == Varchar ==> IsBytes(b.varchar)
  {
    match b.kind
    case Boolean => b.encodedValue == BooleanText(b.boolean)
    case Bigint => b.encodedValue == SignedNumeral(b.bigint)
    case Varchar => b.encodedValue == Encoded(b.varchar)
    case Double => CanonicalDouble(b.double) == Some(b.encodedValue)
  }

  /** A binding the constructor does not refuse. */
  ghost predicate BindingAccepted(b: QueryBinding) {
    SourceAgrees(b) && PayloadAgrees(b) && (PlainIsBytes(b); BytesAgree(b))
  }

  lemma PlainIsBytes(b: QueryBinding)
    requires PayloadAgrees(b)
    ensures b.kind == Varchar ==> IsBytes(b.varchar)
  {
    if b.kind == Varchar {
      DecodedTextIsBytes(VarcharScalar(b.varchar));
    }
  }

  method CheckQueryBinding(b: QueryBinding) returns (accepted: bool)
    ensures accepted <==> BindingAccepted(b)
  {
    if !SourceAgrees(b) {
      return false;
    }
    var expected: string;
    match b.kind {
      case Boolean =>
        if b.bigint != 0 || b.varchar != "" || b.double != ZERO {
          return false;
        }
        expected := BooleanText(b.boolean);
      case Bigint =>
        if b.boolean || b.varchar != "" || b.double != ZERO {
          return false;
        }
        expected := SignedNumeral(b.bigint);
      case Varchar =>
        if b.boolean || b.bigint != 0 || b.double != ZERO {
          return false;
        }
        var valid := Utf8.ValidateVarchar(b.varchar);
        if !valid {
          return false;
        }
        PlainIsBytes(b);
        expected := FormUrlEncode(b.varchar);
      case Double =>
        if b.boolean || b.bigint != 0 || b.varchar != "" {
          return false;
        }
        var text := CanonicalDouble(b.double);
        if text.None? {
          return false;
        }
        expected := text.value;
    }
    return b.encodedValue == expected;
  }

  // ----- Agreement

  /** The binding that carries `v` with the bytes `encoded`. */
  function BindingFor(name: string, source: BindingSource, sourceId: string, v: ScalarValue,
                      encoded: string): QueryBinding {
    match v
    case BooleanScalar(b) => QueryBinding(name, source, sourceId, Boolean, b, 0, "", ZERO, encoded)
    case BigintScalar(n) => QueryBinding(name, source, sourceId, Bigint, false, n, "", ZERO, encoded)
    case VarcharScalar(s) => QueryBinding(name, source, sourceId, Varchar, false, 0, s, ZERO, encoded)
    case DoubleScalar(d) => QueryBinding(name, source, sourceId, Double, false, 0, "", d, encoded)
  }

  /** For any BOOLEAN, BIGINT or VARCHAR, and for a DOUBLE whose magnitude does not round to 10^17 or more, the
      planner accepts exactly the bytes the connector makes: though it validates text with another recogniser and
      form-encodes text alone. */
  lemma PlannerAcceptsConnectorBytes(name: string, source: BindingSource, sourceId: string, v: ScalarValue,
                                     encoded: string)
    requires !PrintsPlus(v) && SourceAgrees(BindingFor(name, source, sourceId, v, encoded))
    ensures BindingAccepted(BindingFor(name, source, sourceId, v, encoded))
            <==> ConnectorBytes(Concrete(v)) == Some(encoded)
  {
    hide Encoded, IsUnreserved, SignedNumeral, Utf8.IsPlainUtf8, PrintsPlus, DoubleText.Printed;
    match v {
      case BooleanScalar(b) => BooleanUnreserved(b); UnreservedIsIdentity(BooleanText(b));
      case BigintScalar(n) => NumeralUnreserved(n); UnreservedIsIdentity(SignedNumeral(n));
      case VarcharScalar(s) =>
        if Utf8.IsPlainUtf8(s) {
          DecodedTextIsBytes(v);
        }
      case DoubleScalar(d) =>
        PrintedCharacters(d);
        UnreservedIsIdentity(DoubleText.Printed(d));
    }
  }

  /** A binding is accepted exactly if it has a name, names an input when its value comes from one and only then, and
      carries one value and nothing else: a double with its printed text, any other with the connector's bytes. */
  lemma AcceptedIff(b: QueryBinding)
    ensures BindingAccepted(b) <==>
              && b.name != ""
              && (b.sourceId == "" <==> b.source in {FixedSource, PageSizeSource, PageNumberSource})
              && exists v :: && b == BindingFor(b.name, b.source, b.sourceId, v, b.encodedValue)
                             && if v.DoubleScalar? then CanonicalDouble(v.double) == Some(b.encodedValue)
                                else ConnectorBytes(Concrete(v)) == Some(b.encodedValue)
  {
    hide ConnectorBytes, DoubleText.Printed, SignedNumeral, Encoded;
    forall v | b == BindingFor(b.name, b.source, b.sourceId, v, b.encodedValue) && SourceAgrees(b) && !v.DoubleScalar?
      ensures BindingAccepted(b) <==> ConnectorBytes(Concrete(v)) == Some(b.encodedValue)
    {
      PlannerAcceptsConnectorBytes(b.name, b.source, b.sourceId, v, b.encodedValue);
    }
    var carried := match b.kind
      case Boolean => BooleanScalar(b.boolean)
      case Bigint => BigintScalar(b.bigint)
      case Varchar => VarcharScalar(b.varchar)
      case Double => DoubleScalar(b.double);
    if BindingAccepted(b) {
      assert b == BindingFor(b.name, b.source, b.sourceId, carried, b.encodedValue);
    }
  }

  /** Escaping lengthens a text. */
  lemma {:induction false} EncodedIsLonger(s: string, k: nat)
    requires IsBytes(s) && k < |s| && s[k] == '+'
    ensures |Encoded(s)| > |s|
  {
    EncodedIsNoShorter(s[1..]);
    if k > 0 {
      EncodedIsLonger(s[1..], k - 1);
    }
  }

  lemma {:induction false} EncodedIsNoShorter(s: string)
    requires IsBytes(s)
    ensures |Encoded(s)| >= |s|
  {
    if s != "" {
      EncodedIsNoShorter(s[1..]);
    }
  }

  /** Every double of binary64 has bytes: none prints beyond the buffer. */
  lemma DoubleHasBytes(d: DoubleValue)
    requires DoubleText.IsBinary64(d)
    ensures ConnectorBytes(Concrete(DoubleScalar(d))).Some?
  {
    hide DoubleText.Printed;
    DoubleText.PrintedFits(d);
  }

  /** The planner accepts what the connector makes of a value exactly if the value is no double that rounds to
      10^17 or more: such a double is printed with a `+`, which the connector escapes and the planner expects plain. */
  lemma ConnectorBytesAcceptedIff(name: string, source: BindingSource, sourceId: string, v: ScalarValue)
    requires ConnectorBytes(Concrete(v)).Some? && SourceAgrees(BindingFor(name, source, sourceId, v, ""))
    ensures BindingAccepted(BindingFor(name, source, sourceId, v, ConnectorBytes(Concrete(v)).value))
            <==> !PrintsPlus(v)
  {
    hide Encoded, DoubleText.Printed;
    var encoded := ConnectorBytes(Concrete(v)).value;
    if PrintsPlus(v) {
      var printed := DoubleText.Printed(v.double);
      PrintedCharacters(v.double);
      var k :| 0 <= k < |printed| && printed[k] == '+';
      EncodedIsLonger(printed, k);
    } else {
      PlannerAcceptsConnectorBytes(name, source, sourceId, v, encoded);
    }
  }

  lemma {:induction false} EncodedAppend(s: string, t: string)
    requires IsBytes(s) && IsBytes(t)
    ensures IsBytes(s + t) && Encoded(s + t) == Encoded(s) + Encoded(t)
  {
    hide EncodeByte;
    if s == "" {
      assert s + t == t;
    } else {
      assert (s + t)[1..] == s[1..] + t;
      EncodedAppend(s[1..], t);
    }
  }

  /** Powers of ten from the seventeenth on are such values, those up to the twenty-second doubles without rounding: the
      bytes the connector declares for a predicate literal are not the bytes the planner has to bind for it. */
  lemma LargePowerDiffers(k: nat, name: string, input: string)
    requires 17 <= k < 400 && name != "" && input != ""
    ensures var v := DoubleScalar(Finite(DoubleText.Pow10(k) as real));
            && ConnectorBytes(Concrete(v)) == Some("1e%2B" + Numeral(k))
            && !BindingAccepted(BindingFor(name, ConditionalInputSource, input, v, "1e%2B" + Numeral(k)))
            && BindingAccepted(BindingFor(name, ConditionalInputSource, input, v, "1e+" + Numeral(k)))
  {
    hide Encoded, Numeral, DoubleText.Printed, DoubleText.Pow10;
    var d := Finite(DoubleText.Pow10(k) as real);
    DoubleText.PowerOfTenPrints(k);
    DoubleText.PrintedFits(d) by { DoubleText.PowerInRange(k); }
    PrintedCharacters(d);
    assert DoubleText.Printed(d)[2] == '+';
    EncodedPower(Numeral(k));
    ConnectorBytesAcceptedIff(name, ConditionalInputSource, input, DoubleScalar(d));
  }

  lemma EncodedPower(digits: string)
    requires AllDigits(digits)
    ensures IsBytes("1e+" + digits) && Encoded("1e+" + digits) == "1e%2B" + digits
  {
    hide Encoded, AllDigits;
    DigitsUnreserved(digits);
    UnreservedIsIdentity(digits);
    EncodedFront();
    EncodedAppend("1e+", digits);
  }

  lemma DigitsUnreserved(digits: string)
    requires AllDigits(digits)
    ensures forall i :: 0 <= i < |digits| ==> IsUnreserved(digits[i])
  {
  }

  lemma EncodedFront()
    ensures IsBytes("1e+") && Encoded("1e+") == "1e%2B"
  {
    var s := "1e+";
    assert Encoded(s[2..]) == EncodeByte('+') + Encoded(s[2..][1..]);
    assert s[1..][1..] == s[2..];
    assert Encoded(s[1..]) == EncodeByte('e') + Encoded(s[2..]);
    assert Encoded(s) == EncodeByte('1') + Encoded(s[1..]);
  }

  // ----- What is sent

  /** The unreserved characters are these sixty-six. */
  lemma UnreservedIff(c: char)
    ensures IsUnreserved(c) <==> c in Alphabet.LOWER || c in Alphabet.UPPER || c in Alphabet.DIGITS || c in "-._~"
  {
    Alphabet.LowerIff(c);
    Alphabet.UpperIff(c);
    Alphabet.DigitsIff(c);
    SignsIff(c);
  }

  lemma SignsIff(c: char)
    ensures c in "-._~" <==> c == '-' || c == '.' || c == '_' || c == '~'
  {
    var signs := "-._~";
    assert signs[0] == '-' && signs[1] == '.' && signs[2] == '_' && signs[3] == '~';
  }

  /** A space is sent as a plus, a plus and a percent sign as their upper-case triplets. */
  lemma KnownForm()
    ensures Encoded(" ") == "+" && Encoded("+") == "%2B" && Encoded("%") == "%25" && Encoded("\U{ef}") == "%EF"
  {
    assert Encoded("") == "";
  }

  /** Reads form bytes as a BOOLEAN, a BIGINT or a VARCHAR. */
  function ReadAs(kind: ScalarType, bytes: string): Option<ScalarValue>
    requires kind != Double
  {
    var text := Decode(bytes);
    if text.None? then None
    else
      var t := text.value;
      match kind
      case Boolean =>
        if t == "true" then Some(BooleanScalar(true)) else if t == "false" then Some(BooleanScalar(false)) else None
      case Bigint =>
        if IsCanonical(t) then Some(BigintScalar(Value(t)))
        else if t != "" && t[0] == '-' && IsCanonical(t[1..]) then Some(BigintScalar(-(Value(t[1..]) as int)))
        else None
      case Varchar => Some(VarcharScalar(t))
  }

  /** What the connector sends for a value reads back as the value. */
  lemma SentReadsBack(v: ScalarValue)
    requires !v.DoubleScalar? && ConnectorBytes(Concrete(v)).Some?
    ensures ReadAs(v.Type(), ConnectorBytes(Concrete(v)).value) == Some(v)
  {
    hide Encoded, Decode, Numeral, Value, DoubleText.Printed;
    DecodedTextIsBytes(v);
    DecodeInvertsEncode(DecodedText(v).value);
    if v.BigintScalar? {
      ValueOfNumeral(if v.bigint < 0 then -v.bigint else v.bigint);
      assert v.bigint < 0 ==> SignedNumeral(v.bigint)[1..] == Numeral(-v.bigint);
    }
  }
}

/** A recursive-descent parser for constant input values, section 2.9 of the GraphQL specification (September 2025),
    on UTF-8 text; and the proof that it inverts the renderer. That edition admits every Unicode scalar value in a
    string; this parser keeps to the narrower earlier rule that controls other than tab must be escaped,
    and to escapes of four digits. Float values, block strings and variables are input values this parser does not
    build: no literal of the model stands for them. */
module GraphqlParser {
  import opened Results
  import opened GraphqlModel
  import opened GraphqlText
  import opened GraphqlValidity
  import opened Decimal
  import Utf8
  import Hexadecimal

  datatype Parsed<T> = Parsed(value: T, rest: string)

  // ----- Tokens

  predicate IsIgnored(c: char) {
    c == ' ' || c == '\t' || c == '\n' || c == '\r' || c == ','
  }

  /** Skips white space, commas and comments. */
  function Skip(s: string): (r: string)
    ensures |r| <= |s|
    decreases |s|, 1
  {
    if s == "" then ""
    else if IsIgnored(s[0]) then Skip(s[1..])
    else if s[0] == '#' then SkipComment(s[1..])
    else s
  }

  function SkipComment(s: string): (r: string)
    ensures |r| <= |s|
    decreases |s|, 0
  {
    if s == "" then "" else if s[0] == '\n' || s[0] == '\r' then Skip(s[1..]) else SkipComment(s[1..])
  }

  /** The length of the longest name at the front. */
  function NameLength(s: string): (n: nat)
    ensures n <= |s|
  {
    if s == "" || !IsNameChar(s[0]) then 0 else 1 + NameLength(s[1..])
  }

  function DigitsLength(s: string): (n: nat)
    ensures n <= |s|
  {
    if s == "" || !IsDigit(s[0]) then 0 else 1 + DigitsLength(s[1..])
  }

  /** An integer token: no leading zeros, and nothing after it that would make it another token. */
  function ParseInteger(s: string): (p: Option<Parsed<Literal>>)
    ensures p.Some? ==> |p.value.rest| < |s|
  {
    var sign := if s != "" && s[0] == '-' then 1 else 0;
    var n := DigitsLength(s[sign..]);
    var token, rest := s[..sign + n], s[sign + n..];
    if n == 0 || (n > 1 && s[sign] == '0') || (rest != "" && (rest[0] == '.' || IsNameStart(rest[0]))) then None
    else Some(Parsed(Literal(IntegerKind, token, [], []), rest))
  }

  /** The code point of four hexadecimal digits. */
  function HexFour(s: string): Option<nat> {
    if |s| < 4 then None
    else
      var a, b := Hexadecimal.DigitValue(s[0]), Hexadecimal.DigitValue(s[1]);
      var c, d := Hexadecimal.DigitValue(s[2]), Hexadecimal.DigitValue(s[3]);
      if a.None? || b.None? || c.None? || d.None? then None
      else Some(a.value * 0x1000 + b.value * 0x100 + c.value * 0x10 + d.value)
  }

  function Escaped(c: char): Option<char> {
    match c
    case '\"' => Some('\"')
    case '\\' => Some('\\')
    case '/' => Some('/')
    case 'b' => Some('\U{8}')
    case 'f' => Some('\U{c}')
    case 'n' => Some('\n')
    case 'r' => Some('\r')
    case 't' => Some('\t')
    case _ => None
  }

  /** The characters up to the closing quote. */
  function ParseChars(s: string): (p: Option<Parsed<string>>)
    ensures p.Some? ==> |p.value.rest| < |s|
  {
    if s == "" then None
    else if s[0] == '\"' then Some(Parsed("", s[1..]))
    else if s[0] == '\\' then
      if |s| < 2 then None
      else if s[1] == 'u' then
        var cp := HexFour(s[2..]);
        if cp.None? || !Utf8.IsScalar(cp.value) then None
        else Prepend(Utf8.EncodeScalar(cp.value), ParseChars(s[6..]))
      else if Escaped(s[1]).None? then None
      else Prepend([Escaped(s[1]).value], ParseChars(s[2..]))
    else if s[0] as int < 0x20 && s[0] != '\t' then None
    else Prepend([s[0]], ParseChars(s[1..]))
  }

  function Prepend(front: string, p: Option<Parsed<string>>): Option<Parsed<string>> {
    if p.None? then None else Some(Parsed(front + p.value.value, p.value.rest))
  }

  function NameLiteral(name: string): Literal {
    if name == "true" || name == "false" then Literal(BooleanKind, name, [], [])
    else if name == "null" then Literal(NullKind, "", [], [])
    else Literal(EnumKind, name, [], [])
  }

  // ----- Values

  function ParseValue(s: string): (p: Option<Parsed<Literal>>)
    ensures p.Some? ==> |p.value.rest| < |s|
    decreases |s|, 0
  {
    if s == "" then None
    else if s[0] == '\"' then
      if |s| >= 3 && s[1] == '\"' && s[2] == '\"' then None
      else
        var p := ParseChars(s[1..]);
        if p.None? then None else Some(Parsed(Literal(StringKind, p.value.value, [], []), p.value.rest))
    else if s[0] == '[' then
      var p := ParseItems(s[1..]);
      if p.None? then None else Some(Parsed(Literal(ListKind, "", p.value.value, []), p.value.rest))
    else if s[0] == '{' then
      var p := ParseFields(s[1..]);
      if p.None? then None else Some(Parsed(Literal(ObjectKind, "", [], p.value.value), p.value.rest))
    else if s[0] == '-' || IsDigit(s[0]) then ParseInteger(s)
    else if IsNameStart(s[0]) then
      var n := NameLength(s);
      Some(Parsed(NameLiteral(s[..n]), s[n..]))
    else None
  }

  function ParseItems(s: string): (p: Option<Parsed<seq<Literal>>>)
    ensures p.Some? ==> |p.value.rest| < |s|
    decreases |s|, 1
  {
    var t := Skip(s);
    if t == "" then None
    else if t[0] == ']' then Some(Parsed([], t[1..]))
    else
      var first := ParseValue(t);
      if first.None? then None
      else
        var more := ParseItems(first.value.rest);
        if more.None? then None else Some(Parsed([first.value.value] + more.value.value, more.value.rest))
  }

  function ParseFields(s: string): (p: Option<Parsed<seq<ObjectField>>>)
    ensures p.Some? ==> |p.value.rest| < |s|
    decreases |s|, 1
  {
    var t := Skip(s);
    if t == "" then None
    else if t[0] == '}' then Some(Parsed([], t[1..]))
    else if !IsNameStart(t[0]) then None
    else
      var n := NameLength(t);
      var u := Skip(t[n..]);
      if u == "" || u[0] != ':' then None
      else
        var first := ParseValue(Skip(u[1..]));
        if first.None? then None
        else
          var more := ParseFields(first.value.rest);
          if more.None? then None
          else Some(Parsed([ObjectField(t[..n], first.value.value)] + more.value.value, more.value.rest))
  }

  // ----- The parser inverts the renderer

  /** Text that ends the token before it. */
  predicate Delimits(rest: string) {
    rest == "" || (!IsNameChar(rest[0]) && rest[0] != '.' && rest[0] != '\"')
  }

  lemma {:induction false} NameLengthOf(name: string, rest: string)
    requires AllNameChars(name) && (rest == "" || !IsNameChar(rest[0]))
    ensures NameLength(name + rest) == |name|
  {
    if name == "" {
      assert name + rest == rest;
    } else {
      assert (name + rest)[1..] == name[1..] + rest;
      NameLengthOf(name[1..], rest);
    }
  }

  lemma {:induction false} DigitsLengthOf(digits: string, rest: string)
    requires AllDigits(digits) && (rest == "" || !IsDigit(rest[0]))
    ensures DigitsLength(digits + rest) == |digits|
  {
    if digits == "" {
      assert digits + rest == rest;
    } else {
      assert (digits + rest)[1..] == digits[1..] + rest;
      DigitsLengthOf(digits[1..], rest);
    }
  }

  lemma IntegerTokenParses(token: string, rest: string)
    requires IsCanonicalInteger(token) && Delimits(rest)
    ensures ParseInteger(token + rest) == Some(Parsed(Literal(IntegerKind, token, [], []), rest))
  {
    var s := token + rest;
    var sign := if token[0] == '-' then 1 else 0;
    var digits := token[sign..];
    assert s[0] == token[0];
    assert s[sign..] == digits + rest;
    DigitsLengthOf(digits, rest);
    assert s[..|token|] == token && s[|token|..] == rest;
    assert |digits| > 1 ==> s[sign] == digits[0];
  }

  lemma IntegerParses(token: string, rest: string)
    requires IsCanonicalInteger(token) && Delimits(rest)
    ensures ParseValue(token + rest) == Some(Parsed(Literal(IntegerKind, token, [], []), rest))
  {
    IntegerTokenParses(token, rest);
    assert (token + rest)[0] == token[0];
  }

  lemma NameParses(name: string, rest: string)
    requires name != "" && IsNameStart(name[0]) && AllNameChars(name) && Delimits(rest)
    ensures ParseValue(name + rest) == Some(Parsed(NameLiteral(name), rest))
  {
    NameLengthOf(name, rest);
    assert (name + rest)[..|name|] == name && (name + rest)[|name|..] == rest;
  }

  lemma HexOfControl(c: char)
    requires c as int < 0x20
    ensures HexFour("00" + HexPair(c)) == Some(c as int)
  {
    assert Hexadecimal.DigitValue(Hexadecimal.LowerDigit(c as int / 16)) == Some(c as int / 16);
    LowerHexValue(c as int % 16);
  }

  lemma LowerHexValue(n: nat)
    requires n < 16
    ensures Hexadecimal.DigitValue(Hexadecimal.LowerDigit(n)) == Some(n)
  {
  }

  /** An escape sequence reads as its character. */
  lemma EscapeParses(e: char, c: char, rest: string)
    requires e != 'u' && Escaped(e) == Some(c)
    ensures ParseChars(['\\', e] + rest) == Prepend([c], ParseChars(rest))
  {
    assert (['\\', e] + rest)[2..] == rest;
  }

  lemma UnicodeEscapeParses(c: char, rest: string)
    requires c as int < 0x20
    ensures ParseChars("\\u00" + HexPair(c) + rest) == Prepend([c], ParseChars(rest))
  {
    var s := "\\u00" + HexPair(c) + rest;
    HexOfControl(c);
    assert s[2..][..4] == ['0', '0', Hexadecimal.LowerDigit(c as int / 16), Hexadecimal.LowerDigit(c as int % 16)];
    assert s[6..] == rest;
  }

  lemma CharParses(c: char, rest: string)
    ensures ParseChars(RenderedChar(c) + rest) == Prepend([c], ParseChars(rest))
  {
    hide ParseChars;
    if RenderedChar(c) == [c] {
      PlainCharParses(c, rest);
    } else if |RenderedChar(c)| == 2 {
      assert RenderedChar(c) == ['\\', RenderedChar(c)[1]];
      EscapeParses(RenderedChar(c)[1], c, rest);
    } else {
      UnicodeEscapeParses(c, rest);
    }
  }

  lemma PlainCharParses(c: char, rest: string)
    requires c != '\"' && c != '\\' && c as int >= 0x20
    ensures ParseChars([c] + rest) == Prepend([c], ParseChars(rest))
  {
    assert ([c] + rest)[1..] == rest;
  }

  lemma {:induction false} CharsParse(chars: string, rest: string)
    ensures ParseChars(RenderedChars(chars) + "\"" + rest) == Some(Parsed(chars, rest))
  {
    if chars == "" {
      assert (RenderedChars(chars) + "\"" + rest)[1..] == rest;
    } else {
      var tail := RenderedChars(chars[1..]) + "\"" + rest;
      assert RenderedChars(chars) + "\"" + rest == RenderedChar(chars[0]) + tail;
      CharsParse(chars[1..], rest);
      CharParses(chars[0], tail);
      assert chars == [chars[0]] + chars[1..];
    }
  }

  lemma QuotedParses(inner: string, chars: string, rest: string)
    requires ParseChars(inner) == Some(Parsed(chars, rest))
    requires !(|inner| >= 2 && inner[0] == '\"' && inner[1] == '\"')
    ensures ParseValue("\"" + inner) == Some(Parsed(Literal(StringKind, chars, [], []), rest))
  {
    hide ParseChars, ParseItems, ParseFields;
    var s := "\"" + inner;
    assert s[1..] == inner;
    assert |s| >= 3 ==> s[1] == inner[0] && s[2] == inner[1];
  }

  lemma StringParses(chars: string, rest: string)
    requires Delimits(rest)
    ensures ParseValue("\"" + RenderedChars(chars) + "\"" + rest)
            == Some(Parsed(Literal(StringKind, chars, [], []), rest))
  {
    hide ParseValue, ParseChars;
    var inner := RenderedChars(chars) + "\"" + rest;
    CharsParse(chars, rest);
    if chars == "" {
      assert inner == "\"" + rest;
    } else {
      assert inner[0] == RenderedChar(chars[0])[0] != '\"';
    }
    QuotedParses(inner, chars, rest);
    assert "\"" + RenderedChars(chars) + "\"" + rest == "\"" + inner;
  }

  /** A rendered literal starts with a character that is neither ignored nor a closing bracket. */
  lemma RenderedHead(l: Literal)
    requires SoundLiteral(l, AnyInteger)
    ensures Rendered(l) != ""
    ensures var c := Rendered(l)[0];
            !IsIgnored(c) && c != '#' && c != ']' && c != '}'
  {
  }

  lemma SkipNothing(s: string)
    requires s == "" || (!IsIgnored(s[0]) && s[0] != '#')
    ensures Skip(s) == s && Skip(" " + s) == s && Skip(", " + s) == s
  {
    assert (" " + s)[1..] == s;
    assert (", " + s)[1..] == " " + s;
  }

  /** A rendered literal parses back to itself, whatever delimiting text follows. */
  lemma {:induction false} LiteralParses(l: Literal, rest: string)
    requires SoundLiteral(l, AnyInteger) && Delimits(rest)
    ensures ParseValue(Rendered(l) + rest) == Some(Parsed(l, rest))
    decreases l, 2
  {
    match l.kind {
      case ListKind => ListParses(l, rest);
      case ObjectKind => ObjectParses(l, rest);
      case _ => ScalarParses(l, rest);
    }
  }

  /** Null, booleans and enumeration values are names. */
  function NameText(l: Literal): string {
    if l.kind == NullKind then "null" else l.scalar
  }

  lemma NameTextTellsLiteral(l: Literal)
    requires SoundLiteral(l, AnyInteger) && (l.kind == NullKind || l.kind == BooleanKind || l.kind == EnumKind)
    ensures NameText(l) == Rendered(l) && NameLiteral(NameText(l)) == l
    ensures NameText(l) != "" && IsNameStart(NameText(l)[0]) && AllNameChars(NameText(l))
  {
    assert l == Literal(l.kind, l.scalar, [], []);
  }

  lemma ScalarParses(l: Literal, rest: string)
    requires SoundLiteral(l, AnyInteger) && Delimits(rest) && l.kind != ListKind && l.kind != ObjectKind
    ensures ParseValue(Rendered(l) + rest) == Some(Parsed(l, rest))
  {
    if l.kind == IntegerKind {
      assert l == Literal(IntegerKind, l.scalar, [], []);
      IntegerParses(l.scalar, rest);
    } else if l.kind == StringKind {
      assert l == Literal(StringKind, l.scalar, [], []);
      StringParses(l.scalar, rest);
    } else {
      NameTextTellsLiteral(l);
      NameParses(NameText(l), rest);
    }
  }

  lemma {:induction false} ListParses(l: Literal, rest: string)
    requires SoundLiteral(l, AnyInteger) && l.kind == ListKind
    ensures ParseValue(Rendered(l) + rest) == Some(Parsed(l, rest))
    decreases l, 1
  {
    hide ParseItems, ParseFields, ParseChars, RenderedItems;
    var s := Rendered(l) + rest;
    assert s[1..] == RenderedItems(l.items) + "]" + rest;
    ItemsParse(l.items, rest);
    assert s[0] == '[';
  }

  lemma {:induction false} ObjectParses(l: Literal, rest: string)
    requires SoundLiteral(l, AnyInteger) && l.kind == ObjectKind
    ensures ParseValue(Rendered(l) + rest) == Some(Parsed(l, rest))
    decreases l, 1
  {
    hide ParseItems, ParseFields, ParseChars, RenderedFields;
    var s := Rendered(l) + rest;
    assert s[1..] == RenderedFields(l.fields) + "}" + rest;
    FieldsParse(l.fields, rest);
    assert s[0] == '{';
  }

  /** One rendered item followed by text the remaining items parse from. */
  lemma {:induction false} ItemParses(item: Literal, more: seq<Literal>, tail: string, rest: string)
    requires SoundLiteral(item, AnyInteger) && Delimits(tail)
    requires ParseItems(tail) == Some(Parsed(more, rest))
    ensures ParseItems(Rendered(item) + tail) == Some(Parsed([item] + more, rest))
    ensures ParseItems(", " + (Rendered(item) + tail)) == Some(Parsed([item] + more, rest))
    decreases item, 3
  {
    var t := Rendered(item) + tail;
    RenderedHead(item);
    SkipNothing(t);
    LiteralParses(item, tail);
  }

  lemma ClosingParses(rest: string)
    ensures ParseItems("]" + rest) == Some(Parsed([], rest))
    ensures ParseFields("}" + rest) == Some(Parsed([], rest))
  {
    SkipNothing("]" + rest);
    SkipNothing("}" + rest);
    assert ("]" + rest)[1..] == rest && ("}" + rest)[1..] == rest;
  }

  lemma {:induction false} ItemsParse(items: seq<Literal>, rest: string)
    requires forall i :: 0 <= i < |items| ==> SoundLiteral(items[i], AnyInteger)
    ensures ParseItems(RenderedItems(items) + "]" + rest) == Some(Parsed(items, rest))
    decreases items, 1
  {
    hide ParseItems, Rendered, SoundLiteral;
    if items == [] {
      ClosingParses(rest);
      assert RenderedItems(items) + "]" + rest == "]" + rest;
    } else {
      var tail := MoreItems(items[1..]) + "]" + rest;
      assert RenderedItems(items) + "]" + rest == Rendered(items[0]) + tail;
      MoreItemsParse(items[1..], rest);
      ItemParses(items[0], items[1..], tail, rest);
      assert items == [items[0]] + items[1..];
    }
  }

  lemma {:induction false} MoreItemsParse(items: seq<Literal>, rest: string)
    requires forall i :: 0 <= i < |items| ==> SoundLiteral(items[i], AnyInteger)
    ensures ParseItems(MoreItems(items) + "]" + rest) == Some(Parsed(items, rest))
    decreases items, 0
  {
    hide ParseItems, Rendered, SoundLiteral;
    if items == [] {
      ClosingParses(rest);
      assert MoreItems(items) + "]" + rest == "]" + rest;
    } else {
      var tail := MoreItems(items[1..]) + "]" + rest;
      assert MoreItems(items) + "]" + rest == ", " + (Rendered(items[0]) + tail);
      MoreItemsParse(items[1..], rest);
      ItemParses(items[0], items[1..], tail, rest);
      assert items == [items[0]] + items[1..];
    }
  }

  /** One rendered field followed by text the remaining fields parse from. */
  lemma {:induction false} FieldParses(f: ObjectField, more: seq<ObjectField>, tail: string, rest: string)
    requires IsName(f.name) && SoundLiteral(f.value, AnyInteger) && Delimits(tail)
    requires ParseFields(tail) == Some(Parsed(more, rest))
    ensures ParseFields(RenderedField(f) + tail) == Some(Parsed([f] + more, rest))
    ensures ParseFields(", " + (RenderedField(f) + tail)) == Some(Parsed([f] + more, rest))
    decreases f, 3
  {
    hide ParseFields, ParseValue, Rendered;
    var value := Rendered(f.value) + tail;
    var t := RenderedField(f) + tail;
    assert t == f.name + (": " + value);
    SkipNothing(t);
    RenderedHead(f.value);
    SkipNothing(value);
    LiteralParses(f.value, tail);
    FieldSteps(t, f, value, more, tail, rest);
    FieldSteps(", " + t, f, value, more, tail, rest);
  }

  /** One field of an object, once its tokens are known. */
  lemma FieldSteps(s: string, f: ObjectField, value: string, more: seq<ObjectField>, tail: string, rest: string)
    requires IsName(f.name) && Skip(s) == f.name + (": " + value) && Skip(" " + value) == value
    requires ParseValue(value) == Some(Parsed(f.value, tail))
    requires ParseFields(tail) == Some(Parsed(more, rest))
    ensures ParseFields(s) == Some(Parsed([f] + more, rest))
  {
    hide Skip, ParseValue, NameLength;
    var t := Skip(s);
    NameLengthOf(f.name, ": " + value);
    assert t[..|f.name|] == f.name && t[|f.name|..] == ": " + value;
    SkipNothing(": " + value);
    assert (": " + value)[1..] == " " + value;
    assert t[0] == f.name[0];
  }

  lemma {:induction false} FieldsParse(fields: seq<ObjectField>, rest: string)
    requires forall i :: 0 <= i < |fields| ==> IsName(fields[i].name) && SoundLiteral(fields[i].value, AnyInteger)
    ensures ParseFields(RenderedFields(fields) + "}" + rest) == Some(Parsed(fields, rest))
    decreases fields, 1
  {
    hide ParseFields, RenderedField, SoundLiteral, IsName;
    if fields == [] {
      ClosingParses(rest);
      assert RenderedFields(fields) + "}" + rest == "}" + rest;
    } else {
      var tail := MoreFields(fields[1..]) + "}" + rest;
      assert RenderedFields(fields) + "}" + rest == RenderedField(fields[0]) + tail;
      MoreFieldsParse(fields[1..], rest);
      FieldParses(fields[0], fields[1..], tail, rest);
      assert fields == [fields[0]] + fields[1..];
    }
  }

  lemma {:induction false} MoreFieldsParse(fields: seq<ObjectField>, rest: string)
    requires forall i :: 0 <= i < |fields| ==> IsName(fields[i].name) && SoundLiteral(fields[i].value, AnyInteger)
    ensures ParseFields(MoreFields(fields) + "}" + rest) == Some(Parsed(fields, rest))
    decreases fields, 0
  {
    hide ParseFields, RenderedField, SoundLiteral, IsName;
    if fields == [] {
      ClosingParses(rest);
      assert MoreFields(fields) + "}" + rest == "}" + rest;
    } else {
      var tail := MoreFields(fields[1..]) + "}" + rest;
      assert MoreFields(fields) + "}" + rest == ", " + (RenderedField(fields[0]) + tail);
      MoreFieldsParse(fields[1..], rest);
      FieldParses(fields[0], fields[1..], tail, rest);
      assert fields == [fields[0]] + fields[1..];
    }
  }

  /** The whole text of a rendered literal parses back to the literal. */
  lemma RenderedLiteralParsesBack(l: Literal)
    requires SoundLiteral(l, AnyInteger)
    ensures ParseValue(Rendered(l)) == Some(Parsed(l, ""))
  {
    LiteralParses(l, "");
    assert Rendered(l) + "" == Rendered(l);
  }
}

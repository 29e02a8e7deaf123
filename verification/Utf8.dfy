/** UTF-8 as section 3 of RFC 3629 defines it, and the three recognisers that must agree with it.
    Bit masks and shifts on bytes are written as the division and remainder they compute. */
module Utf8 {
  import opened Results

  // ----- Specification

  predicate IsScalar(cp: int) {
    0 <= cp <= 0x10ffff && !(0xd800 <= cp <= 0xdfff)
  }

  predicate IsControl(cp: int) {
    cp <= 0x1f || 0x7f <= cp <= 0x9f
  }

  function EncodeScalar(cp: int): string
    requires IsScalar(cp)
  {
    if cp < 0x80 then [cp as char]
    else if cp < 0x800 then [(0xc0 + cp / 0x40) as char, (0x80 + cp % 0x40) as char]
    else if cp < 0x1_0000 then
      [(0xe0 + cp / 0x1000) as char, (0x80 + cp / 0x40 % 0x40) as char, (0x80 + cp % 0x40) as char]
    else
      [(0xf0 + cp / 0x4_0000) as char, (0x80 + cp / 0x1000 % 0x40) as char,
       (0x80 + cp / 0x40 % 0x40) as char, (0x80 + cp % 0x40) as char]
  }

  predicate AllScalars(cps: seq<int>) {
    forall i :: 0 <= i < |cps| ==> IsScalar(cps[i])
  }

  predicate NoControls(cps: seq<int>) {
    forall i :: 0 <= i < |cps| ==> !IsControl(cps[i])
  }

  function EncodeText(cps: seq<int>): string
    requires AllScalars(cps)
  {
    if cps == [] then "" else EncodeScalar(cps[0]) + EncodeText(cps[1..])
  }

  /** `text` is the concatenated encoding of Unicode scalar values. */
  ghost predicate IsUtf8(text: string) {
    exists cps :: AllScalars(cps) && EncodeText(cps) == text
  }

  /** `text` is such an encoding with no control code point. */
  ghost predicate IsPlainUtf8(text: string) {
    exists cps :: AllScalars(cps) && NoControls(cps) && EncodeText(cps) == text
  }

  // ----- Decoding one code point

  datatype Decoded = Decoded(cp: int, width: nat)

  predicate IsContinuation(c: char) {
    c as int / 0x40 == 2
  }

  /** The code point at the front of `s`, if one is encoded there in shortest form. */
  function DecodeFirst(s: string): Option<Decoded> {
    if s == "" then None
    else
      var b := s[0] as int;
      if b <= 0x7f then Some(Decoded(b, 1))
      else if 0xc2 <= b <= 0xdf && |s| > 1 && IsContinuation(s[1]) then
        Some(Decoded((b - 0xc0) * 0x40 + (s[1] as int - 0x80), 2))
      else if 0xe0 <= b <= 0xef && |s| > 2 && IsContinuation(s[1]) && IsContinuation(s[2]) then
        var cp := (b - 0xe0) * 0x1000 + (s[1] as int - 0x80) * 0x40 + (s[2] as int - 0x80);
        if 0x800 <= cp && IsScalar(cp) then Some(Decoded(cp, 3)) else None
      else if 0xf0 <= b <= 0xf4 && |s| > 3 && IsContinuation(s[1]) && IsContinuation(s[2]) && IsContinuation(s[3]) then
        var cp := (b - 0xf0) * 0x4_0000 + (s[1] as int - 0x80) * 0x1000 + (s[2] as int - 0x80) * 0x40
                  + (s[3] as int - 0x80);
        if 0x1_0000 <= cp && IsScalar(cp) then Some(Decoded(cp, 4)) else None
      else None
  }

  lemma DecodeWidth(s: string)
    requires DecodeFirst(s).Some?
    ensures 1 <= DecodeFirst(s).value.width <= |s|
  {
  }

  /** A code point is its base-64 digits. */
  lemma Digits(cp: int)
    requires cp >= 0
    ensures cp == cp / 0x40 * 0x40 + cp % 0x40
    ensures cp / 0x1000 == cp / 0x40 / 0x40
    ensures cp / 0x4_0000 == cp / 0x1000 / 0x40
  {
  }

  lemma DecodeInvertsEncode(cp: int, rest: string)
    requires IsScalar(cp)
    ensures DecodeFirst(EncodeScalar(cp) + rest) == Some(Decoded(cp, |EncodeScalar(cp)|))
  {
    Digits(cp);
    var s := EncodeScalar(cp) + rest;
    if cp < 0x80 {
      assert s[0] as int == cp;
    } else if cp < 0x800 {
      assert s[0] as int == 0xc0 + cp / 0x40 && s[1] as int == 0x80 + cp % 0x40;
    } else if cp < 0x1_0000 {
      ThreeBytes(s, cp / 0x1000, cp / 0x40 % 0x40, cp % 0x40);
    } else {
      FourBytes(s, cp / 0x4_0000, cp / 0x1000 % 0x40, cp / 0x40 % 0x40, cp % 0x40);
    }
  }

  lemma ThreeBytes(s: string, h: int, m: int, l: int)
    requires |s| > 2 && 0 <= h < 0x10 && 0 <= m < 0x40 && 0 <= l < 0x40
    requires s[0] as int == 0xe0 + h && s[1] as int == 0x80 + m && s[2] as int == 0x80 + l
    ensures var cp := h * 0x1000 + m * 0x40 + l;
            DecodeFirst(s) == if 0x800 <= cp && IsScalar(cp) then Some(Decoded(cp, 3)) else None
  {
    assert IsContinuation(s[1]) && IsContinuation(s[2]);
  }

  lemma FourBytes(s: string, h: int, m: int, n: int, l: int)
    requires |s| > 3 && 0 <= h < 5 && 0 <= m < 0x40 && 0 <= n < 0x40 && 0 <= l < 0x40
    requires s[0] as int == 0xf0 + h && s[1] as int == 0x80 + m && s[2] as int == 0x80 + n && s[3] as int == 0x80 + l
    ensures var cp := h * 0x4_0000 + m * 0x1000 + n * 0x40 + l;
            DecodeFirst(s) == if 0x1_0000 <= cp && IsScalar(cp) then Some(Decoded(cp, 4)) else None
  {
    assert IsContinuation(s[1]) && IsContinuation(s[2]) && IsContinuation(s[3]);
  }

  /** The digits of a value built from digits. */
  lemma DigitsOf(h: int, l: int)
    requires h >= 0 && 0 <= l < 0x40
    ensures (h * 0x40 + l) / 0x40 == h && (h * 0x40 + l) % 0x40 == l
  {
  }

  lemma EncodeOne(l: int)
    requires 0 <= l < 0x80
    ensures EncodeScalar(l) == [l as char]
  {
  }

  lemma EncodeTwo(h: int, l: int)
    requires 2 <= h < 0x20 && 0 <= l < 0x40
    ensures IsScalar(h * 0x40 + l)
    ensures EncodeScalar(h * 0x40 + l) == [(0xc0 + h) as char, (0x80 + l) as char]
  {
    DigitsOf(h, l);
  }

  lemma EncodeThree(h: int, m: int, l: int)
    requires 0 <= h < 0x10 && 0 <= m < 0x40 && 0 <= l < 0x40
    requires var cp := h * 0x1000 + m * 0x40 + l; 0x800 <= cp && IsScalar(cp)
    ensures EncodeScalar(h * 0x1000 + m * 0x40 + l) == [(0xe0 + h) as char, (0x80 + m) as char, (0x80 + l) as char]
  {
    Digits(h * 0x1000 + m * 0x40 + l);
    DigitsOf(h * 0x40 + m, l);
    DigitsOf(h, m);
  }

  lemma EncodeFour(h: int, m: int, n: int, l: int)
    requires 0 <= h < 5 && 0 <= m < 0x40 && 0 <= n < 0x40 && 0 <= l < 0x40
    requires var cp := h * 0x4_0000 + m * 0x1000 + n * 0x40 + l; 0x1_0000 <= cp && IsScalar(cp)
    ensures EncodeScalar(h * 0x4_0000 + m * 0x1000 + n * 0x40 + l)
         == [(0xf0 + h) as char, (0x80 + m) as char, (0x80 + n) as char, (0x80 + l) as char]
  {
    Digits(h * 0x4_0000 + m * 0x1000 + n * 0x40 + l);
    DigitsOf(h * 0x1000 + m * 0x40 + n, l);
    DigitsOf(h * 0x40 + m, n);
    DigitsOf(h, m);
  }

  lemma ContinuationRange(c: char)
    ensures IsContinuation(c) <==> 0x80 <= c as int < 0xc0
    ensures IsContinuation(c) ==> c as int % 0x40 == c as int - 0x80
  {
  }

  lemma EncodeInvertsDecode(s: string)
    requires DecodeFirst(s).Some?
    ensures IsScalar(DecodeFirst(s).value.cp)
    ensures DecodeFirst(s).value.width <= |s|
    ensures EncodeScalar(DecodeFirst(s).value.cp) == s[..DecodeFirst(s).value.width]
  {
    hide IsContinuation, EncodeScalar;
    var d := DecodeFirst(s).value;
    var b := s[0] as int;
    if d.width == 1 {
      EncodeOne(b);
    } else if d.width == 2 {
      ContinuationRange(s[1]);
      EncodeTwo(b - 0xc0, s[1] as int - 0x80);
    } else if d.width == 3 {
      ContinuationRange(s[1]);
      ContinuationRange(s[2]);
      EncodeThree(b - 0xe0, s[1] as int - 0x80, s[2] as int - 0x80);
    } else {
      ContinuationRange(s[1]);
      ContinuationRange(s[2]);
      ContinuationRange(s[3]);
      EncodeFour(b - 0xf0, s[1] as int - 0x80, s[2] as int - 0x80, s[3] as int - 0x80);
    }
  }

  /** Decoding reaches the end of `s`, meeting no control code point if `plain`. */
  predicate Decodable(s: string, plain: bool)
    decreases |s|
  {
    s == "" ||
    (var d := DecodeFirst(s);
     d.Some? && (plain ==> !IsControl(d.value.cp)) && (DecodeWidth(s); Decodable(s[d.value.width..], plain)))
  }

  lemma {:induction false} EncodedIsDecodable(cps: seq<int>, plain: bool)
    requires AllScalars(cps) && (plain ==> NoControls(cps))
    ensures Decodable(EncodeText(cps), plain)
  {
    if cps != [] {
      var rest := EncodeText(cps[1..]);
      DecodeInvertsEncode(cps[0], rest);
      EncodedIsDecodable(cps[1..], plain);
      assert (EncodeScalar(cps[0]) + rest)[|EncodeScalar(cps[0])|..] == rest;
    }
  }

  lemma EncodeTextCons(cp: int, rest: seq<int>)
    requires IsScalar(cp) && AllScalars(rest)
    ensures AllScalars([cp] + rest) && EncodeText([cp] + rest) == EncodeScalar(cp) + EncodeText(rest)
    ensures !IsControl(cp) && NoControls(rest) ==> NoControls([cp] + rest)
  {
    assert ([cp] + rest)[1..] == rest;
  }

  lemma {:induction false} DecodableIsEncoded(s: string, plain: bool) returns (cps: seq<int>)
    requires Decodable(s, plain)
    ensures AllScalars(cps) && (plain ==> NoControls(cps)) && EncodeText(cps) == s
    decreases |s|
  {
    hide DecodeFirst, EncodeScalar, IsScalar, IsControl;
    if s == "" {
      cps := [];
    } else {
      var d := DecodeFirst(s).value;
      EncodeInvertsDecode(s);
      DecodeWidth(s);
      var rest := DecodableIsEncoded(s[d.width..], plain);
      cps := [d.cp] + rest;
      EncodeTextCons(d.cp, rest);
      assert s == s[..d.width] + s[d.width..];
    }
  }

  /** Decoding succeeds exactly on encodings. */
  lemma DecodableIff(s: string)
    ensures Decodable(s, false) <==> IsUtf8(s)
    ensures Decodable(s, true) <==> IsPlainUtf8(s)
  {
    if Decodable(s, false) {
      var cps := DecodableIsEncoded(s, false);
    }
    if Decodable(s, true) {
      var cps := DecodableIsEncoded(s, true);
    }
    if IsUtf8(s) {
      var cps :| AllScalars(cps) && EncodeText(cps) == s;
      EncodedIsDecodable(cps, false);
    }
    if IsPlainUtf8(s) {
      var cps :| AllScalars(cps) && NoControls(cps) && EncodeText(cps) == s;
      EncodedIsDecodable(cps, true);
    }
  }

  // ----- Reading continuation bytes

  /** The value accumulated from a lead value and the continuation bytes in `tail`. */
  function Accumulated(lead: int, tail: string): int {
    if tail == "" then lead
    else Accumulated(lead, tail[..|tail| - 1]) * 0x40 + tail[|tail| - 1] as int % 0x40
  }

  predicate AllContinuations(tail: string) {
    forall i :: 0 <= i < |tail| ==> IsContinuation(tail[i])
  }

  method ReadContinuations(value: string, index: nat, count: nat, lead: int) returns (out: Option<int>)
    requires index + count < |value|
    ensures out == if AllContinuations(value[index + 1..index + 1 + count])
                   then Some(Accumulated(lead, value[index + 1..index + 1 + count])) else None
  {
    var codepoint := lead;
    for offset := 1 to count + 1
      invariant AllContinuations(value[index + 1..index + offset])
      invariant codepoint == Accumulated(lead, value[index + 1..index + offset])
    {
      var continuation := value[index + offset];
      ghost var tail := value[index + 1..index + offset + 1];
      assert tail[..|tail| - 1] == value[index + 1..index + offset];
      assert tail[|tail| - 1] == continuation;
      if !IsContinuation(continuation) {
        assert value[index + 1..index + 1 + count][offset - 1] == continuation;
        return None;
      }
      assert forall i :: 0 <= i < |tail| - 1 ==> tail[i] == value[index + 1..index + offset][i];
      codepoint := codepoint * 0x40 + continuation as int % 0x40;
    }
    return Some(codepoint);
  }

  lemma AccumulatedOne(lead: int, a: char)
    ensures Accumulated(lead, [a]) == lead * 0x40 + a as int % 0x40
  {
    assert [a][..0] == "";
  }

  lemma AccumulatedTwo(lead: int, a: char, b: char)
    ensures Accumulated(lead, [a, b]) == lead * 0x1000 + a as int % 0x40 * 0x40 + b as int % 0x40
  {
    assert [a, b][..1] == [a];
    AccumulatedOne(lead, a);
  }

  lemma AccumulatedThree(lead: int, a: char, b: char, c: char)
    ensures Accumulated(lead, [a, b, c])
         == lead * 0x4_0000 + a as int % 0x40 * 0x1000 + b as int % 0x40 * 0x40 + c as int % 0x40
  {
    assert [a, b, c][..2] == [a, b];
    AccumulatedTwo(lead, a, b);
  }

  function LeadBits(count: nat): nat {
    if count == 1 then 0x20 else if count == 2 then 0x10 else 8
  }

  function Minimum(count: nat): nat {
    if count == 1 then 0x80 else if count == 2 then 0x800 else 0x1_0000
  }

  function ContinuationCount(lead: int): nat {
    if 0xc2 <= lead <= 0xdf then 1 else if 0xe0 <= lead <= 0xef then 2 else if 0xf0 <= lead <= 0xf4 then 3 else 0
  }

  /** How an accumulating reader finds the code point at the front of `s`. */
  lemma DecodeByAccumulation(s: string, count: nat)
    requires 1 <= count < |s| && count == ContinuationCount(s[0] as int)
    ensures var tail := s[1..1 + count];
            var cp := Accumulated(s[0] as int % LeadBits(count), tail);
            DecodeFirst(s) == if AllContinuations(tail) && Minimum(count) <= cp && IsScalar(cp)
                              then Some(Decoded(cp, count + 1)) else None
  {
    if count == 1 {
      DecodeOneContinuation(s);
    } else if count == 2 {
      DecodeTwoContinuations(s);
    } else {
      DecodeThreeContinuations(s);
    }
  }

  lemma DecodeOneContinuation(s: string)
    requires 1 < |s| && ContinuationCount(s[0] as int) == 1
    ensures var cp := Accumulated(s[0] as int % 0x20, s[1..2]);
            DecodeFirst(s)
            == if AllContinuations(s[1..2]) && 0x80 <= cp && IsScalar(cp) then Some(Decoded(cp, 2)) else None
  {
    assert s[1..2] == [s[1]];
    AccumulatedOne(s[0] as int % 0x20, s[1]);
    ContinuationRange(s[1]);
  }

  lemma DecodeTwoContinuations(s: string)
    requires 2 < |s| && ContinuationCount(s[0] as int) == 2
    ensures var cp := Accumulated(s[0] as int % 0x10, s[1..3]);
            DecodeFirst(s)
            == if AllContinuations(s[1..3]) && 0x800 <= cp && IsScalar(cp) then Some(Decoded(cp, 3)) else None
  {
    var tail := s[1..3];
    assert tail == [s[1], s[2]];
    assert AllContinuations(tail) <==> IsContinuation(tail[0]) && IsContinuation(tail[1]);
    AccumulatedTwo(s[0] as int % 0x10, s[1], s[2]);
    ContinuationRange(s[1]);
    ContinuationRange(s[2]);
  }

  lemma DecodeThreeContinuations(s: string)
    requires 3 < |s| && ContinuationCount(s[0] as int) == 3
    ensures var cp := Accumulated(s[0] as int % 8, s[1..4]);
            DecodeFirst(s)
            == if AllContinuations(s[1..4]) && 0x1_0000 <= cp && IsScalar(cp) then Some(Decoded(cp, 4)) else None
  {
    var tail := s[1..4];
    assert tail == [s[1], s[2], s[3]];
    assert AllContinuations(tail) <==> IsContinuation(tail[0]) && IsContinuation(tail[1]) && IsContinuation(tail[2]);
    AccumulatedThree(s[0] as int % 8, s[1], s[2], s[3]);
    ContinuationRange(s[1]);
    ContinuationRange(s[2]);
    ContinuationRange(s[3]);
  }

  // ----- The recipe validator: lead byte decides a count, the code point is checked afterwards

  lemma AsciiStep(s: string)
    requires s != "" && s[0] as int <= 0x7f
    ensures Decodable(s, false) <==> Decodable(s[1..], false)
  {
  }

  lemma NoLead(s: string)
    requires s != "" && s[0] as int > 0x7f && ContinuationCount(s[0] as int) == 0
    ensures !Decodable(s, false)
  {
  }

  lemma TooShort(s: string)
    requires s != "" && s[0] as int > 0x7f && |s| <= ContinuationCount(s[0] as int)
    ensures !Decodable(s, false)
  {
  }

  /** A sequence of several bytes decodes exactly if its accumulated value is acceptable, and the rest does. */
  lemma SequenceStep(s: string, count: nat)
    requires 1 <= count < |s| && count == ContinuationCount(s[0] as int)
    ensures var tail := s[1..1 + count];
            var cp := Accumulated(s[0] as int % LeadBits(count), tail);
            Decodable(s, false) <==> AllContinuations(tail) && Minimum(count) <= cp && IsScalar(cp)
                                     && Decodable(s[count + 1..], false)
  {
    hide DecodeFirst, Accumulated, AllContinuations;
    DecodeByAccumulation(s, count);
  }

  method IsValidUtf8(value: string) returns (valid: bool)
    ensures valid <==> IsUtf8(value)
  {
    hide DecodeFirst, Decodable, IsUtf8, Accumulated, AllContinuations;
    DecodableIff(value);
    DecodableEnd();
    assert value[0..] == value;
    var index := 0;
    while index < |value|
      invariant index <= |value|
      invariant Decodable(value, false) <==> Decodable(value[index..], false)
    {
      ghost var s := value[index..];
      var first := value[index] as int;
      assert s[0] as int == first;
      if first <= 0x7f {
        AsciiStep(s);
        assert s[1..] == value[index + 1..];
        index := index + 1;
        continue;
      }
      var count, lead;
      if 0xc2 <= first <= 0xdf {
        count, lead := 1, first % 0x20;
      } else if 0xe0 <= first <= 0xef {
        count, lead := 2, first % 0x10;
      } else if 0xf0 <= first <= 0xf4 {
        count, lead := 3, first % 8;
      } else {
        NoLead(s);
        return false;
      }
      if index + count >= |value| {
        TooShort(s);
        return false;
      }
      SequenceStep(s, count);
      assert s[1..1 + count] == value[index + 1..index + 1 + count];
      var codepoint := ReadContinuations(value, index, count, lead);
      if codepoint.None? {
        return false;
      }
      var cp := codepoint.value;
      AccumulatedAtLeastLead(lead, value[index + 1..index + 1 + count]);
      if (count == 2 && cp < 0x800) || (count == 3 && cp < 0x1_0000) || 0xd800 <= cp <= 0xdfff || cp > 0x10ffff {
        return false;
      }
      assert s[count + 1..] == value[index + count + 1..];
      index := index + count + 1;
    }
    assert value[index..] == "";
    return true;
  }

  lemma DecodableEnd()
    ensures Decodable("", false)
  {
  }

  lemma {:induction false} AccumulatedAtLeastLead(lead: int, tail: string)
    requires lead >= 0
    ensures Accumulated(lead, tail) >= lead
    ensures tail != "" ==> Accumulated(lead, tail) >= lead * 0x40
  {
    if tail != "" {
      AccumulatedAtLeastLead(lead, tail[..|tail| - 1]);
    }
  }

  // ----- The request-text validator: a table of ranges for the second byte

  predicate ThreeByteRange(first: int, second: char) {
    || (first == 0xe0 && 0xa0 <= second as int <= 0xbf)
    || (first == 0xed && 0x80 <= second as int <= 0x9f)
    || ((0xe1 <= first <= 0xec || 0xee <= first <= 0xef) && 0x80 <= second as int <= 0xbf)
  }

  predicate FourByteRange(first: int, second: char) {
    || (first == 0xf0 && 0x90 <= second as int <= 0xbf)
    || (first == 0xf4 && 0x80 <= second as int <= 0x8f)
    || (0xf1 <= first <= 0xf3 && 0x80 <= second as int <= 0xbf)
  }

  /** One step of the range table. */
  function TableDecode(s: string): Option<Decoded> {
    if s == "" then None
    else
      var first := s[0] as int;
      if first <= 0x7f then Some(Decoded(first, 1))
      else if 0xc2 <= first <= 0xdf && |s| > 1 && 0x80 <= s[1] as int <= 0xbf then
        Some(Decoded(first % 0x20 * 0x40 + s[1] as int % 0x40, 2))
      else if 0xe0 <= first <= 0xef && |s| > 2 then
        if !ThreeByteRange(first, s[1]) || !(0x80 <= s[2] as int <= 0xbf) then None
        else Some(Decoded(first % 0x10 * 0x1000 + s[1] as int % 0x40 * 0x40 + s[2] as int % 0x40, 3))
      else if 0xf0 <= first <= 0xf4 && |s| > 3 then
        if !FourByteRange(first, s[1]) || !(0x80 <= s[2] as int <= 0xbf) || !(0x80 <= s[3] as int <= 0xbf) then None
        else Some(Decoded(first % 8 * 0x4_0000 + s[1] as int % 0x40 * 0x1000 + s[2] as int % 0x40 * 0x40
            + s[3] as int % 0x40, 4))
      else None
  }

  /** The range table admits exactly the shortest-form encodings of scalar values. */
  lemma TableAgrees(s: string)
    ensures TableDecode(s) == DecodeFirst(s)
  {
  }

  method IsValidUtf8Text(value: string) returns (valid: bool)
    ensures valid <==> IsPlainUtf8(value)
  {
    hide DecodeFirst;
    DecodableIff(value);
    var index := 0;
    while index < |value|
      invariant index <= |value|
      invariant Decodable(value, true) <==> Decodable(value[index..], true)
    {
      TableAgrees(value[index..]);
      var step := TableDecode(value[index..]);
      if step.None? || IsControl(step.value.cp) {
        return false;
      }
      DecodeWidth(value[index..]);
      assert value[index..][step.value.width..] == value[index + step.value.width..];
      index := index + step.value.width;
    }
    return true;
  }

  // ----- The planner's validator: decode with a minimum, then reject controls

  method DecodeUtf8CodePoint(value: string, offset: nat) returns (out: Option<Decoded>)
    requires offset < |value|
    ensures out == DecodeFirst(value[offset..])
  {
    ghost var s := value[offset..];
    var first := value[offset] as int;
    if first <= 0x7f {
      return Some(Decoded(first, 1));
    }
    var length, lead, minimum;
    if 0xc2 <= first <= 0xdf {
      length, lead, minimum := 2, first % 0x20, 0x80;
    } else if 0xe0 <= first <= 0xef {
      length, lead, minimum := 3, first % 0x10, 0x800;
    } else if 0xf0 <= first <= 0xf4 {
      length, lead, minimum := 4, first % 8, 0x1_0000;
    } else {
      return None;
    }
    if |value| - offset < length {
      return None;
    }
    DecodeByAccumulation(s, length - 1);
    assert s[1..length] == value[offset + 1..offset + length];
    var codepoint := ReadContinuations(value, offset, length - 1, lead);
    if codepoint.None? {
      return None;
    }
    var cp := codepoint.value;
    if cp < minimum || 0xd800 <= cp <= 0xdfff || cp > 0x10ffff {
      return None;
    }
    return Some(Decoded(cp, length));
  }

  method ValidateVarchar(value: string) returns (valid: bool)
    ensures valid <==> IsPlainUtf8(value)
  {
    hide DecodeFirst;
    DecodableIff(value);
    var offset := 0;
    while offset < |value|
      invariant offset <= |value|
      invariant Decodable(value, true) <==> Decodable(value[offset..], true)
    {
      var step := DecodeUtf8CodePoint(value, offset);
      if step.None? || IsControl(step.value.cp) {
        return false;
      }
      DecodeWidth(value[offset..]);
      assert value[offset..][step.value.width..] == value[offset + step.value.width..];
      offset := offset + step.value.width;
    }
    return true;
  }

  // ----- Control code points, by their bytes

  /** No C0 control, no DEL, and no C1 control: one of those is the byte C2 with a byte up to 9F behind it. */
  predicate BytesPlain(s: string) {
    && (forall i :: 0 <= i < |s| ==> s[i] as int > 0x1f && s[i] as int != 0x7f)
    && forall i :: 0 <= i < |s| - 1 ==> !(s[i] as int == 0xc2 && s[i + 1] as int <= 0x9f)
  }

  lemma ScalarBytesPlain(cp: int)
    requires IsScalar(cp)
    ensures BytesPlain(EncodeScalar(cp)) <==> !IsControl(cp)
    ensures var s := EncodeScalar(cp); s != "" && s[|s| - 1] as int <= 0xbf
    ensures EncodeScalar(cp)[0] as int < 0x80 || EncodeScalar(cp)[0] as int >= 0xc2
  {
  }

  lemma {:induction false} TextBytesPlain(cps: seq<int>)
    requires AllScalars(cps)
    ensures BytesPlain(EncodeText(cps)) <==> NoControls(cps)
  {
    if cps != [] {
      ScalarBytesPlain(cps[0]);
      TextBytesPlain(cps[1..]);
      JoinedPlain(EncodeScalar(cps[0]), EncodeText(cps[1..]));
      assert NoControls(cps) <==> !IsControl(cps[0]) && NoControls(cps[1..]) by {
        EncodedControls(cps[0], cps[1..]);
        assert cps == [cps[0]] + cps[1..];
      }
    }
  }

  lemma EncodedControls(cp: int, rest: seq<int>)
    ensures NoControls([cp] + rest) <==> !IsControl(cp) && NoControls(rest)
  {
    if NoControls([cp] + rest) {
      assert ([cp] + rest)[0] == cp;
      assert forall i :: 0 <= i < |rest| ==> rest[i] == ([cp] + rest)[i + 1];
    }
  }

  lemma JoinedPlain(s: string, t: string)
    requires s != "" && s[|s| - 1] as int <= 0xbf
    ensures BytesPlain(s + t) <==> BytesPlain(s) && BytesPlain(t)
  {
    if BytesPlain(s + t) {
      assert forall i :: 0 <= i < |s| ==> s[i] == (s + t)[i];
      assert forall i :: 0 <= i < |t| ==> t[i] == (s + t)[|s| + i];
    }
  }

  /** Text without control code points, read off the bytes. */
  lemma PlainIff(text: string)
    ensures IsPlainUtf8(text) <==> IsUtf8(text) && BytesPlain(text)
  {
    if IsPlainUtf8(text) {
      var cps :| AllScalars(cps) && NoControls(cps) && EncodeText(cps) == text;
      TextBytesPlain(cps);
    }
    if IsUtf8(text) && BytesPlain(text) {
      var cps :| AllScalars(cps) && EncodeText(cps) == text;
      TextBytesPlain(cps);
    }
  }

  /** The examples of section 7 of RFC 3629, and the last code point. */
  lemma KnownEncodings()
    ensures EncodeScalar(0x41) == "\U{41}" && EncodeScalar(0x391) == "\U{ce}\U{91}"
    ensures EncodeScalar(0x2262) == "\U{e2}\U{89}\U{a2}" && EncodeScalar(0xd55c) == "\U{ed}\U{95}\U{9c}"
    ensures EncodeScalar(0x233b4) == "\U{f0}\U{a3}\U{8e}\U{b4}" && EncodeScalar(0x10ffff) == "\U{f4}\U{8f}\U{bf}\U{bf}"
  {
  }
}

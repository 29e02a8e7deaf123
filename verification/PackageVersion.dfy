/** Package versions: canonical core SemVer with 32-bit components. */
module PackageVersion {
  import opened Results
  import opened Decimal

  const MAX_COMPONENT: nat := 0xffff_ffff

  datatype Version = Version(major: nat, minor: nat, patch: nat)

  // ----- Components

  /** The value of a component, if it is a canonical numeral of 32 bits. */
  function ComponentValue(s: string): Option<nat> {
    if IsCanonical(s) && Value(s) <= MAX_COMPONENT then Some(Value(s)) else None
  }

  method ParseComponent(component: string) returns (out: Option<nat>)
    ensures out == ComponentValue(component)
  {
    if component == "" || (|component| > 1 && component[0] == '0') {
      return None;
    }
    var value := 0;
    for k := 0 to |component|
      invariant AllDigits(component[..k]) && value == Value(component[..k]) && value <= MAX_COMPONENT
    {
      if !IsDigit(component[k]) {
        return None;
      }
      var digit := DigitValue(component[k]);
      assert component[..k + 1] == component[..k] + [component[k]];
      ValueStep(component, k);
      if value > (MAX_COMPONENT - digit) / 10 {
        if AllDigits(component) {
          PrefixValue(component, k + 1);
        }
        return None;
      }
      value := value * 10 + digit;
    }
    assert component[..|component|] == component;
    return Some(value);
  }

  // ----- Versions

  /** The first dot at or after `from`. */
  function FindDot(s: string, from: nat): (at: Option<nat>)
    requires from <= |s|
    ensures at.Some? ==> from <= at.value < |s| && s[at.value] == '.'
    ensures at.Some? ==> forall i :: from <= i < at.value ==> s[i] != '.'
    ensures at.None? ==> forall i :: from <= i < |s| ==> s[i] != '.'
    decreases |s| - from
  {
    if from == |s| then None else if s[from] == '.' then Some(from) else FindDot(s, from + 1)
  }

  function Parse(s: string): Option<Version> {
    var first := FindDot(s, 0);
    if first.None? then None
    else
      var second := FindDot(s, first.value + 1);
      if second.None? || FindDot(s, second.value + 1).Some? then None
      else
        var major := ComponentValue(s[..first.value]);
        var minor := ComponentValue(s[first.value + 1..second.value]);
        var patch := ComponentValue(s[second.value + 1..]);
        if major.None? || minor.None? || patch.None? then None
        else Some(Version(major.value, minor.value, patch.value))
  }

  predicate InRange(v: Version) {
    v.major <= MAX_COMPONENT && v.minor <= MAX_COMPONENT && v.patch <= MAX_COMPONENT
  }

  /** The one spelling of a version. */
  function Text(v: Version): string {
    Numeral(v.major) + "." + Numeral(v.minor) + "." + Numeral(v.patch)
  }

  lemma ComponentIsNumeral(s: string, n: nat)
    ensures ComponentValue(s) == Some(n) <==> s == Numeral(n) && n <= MAX_COMPONENT
  {
    ValueOfNumeral(n);
    if ComponentValue(s) == Some(n) {
      NumeralOfValue(s);
    }
  }

  lemma {:induction false} FirstDot(s: string, from: nat, at: nat)
    requires from <= at < |s| && s[at] == '.' && forall i :: from <= i < at ==> s[i] != '.'
    ensures FindDot(s, from) == Some(at)
    decreases at - from
  {
    if from < at {
      FirstDot(s, from + 1, at);
    }
  }

  lemma {:induction false} LastDot(s: string, from: nat)
    requires from <= |s| && forall i :: from <= i < |s| ==> s[i] != '.'
    ensures FindDot(s, from) == None
    decreases |s| - from
  {
    if from < |s| {
      LastDot(s, from + 1);
    }
  }

  lemma DigitsHaveNoDot(s: string, from: nat, to: nat)
    requires from <= to <= |s| && AllDigits(s[from..to])
    ensures forall i :: from <= i < to ==> s[i] != '.'
  {
    forall i | from <= i < to ensures s[i] != '.' {
      assert s[i] == s[from..to][i - from];
    }
  }

  lemma Pieces(a: string, b: string, c: string)
    ensures var s := a + "." + b + "." + c;
            && s[|a|] == '.' && s[|a| + 1 + |b|] == '.'
            && s[0..|a|] == a && s[|a| + 1..|a| + 1 + |b|] == b && s[|a| + |b| + 2..|s|] == c
  {
  }

  /** A version text splits at its two dots. */
  lemma SplitsAt(s: string, first: nat, second: nat)
    requires first < second < |s| && s[first] == '.' && s[second] == '.'
    requires AllDigits(s[0..first]) && AllDigits(s[first + 1..second]) && AllDigits(s[second + 1..|s|])
    ensures FindDot(s, 0) == Some(first) && FindDot(s, first + 1) == Some(second) && FindDot(s, second + 1) == None
  {
    hide FindDot, AllDigits;
    DigitsHaveNoDot(s, 0, first);
    DigitsHaveNoDot(s, first + 1, second);
    DigitsHaveNoDot(s, second + 1, |s|);
    FirstDot(s, 0, first);
    FirstDot(s, first + 1, second);
    LastDot(s, second + 1);
  }

  lemma TextParses(v: Version)
    requires InRange(v)
    ensures Parse(Text(v)) == Some(v)
  {
    hide Numeral, Value, FindDot, AllDigits, ComponentValue;
    var a, b, c, s := Numeral(v.major), Numeral(v.minor), Numeral(v.patch), Text(v);
    ComponentIsNumeral(a, v.major);
    ComponentIsNumeral(b, v.minor);
    ComponentIsNumeral(c, v.patch);
    Pieces(a, b, c);
    SplitsAt(s, |a|, |a| + 1 + |b|);
    assert s[..|a|] == a && s[|a| + |b| + 2..] == c;
  }

  lemma ParsedIsText(s: string, v: Version)
    requires Parse(s) == Some(v)
    ensures s == Text(v) && InRange(v)
  {
    hide Numeral, Value, FindDot, AllDigits, ComponentValue;
    var first := FindDot(s, 0).value;
    var second := FindDot(s, first + 1).value;
    ComponentIsNumeral(s[..first], v.major);
    ComponentIsNumeral(s[first + 1..second], v.minor);
    ComponentIsNumeral(s[second + 1..], v.patch);
    assert s == s[..first] + [s[first]] + s[first + 1..second] + [s[second]] + s[second + 1..];
  }

  /** Parsing accepts exactly the canonical spellings of versions in range, and reads them back. */
  lemma ParseIff(s: string, v: Version)
    ensures Parse(s) == Some(v) <==> s == Text(v) && InRange(v)
  {
    hide Text, Parse;
    if Parse(s) == Some(v) {
      ParsedIsText(s, v);
    }
    if s == Text(v) && InRange(v) {
      TextParses(v);
    }
  }

  // ----- Order

  function Compare(v: Version, w: Version): int {
    if v.major != w.major then (if v.major < w.major then -1 else 1)
    else if v.minor != w.minor then (if v.minor < w.minor then -1 else 1)
    else if v.patch != w.patch then (if v.patch < w.patch then -1 else 1)
    else 0
  }

  /** The canonical text of a version is its three numerals in order, each below 2^32, with two dots. */
  lemma SpellingParses(major: nat, minor: nat, patch: nat)
    ensures Parse(Numeral(major) + "." + Numeral(minor) + "." + Numeral(patch)) == Some(Version(major, minor, patch))
       <==> major < 0x1_0000_0000 && minor < 0x1_0000_0000 && patch < 0x1_0000_0000
  {
    ParseIff(Text(Version(major, minor, patch)), Version(major, minor, patch));
  }

  /** The place of a version among all versions. */
  function Place(v: Version): nat {
    v.major * 0x1_0000_0000_0000_0000 + v.minor * 0x1_0000_0000 + v.patch
  }

  /** Versions compare as their places do: major before minor before patch. */
  lemma CompareIff(v: Version, w: Version)
    requires InRange(v) && InRange(w)
    ensures Compare(v, w) < 0 <==> Place(v) < Place(w)
    ensures Compare(v, w) == 0 <==> v == w
    ensures Compare(v, w) == -Compare(w, v)
  {
  }
}

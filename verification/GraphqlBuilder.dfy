/** The only way literals come into being: a package declares them, and the compiled-model builders make them. */
module GraphqlBuilder {
  import opened Results
  import opened Decimal
  import opened GraphqlModel
  import opened GraphqlText
  import opened GraphqlValidity
  import opened GraphqlPlanner

  // ----- The builders

  /** The values of a signed 64-bit integer. */
  predicate IsInt64(n: int) {
    -TWO_TO_63 <= n < TWO_TO_63
  }

  function NullLiteral(): Literal {
    Literal(NullKind, "", [], [])
  }

  function BooleanLiteral(value: bool): Literal {
    Literal(BooleanKind, if value then "true" else "false", [], [])
  }

  function IntegerLiteral(value: int): Literal
    requires IsInt64(value)
  {
    Literal(IntegerKind, SignedNumeral(value), [], [])
  }

  function StringLiteral(value: string): Literal {
    Literal(StringKind, value, [], [])
  }

  function EnumLiteral(value: string): Literal {
    Literal(EnumKind, value, [], [])
  }

  function ListLiteral(items: seq<Literal>): Literal {
    Literal(ListKind, "", items, [])
  }

  function ObjectLiteral(fields: seq<ObjectField>): Literal {
    Literal(ObjectKind, "", [], fields)
  }

  /** A literal some sequence of builder calls returns. */
  ghost predicate Built(l: Literal)
    decreases l
  {
    || l == NullLiteral()
    || (exists b :: l == BooleanLiteral(b))
    || (exists n :: IsInt64(n) && l == IntegerLiteral(n))
    || l == StringLiteral(l.scalar)
    || l == EnumLiteral(l.scalar)
    || (l == ListLiteral(l.items) && forall i :: 0 <= i < |l.items| ==> Built(l.items[i]))
    || (l == ObjectLiteral(l.fields) && forall i :: 0 <= i < |l.fields| ==> Built(l.fields[i].value))
  }

  ghost predicate RecipeBuilt(r: Recipe) {
    forall i :: 0 <= i < |r.fixedArguments| ==> Built(r.fixedArguments[i].value)
  }

  // ----- Built integers

  /** The number a text spells. */
  function SignedValue(s: string): int
    requires IsCanonicalInteger(s)
  {
    if s[0] == '-' then -(Value(s[1..]) as int) else Value(s)
  }

  lemma SignedNumeralReads(n: int)
    ensures IsCanonicalInteger(SignedNumeral(n)) && SignedValue(SignedNumeral(n)) == n
    ensures SignedNumeral(n)[0] == '-' <==> n < 0
  {
    hide Numeral, Value;
    if n < 0 {
      ValueOfNumeral(-n);
      assert SignedNumeral(n)[1..] == Numeral(-n);
    } else {
      ValueOfNumeral(n);
      assert IsDigit(Numeral(n)[0]);
    }
  }

  lemma SignedNumeralFits(n: int)
    ensures IsCanonicalInteger(SignedNumeral(n))
    ensures FitsSigned64(SignedNumeral(n)) <==> IsInt64(n)
  {
    hide SignedNumeral, Value;
    SignedNumeralReads(n);
  }

  lemma {:induction false} BuiltIntegersFit(l: Literal)
    requires Built(l)
    ensures IntegersFit(l)
  {
    if l.kind == IntegerKind {
      var n :| IsInt64(n) && l == IntegerLiteral(n);
      SignedNumeralFits(n);
    } else {
      forall i | 0 <= i < |l.items| ensures IntegersFit(l.items[i]) {
        BuiltIntegersFit(l.items[i]);
      }
      forall i | 0 <= i < |l.fields| ensures IntegersFit(l.fields[i].value) {
        BuiltIntegersFit(l.fields[i].value);
      }
    }
  }

  /** The planner and the connector agree on every recipe the builders can make, whatever the budget: the planner
      succeeds if and only if the connector accepts the recipe and its document fits. */
  lemma BuiltRecipePlans(r: Recipe, budget: nat)
    requires RecipeBuilt(r) && r.identity == PackageQueryGeneratorV1 && 1 <= budget <= MAX_BUDGET
    ensures Plannable(r, budget) <==> ConnectorDocument(r).Some? && |ConnectorDocument(r).value| <= budget
  {
    forall i | 0 <= i < |r.fixedArguments| ensures IntegersFit(r.fixedArguments[i].value) {
      BuiltIntegersFit(r.fixedArguments[i].value);
    }
    if ValidRecipe(r, AnyInteger) {
      ValidIsRenderable(r, AnyInteger);
    }
  }

  // ----- Compiling declarations

  /** A declared literal: its kind, the text of a scalar and whether it is written plain, and the children. */
  datatype Declaration = Declaration(
    kind: LiteralKind, text: string, plain: bool, items: seq<Declaration>, fields: seq<DeclaredField>)
  datatype DeclaredField = DeclaredField(name: string, value: Declaration)

  /** The number a plain text spells canonically within 64 bits. */
  function DeclaredInteger(text: string, plain: bool): Option<int> {
    if plain && IntegerAccepted(text, Signed64) then Some(SignedValue(text)) else None
  }

  /** Accumulates the magnitude as it checks it, so that no step overflows. */
  method IsCanonicalSigned(text: string, plain: bool) returns (parsed: Option<int>)
    ensures parsed == DeclaredInteger(text, plain)
  {
    if !plain || text == "" {
      return None;
    }
    var negative := text[0] == '-';
    var begin := if negative then 1 else 0;
    if begin == |text| || (text[begin] == '0' && begin + 1 != |text|) {
      return None;
    }
    var digits := text[begin..];
    assert digits == if negative then text[1..] else text;
    var maximum := if negative then TWO_TO_63 else TWO_TO_63 - 1;
    var magnitude := 0;
    for index := 0 to |digits|
      invariant AllDigits(digits[..index]) && magnitude == Value(digits[..index]) && magnitude <= maximum
    {
      if !IsDigit(digits[index]) {
        return None;
      }
      var digit := DigitValue(digits[index]);
      assert digits[..index + 1] == digits[..index] + [digits[index]];
      ValueStep(digits, index);
      if magnitude > (maximum - digit) / 10 {
        if AllDigits(digits) {
          PrefixValue(digits, index + 1);
        }
        return None;
      }
      magnitude := magnitude * 10 + digit;
    }
    assert digits[..|digits|] == digits;
    return Some(if negative then -magnitude else magnitude);
  }

  function CompileLiteral(d: Declaration): Option<Literal>
    decreases d, 1
  {
    match d.kind
    case NullKind => Some(NullLiteral())
    case BooleanKind => Some(BooleanLiteral(d.text == "true"))
    case IntegerKind =>
      var parsed := DeclaredInteger(d.text, d.plain);
      if parsed.None? then None else Some(IntegerLiteral(parsed.value))
    case StringKind => Some(StringLiteral(d.text))
    case EnumKind => Some(EnumLiteral(d.text))
    case ListKind =>
      var items := CompileItems(d.items);
      if items.None? then None else Some(ListLiteral(items.value))
    case ObjectKind =>
      var fields := CompileFields(d.fields);
      if fields.None? then None else Some(ObjectLiteral(fields.value))
  }

  function CompileItems(ds: seq<Declaration>): Option<seq<Literal>>
    decreases ds, 0
  {
    if ds == [] then Some([])
    else
      var first := CompileLiteral(ds[0]);
      var rest := CompileItems(ds[1..]);
      if first.None? || rest.None? then None else Some([first.value] + rest.value)
  }

  function CompileFields(ds: seq<DeclaredField>): Option<seq<ObjectField>>
    decreases ds, 0
  {
    if ds == [] then Some([])
    else
      var first := CompileLiteral(ds[0].value);
      var rest := CompileFields(ds[1..]);
      if first.None? || rest.None? then None else Some([ObjectField(ds[0].name, first.value)] + rest.value)
  }

  /** Whatever a package declares, the compiled literal is a built one. */
  lemma {:induction false} CompiledIsBuilt(d: Declaration)
    requires CompileLiteral(d).Some?
    ensures Built(CompileLiteral(d).value)
    decreases d, 1
  {
    match d.kind {
      case ListKind => ItemsAreBuilt(d.items);
      case ObjectKind => FieldsAreBuilt(d.fields);
      case _ =>
    }
  }

  lemma {:induction false} ItemsAreBuilt(ds: seq<Declaration>)
    requires CompileItems(ds).Some?
    ensures forall i :: 0 <= i < |CompileItems(ds).value| ==> Built(CompileItems(ds).value[i])
    decreases ds, 0
  {
    if ds != [] {
      CompiledIsBuilt(ds[0]);
      ItemsAreBuilt(ds[1..]);
    }
  }

  lemma {:induction false} FieldsAreBuilt(ds: seq<DeclaredField>)
    requires CompileFields(ds).Some?
    ensures forall i :: 0 <= i < |CompileFields(ds).value| ==> Built(CompileFields(ds).value[i].value)
    decreases ds, 0
  {
    if ds != [] {
      CompiledIsBuilt(ds[0].value);
      FieldsAreBuilt(ds[1..]);
    }
  }

  /** A declared integer keeps its value: the literal's spelling reads as the number the declaration spells. */
  lemma CompiledIntegerKeepsValue(d: Declaration)
    requires d.kind == IntegerKind && CompileLiteral(d).Some?
    ensures IsCanonicalInteger(d.text) && IsCanonicalInteger(CompileLiteral(d).value.scalar)
    ensures SignedValue(CompileLiteral(d).value.scalar) == SignedValue(d.text)
  {
    hide SignedNumeral, Value, FitsSigned64;
    SignedNumeralReads(SignedValue(d.text));
  }

  /** The literal says what the declaration says, at every depth. */
  predicate Mirrors(d: Declaration, l: Literal) {
    && l.kind == d.kind
    && match d.kind
       case NullKind => true
       case BooleanKind => l.scalar == "true" <==> d.text == "true"
       case IntegerKind =>
         && IsCanonicalInteger(d.text) && IsCanonicalInteger(l.scalar) && SignedValue(l.scalar) == SignedValue(d.text)
       case StringKind => l.scalar == d.text
       case EnumKind => l.scalar == d.text
       case ListKind =>
         |l.items| == |d.items| && forall i :: 0 <= i < |d.items| ==> Mirrors(d.items[i], l.items[i])
       case ObjectKind =>
         && |l.fields| == |d.fields|
         && forall i :: 0 <= i < |d.fields| ==>
              d.fields[i].name == l.fields[i].name && Mirrors(d.fields[i].value, l.fields[i].value)
  }

  /** Every integer in the declaration is plain, canonical and within 64 bits. */
  predicate IntegersDeclared(d: Declaration) {
    match d.kind
    case IntegerKind => d.plain && IntegerAccepted(d.text, Signed64)
    case ListKind => forall i :: 0 <= i < |d.items| ==> IntegersDeclared(d.items[i])
    case ObjectKind => forall i :: 0 <= i < |d.fields| ==> IntegersDeclared(d.fields[i].value)
    case _ => true
  }

  /** A declaration compiles exactly if its integers do, and then to the literal it declares. */
  lemma {:induction false} CompiledMirrors(d: Declaration)
    ensures CompileLiteral(d).Some? <==> IntegersDeclared(d)
    ensures CompileLiteral(d).Some? ==> Mirrors(d, CompileLiteral(d).value)
    decreases d, 1
  {
    match d.kind {
      case IntegerKind =>
        if CompileLiteral(d).Some? {
          CompiledIntegerKeepsValue(d);
        }
      case ListKind => ItemsMirror(d.items);
      case ObjectKind => FieldsMirror(d.fields);
      case _ =>
    }
  }

  lemma {:induction false} ItemsMirror(ds: seq<Declaration>)
    ensures CompileItems(ds).Some? <==> forall i :: 0 <= i < |ds| ==> IntegersDeclared(ds[i])
    ensures CompileItems(ds).Some? ==>
              && |CompileItems(ds).value| == |ds|
              && forall i :: 0 <= i < |ds| ==> Mirrors(ds[i], CompileItems(ds).value[i])
    decreases ds, 0
  {
    hide Mirrors, CompileLiteral, IntegersDeclared;
    if ds != [] {
      CompiledMirrors(ds[0]);
      ItemsMirror(ds[1..]);
      assert forall i :: 1 <= i < |ds| ==> ds[i] == ds[1..][i - 1];
    }
  }

  lemma {:induction false} FieldsMirror(ds: seq<DeclaredField>)
    ensures CompileFields(ds).Some? <==> forall i :: 0 <= i < |ds| ==> IntegersDeclared(ds[i].value)
    ensures CompileFields(ds).Some? ==>
              && |CompileFields(ds).value| == |ds|
              && forall i :: 0 <= i < |ds| ==>
                   && ds[i].name == CompileFields(ds).value[i].name
                   && Mirrors(ds[i].value, CompileFields(ds).value[i].value)
    decreases ds, 0
  {
    hide Mirrors, CompileLiteral, IntegersDeclared;
    if ds != [] {
      CompiledMirrors(ds[0].value);
      FieldsMirror(ds[1..]);
      assert forall i :: 1 <= i < |ds| ==> ds[i] == ds[1..][i - 1];
    }
  }
}

/** Which literals and recipes are valid, and the loops that decide it. */
module GraphqlValidity {
  import opened Results
  import opened GraphqlModel
  import opened GraphqlText
  import opened Decimal
  import opened Bags
  import Utf8

  /** The connector takes any integer spelling; the planner only those of signed 64-bit values. */
  datatype IntegerRule = AnyInteger | Signed64

  const MAX_LITERAL_DEPTH := 32
  const MAX_LITERAL_NODES := 100000
  const MAX_CHILDREN := 4096
  const MAX_STRING_BYTES := 1048576

  // ----- Integers

  const TWO_TO_63: int := 0x8000_0000_0000_0000

  function IntegerMagnitude(s: string): nat
    requires IsCanonicalInteger(s)
  {
    Value(if s[0] == '-' then s[1..] else s)
  }

  predicate FitsSigned64(s: string)
    requires IsCanonicalInteger(s)
  {
    IntegerMagnitude(s) <= (if s[0] == '-' then TWO_TO_63 else TWO_TO_63 - 1)
  }

  predicate IntegerAccepted(s: string, rule: IntegerRule) {
    IsCanonicalInteger(s) && (rule == Signed64 ==> FitsSigned64(s))
  }

  // ----- Literals

  ghost predicate ScalarSound(l: Literal, rule: IntegerRule) {
    match l.kind
    case NullKind => l.scalar == ""
    case BooleanKind => l.scalar == "true" || l.scalar == "false"
    case IntegerKind => IntegerAccepted(l.scalar, rule)
    case StringKind => Utf8.IsUtf8(l.scalar) && |l.scalar| <= MAX_STRING_BYTES
    case EnumKind => IsName(l.scalar) && l.scalar != "true" && l.scalar != "false" && l.scalar != "null"
    case ListKind => l.scalar == ""
    case ObjectKind => l.scalar == ""
  }

  /** Kind and payloads agree, here and in every child. */
  ghost predicate SoundLiteral(l: Literal, rule: IntegerRule)
    decreases l
  {
    && ScalarSound(l, rule)
    && (l.kind != ListKind ==> l.items == [])
    && (l.kind != ObjectKind ==> l.fields == [])
    && |l.items| <= MAX_CHILDREN && |l.fields| <= MAX_CHILDREN
    && (forall i :: 0 <= i < |l.items| ==> SoundLiteral(l.items[i], rule))
    && (forall i :: 0 <= i < |l.fields| ==> IsName(l.fields[i].name) && SoundLiteral(l.fields[i].value, rule))
    && forall i, j :: 0 <= i < j < |l.fields| ==> l.fields[i].name != l.fields[j].name
  }

  /** No node lies deeper than the limit when `l` stands at `depth`. */
  predicate DepthFits(l: Literal, depth: nat)
    decreases l
  {
    && depth <= MAX_LITERAL_DEPTH
    && (forall i :: 0 <= i < |l.items| ==> DepthFits(l.items[i], depth + 1))
    && forall i :: 0 <= i < |l.fields| ==> DepthFits(l.fields[i].value, depth + 1)
  }

  /** The number of nodes of a literal. */
  function Size(l: Literal): nat
    decreases l, 1
  {
    1 + SizeOfItems(l.items) + SizeOfFields(l.fields)
  }

  function SizeOfItems(items: seq<Literal>): nat
    decreases items, 0
  {
    if items == [] then 0 else Size(items[0]) + SizeOfItems(items[1..])
  }

  function SizeOfFields(fields: seq<ObjectField>): nat
    decreases fields, 0
  {
    if fields == [] then 0 else Size(fields[0].value) + SizeOfFields(fields[1..])
  }

  /** A literal is valid at a depth with so many nodes already counted. */
  ghost predicate ValidLiteral(l: Literal, depth: nat, nodes: nat, rule: IntegerRule) {
    SoundLiteral(l, rule) && DepthFits(l, depth) && nodes + Size(l) <= MAX_LITERAL_NODES
  }

  // ----- Deciding integers

  /** Accumulates a magnitude and stops before it could exceed the maximum, so no step overflows 64 bits. */
  method MagnitudeWithin(digits: string, maximum: int) returns (within: bool)
    requires maximum >= 9
    ensures within <==> AllDigits(digits) && Value(digits) <= maximum
  {
    var magnitude := 0;
    for k := 0 to |digits|
      invariant AllDigits(digits[..k]) && magnitude == Value(digits[..k]) && magnitude <= maximum
    {
      if !IsDigit(digits[k]) {
        return false;
      }
      var digit := DigitValue(digits[k]);
      assert digits[..k + 1] == digits[..k] + [digits[k]];
      ValueStep(digits, k);
      if magnitude > (maximum - digit) / 10 {
        if AllDigits(digits) {
          PrefixValue(digits, k + 1);
        }
        return false;
      }
      magnitude := magnitude * 10 + digit;
    }
    assert digits[..|digits|] == digits;
    return true;
  }

  /** The planner's check of an integer spelling. */
  method IsSigned64Integer(value: string) returns (accepted: bool)
    ensures accepted <==> IntegerAccepted(value, Signed64)
  {
    if value == "" {
      return false;
    }
    var negative := value[0] == '-';
    var index := if negative then 1 else 0;
    if index == |value| || (value[index] == '0' && index + 1 != |value|) {
      return false;
    }
    assert value[index..] == if negative then value[1..] else value;
    accepted := MagnitudeWithin(value[index..], if negative then TWO_TO_63 else TWO_TO_63 - 1);
  }

  method CheckScalar(l: Literal, rule: IntegerRule) returns (sound: bool)
    ensures sound <==> ScalarSound(l, rule)
  {
    match l.kind {
      case NullKind => sound := l.scalar == "";
      case BooleanKind => sound := l.scalar == "true" || l.scalar == "false";
      case IntegerKind =>
        if rule == Signed64 {
          sound := IsSigned64Integer(l.scalar);
        } else {
          sound := IsCanonicalInteger(l.scalar);
        }
      case StringKind =>
        sound := Utf8.IsValidUtf8(l.scalar);
        sound := sound && |l.scalar| <= MAX_STRING_BYTES;
      case EnumKind => sound := IsName(l.scalar) && l.scalar != "true" && l.scalar != "false" && l.scalar != "null";
      case ListKind => sound := l.scalar == "";
      case ObjectKind => sound := l.scalar == "";
    }
  }

  // ----- Deciding literals

  lemma {:induction false} OneItemFits(items: seq<Literal>, i: nat)
    requires i < |items|
    ensures SizeOfItems(items[i..]) == Size(items[i]) + SizeOfItems(items[i + 1..])
  {
    assert items[i..][1..] == items[i + 1..];
  }

  lemma {:induction false} OneFieldFits(fields: seq<ObjectField>, i: nat)
    requires i < |fields|
    ensures SizeOfFields(fields[i..]) == Size(fields[i].value) + SizeOfFields(fields[i + 1..])
  {
    assert fields[i..][1..] == fields[i + 1..];
  }

  /** The recursive check: the counter passed along counts the nodes of the tree, and the check stops at the first
      violation. */
  method ValidateLiteral(l: Literal, depth: nat, nodes: nat, rule: IntegerRule) returns (valid: bool, counted: nat)
    ensures valid <==> ValidLiteral(l, depth, nodes, rule)
    ensures valid ==> counted == nodes + Size(l)
    decreases l, 1
  {
    counted := nodes + 1;
    if depth > MAX_LITERAL_DEPTH || counted > MAX_LITERAL_NODES {
      return false, counted;
    }
    var sound := CheckScalar(l, rule);
    if !sound || (l.kind != ListKind && l.items != []) || (l.kind != ObjectKind && l.fields != [])
       || |l.items| > MAX_CHILDREN || |l.fields| > MAX_CHILDREN {
      return false, counted;
    }
    valid, counted := ValidateItems(l, depth, counted, rule);
    if !valid {
      return false, counted;
    }
    valid, counted := ValidateFields(l, depth, counted, rule);
  }

  method ValidateItems(l: Literal, depth: nat, nodes: nat, rule: IntegerRule) returns (valid: bool, counted: nat)
    requires nodes <= MAX_LITERAL_NODES
    ensures valid <==> && (forall i :: 0 <= i < |l.items| ==>
            SoundLiteral(l.items[i], rule) && DepthFits(l.items[i], depth + 1))
                       && nodes + SizeOfItems(l.items) <= MAX_LITERAL_NODES
    ensures valid ==> counted == nodes + SizeOfItems(l.items)
    decreases l, 0
  {
    hide SoundLiteral, DepthFits, Size;
    counted := nodes;
    assert l.items[0..] == l.items;
    for i := 0 to |l.items|
      invariant counted <= MAX_LITERAL_NODES
      invariant counted + SizeOfItems(l.items[i..]) == nodes + SizeOfItems(l.items)
      invariant forall k :: 0 <= k < i ==> SoundLiteral(l.items[k], rule) && DepthFits(l.items[k], depth + 1)
    {
      OneItemFits(l.items, i);
      valid, counted := ValidateLiteral(l.items[i], depth + 1, counted, rule);
      if !valid {
        return false, counted;
      }
    }
    valid := true;
  }

  method ValidateFields(l: Literal, depth: nat, nodes: nat, rule: IntegerRule) returns (valid: bool, counted: nat)
    requires nodes <= MAX_LITERAL_NODES
    ensures valid <==> && (forall i :: 0 <= i < |l.fields| ==>
            IsName(l.fields[i].name) && SoundLiteral(l.fields[i].value, rule))
                       && (forall i :: 0 <= i < |l.fields| ==> DepthFits(l.fields[i].value, depth + 1))
                       && (forall i, j :: 0 <= i < j < |l.fields| ==> l.fields[i].name != l.fields[j].name)
                       && nodes + SizeOfFields(l.fields) <= MAX_LITERAL_NODES
    ensures valid ==> counted == nodes + SizeOfFields(l.fields)
    decreases l, 0
  {
    hide SoundLiteral, DepthFits, Size, IsName;
    counted := nodes;
    var names: set<string> := {};
    assert l.fields[0..] == l.fields;
    for i := 0 to |l.fields|
      invariant counted <= MAX_LITERAL_NODES
      invariant counted + SizeOfFields(l.fields[i..]) == nodes + SizeOfFields(l.fields)
      invariant forall k :: 0 <= k < i ==> IsName(l.fields[k].name) && SoundLiteral(l.fields[k].value, rule)
      invariant forall k :: 0 <= k < i ==> DepthFits(l.fields[k].value, depth + 1)
      invariant forall j, k :: 0 <= j < k < i ==> l.fields[j].name != l.fields[k].name
      invariant forall name :: name in names <==> exists k :: 0 <= k < i && l.fields[k].name == name
    {
      OneFieldFits(l.fields, i);
      if !IsName(l.fields[i].name) || l.fields[i].name in names {
        return false, counted;
      }
      names := names + {l.fields[i].name};
      valid, counted := ValidateLiteral(l.fields[i].value, depth + 1, counted, rule);
      if !valid {
        return false, counted;
      }
    }
    valid := true;
  }

  // ----- Recipes

  predicate EnvelopeValid(r: Recipe) {
    && IsName(r.operationName)
    && 1 <= |r.rootPath| <= 16 && |r.fixedArguments| <= 64 && 1 <= |r.selections| <= 256
    && r.nodesField == "nodes"
    && IsName(r.pageInfoField) && IsName(r.hasNextPageField) && IsName(r.endCursorField)
    && r.pageInfoField != r.nodesField && r.hasNextPageField != r.endCursorField
  }

  predicate VariablesValid(r: Recipe) {
    && |r.variables| == 2
    && r.variables[0].role == PageSizeRole && r.variables[0].variableType == IntNonNull
    && r.variables[1].role == CursorRole && r.variables[1].variableType == StringNullable
    && IsName(r.variables[0].name) && IsName(r.variables[1].name)
    && IsName(r.variables[0].argumentName) && IsName(r.variables[1].argumentName)
    && r.variables[0].name != r.variables[1].name
    && r.variables[0].argumentName != r.variables[1].argumentName
  }

  function Reserved(r: Recipe): set<string> {
    {"data", "errors", r.nodesField, r.pageInfoField, r.hasNextPageField, r.endCursorField}
  }

  ghost predicate RootsValid(r: Recipe) {
    && (forall i :: 0 <= i < |r.rootPath| ==> IsName(r.rootPath[i]) && r.rootPath[i] !in Reserved(r))
    && AllDistinct(r.rootPath)
  }

  function SizeOfArguments(arguments: seq<FixedArgument>): nat {
    if arguments == [] then 0 else Size(arguments[0].value) + SizeOfArguments(arguments[1..])
  }

  ghost predicate ArgumentsValid(r: Recipe, rule: IntegerRule) {
    && |r.variables| == 2
    && (forall i :: 0 <= i < |r.fixedArguments| ==>
          && IsName(r.fixedArguments[i].name)
          && r.fixedArguments[i].name != r.variables[0].argumentName
          && r.fixedArguments[i].name != r.variables[1].argumentName)
    && (forall i, j :: 0 <= i < j < |r.fixedArguments| ==> r.fixedArguments[i].name != r.fixedArguments[j].name)
    && (forall i :: 0 <= i < |r.fixedArguments| ==>
          SoundLiteral(r.fixedArguments[i].value, rule) && DepthFits(r.fixedArguments[i].value, 1))
    && SizeOfArguments(r.fixedArguments) <= MAX_LITERAL_NODES
  }

  predicate SelectionShaped(s: Selection) {
    && IsColumnName(s.columnName)
    && 1 <= |s.fieldPath| <= 2
    && forall i :: 0 <= i < |s.fieldPath| ==> IsName(s.fieldPath[i])
  }

  /** Columns are distinct and no two selections share a first field: no response key needs merging. */
  ghost predicate SelectionsValid(selections: seq<Selection>) {
    && (forall i :: 0 <= i < |selections| ==> SelectionShaped(selections[i]))
    && (forall i, j :: 0 <= i < j < |selections| ==> selections[i].columnName != selections[j].columnName)
    && forall i, j :: 0 <= i < j < |selections| ==> selections[i].fieldPath[0] != selections[j].fieldPath[0]
  }

  ghost predicate ValidRecipe(r: Recipe, rule: IntegerRule) {
    EnvelopeValid(r) && VariablesValid(r) && RootsValid(r) && ArgumentsValid(r, rule) && SelectionsValid(r.selections)
  }

  method ValidateRoots(r: Recipe) returns (valid: bool)
    ensures valid <==> RootsValid(r)
  {
    var roots: set<string> := {};
    for i := 0 to |r.rootPath|
      invariant forall k :: 0 <= k < i ==> IsName(r.rootPath[k]) && r.rootPath[k] !in Reserved(r)
      invariant forall j, k :: 0 <= j < k < i ==> r.rootPath[j] != r.rootPath[k]
      invariant forall name :: name in roots <==> exists k :: 0 <= k < i && r.rootPath[k] == name
    {
      if !IsName(r.rootPath[i]) || r.rootPath[i] in Reserved(r) || r.rootPath[i] in roots {
        return false;
      }
      roots := roots + {r.rootPath[i]};
    }
    return true;
  }

  method ValidateArguments(r: Recipe, rule: IntegerRule) returns (valid: bool)
    requires |r.variables| == 2
    ensures valid <==> ArgumentsValid(r, rule)
  {
    hide SoundLiteral, DepthFits, Size, IsName;
    var arguments := {r.variables[0].argumentName, r.variables[1].argumentName};
    var nodes: nat := 0;
    var args := r.fixedArguments;
    assert args[0..] == args;
    for i := 0 to |args|
      invariant nodes <= MAX_LITERAL_NODES
      invariant nodes + SizeOfArguments(args[i..]) == SizeOfArguments(args)
      invariant forall k :: 0 <= k < i ==>
                  && IsName(args[k].name)
                  && args[k].name != r.variables[0].argumentName && args[k].name != r.variables[1].argumentName
      invariant forall j, k :: 0 <= j < k < i ==> args[j].name != args[k].name
      invariant forall k :: 0 <= k < i ==> SoundLiteral(args[k].value, rule) && DepthFits(args[k].value, 1)
      invariant forall name :: name in arguments <==>
                  || name == r.variables[0].argumentName || name == r.variables[1].argumentName
                  || exists k :: 0 <= k < i && args[k].name == name
    {
      assert args[i..][1..] == args[i + 1..];
      if !IsName(args[i].name) || args[i].name in arguments {
        return false;
      }
      arguments := arguments + {args[i].name};
      valid, nodes := ValidateLiteral(args[i].value, 1, nodes, rule);
      if !valid {
        return false;
      }
    }
    return true;
  }

  function PathKey(path: seq<string>): string
    requires 1 <= |path| <= 2
  {
    if |path| == 1 then path[0] else path[0] + "\n" + path[1]
  }

  /** Names hold no line break, so a key tells its path. */
  lemma PathKeysDiffer(a: seq<string>, b: seq<string>)
    requires 1 <= |a| <= 2 && 1 <= |b| <= 2 && PathKey(a) == PathKey(b)
    requires (forall i :: 0 <= i < |a| ==> IsName(a[i])) && (forall i :: 0 <= i < |b| ==> IsName(b[i]))
    ensures |a| == |b| && a[0] == b[0]
  {
    var ka, kb := PathKey(a), PathKey(b);
    assert |a| == 2 ==> ka[|a[0]|] == '\n';
    assert |b| == 2 ==> kb[|b[0]|] == '\n';
    assert forall i :: 0 <= i < |a[0]| ==> ka[i] == a[0][i] && IsNameChar(a[0][i]);
    assert forall i :: 0 <= i < |b[0]| ==> kb[i] == b[0][i] && IsNameChar(b[0][i]);
    assert |a[0]| == |b[0]|;
    assert ka[..|a[0]|] == a[0] && kb[..|b[0]|] == b[0];
  }

  /** What the check of one selection asks of the three sets. */
  predicate FreeOf(s: Selection, paths: set<string>, nestedParents: set<string>, columns: set<string>) {
    && SelectionShaped(s)
    && s.columnName !in columns
    && PathKey(s.fieldPath) !in paths
    && s.fieldPath[0] !in nestedParents
    && (|s.fieldPath| == 2 ==> s.fieldPath[0] !in paths)
  }

  method CheckSelection(s: Selection, paths: set<string>, nestedParents: set<string>, columns: set<string>)
    returns (free: bool, paths': set<string>, nestedParents': set<string>, columns': set<string>)
    ensures free <==> FreeOf(s, paths, nestedParents, columns)
    ensures free ==> && paths' == paths + {PathKey(s.fieldPath)}
                     && nestedParents' == nestedParents + (if |s.fieldPath| == 2 then {s.fieldPath[0]} else {})
                     && columns' == columns + {s.columnName}
  {
    free, paths', nestedParents', columns' := false, paths, nestedParents, columns;
    if !IsColumnName(s.columnName) || s.columnName in columns || |s.fieldPath| == 0 || |s.fieldPath| > 2 {
      return;
    }
    columns' := columns + {s.columnName};
    if exists k :: 0 <= k < |s.fieldPath| && !IsName(s.fieldPath[k]) {
      return;
    }
    var path := PathKey(s.fieldPath);
    paths' := paths + {path};
    if path in paths {
      return;
    }
    if |s.fieldPath| == 2 {
      if s.fieldPath[0] in nestedParents {
        return;
      }
      nestedParents' := nestedParents + {s.fieldPath[0]};
    }
    if |s.fieldPath| == 1 && s.fieldPath[0] in nestedParents' {
      return;
    }
    assert |s.fieldPath| == 2 ==> |path| > |s.fieldPath[0]|;
    if |s.fieldPath| == 2 && s.fieldPath[0] in paths' {
      return;
    }
    free := true;
  }

  ghost function Keys(seen: seq<Selection>): set<string>
    requires PathsInShape(seen)
  {
    set k | 0 <= k < |seen| :: PathKey(seen[k].fieldPath)
  }

  ghost function Parents(seen: seq<Selection>): set<string>
    requires PathsInShape(seen)
  {
    set k | 0 <= k < |seen| && |seen[k].fieldPath| == 2 :: seen[k].fieldPath[0]
  }

  ghost function Columns(seen: seq<Selection>): set<string> {
    set k | 0 <= k < |seen| :: seen[k].columnName
  }

  /** The sets hold the path keys, the parents of nested paths and the columns of the selections so far. */
  ghost predicate Tracks(seen: seq<Selection>, paths: set<string>, nestedParents: set<string>, columns: set<string>) {
    SelectionsValid(seen) && paths == Keys(seen) && nestedParents == Parents(seen) && columns == Columns(seen)
  }

  lemma FreeIsValid(seen: seq<Selection>, s: Selection)
    requires SelectionsValid(seen) && FreeOf(s, Keys(seen), Parents(seen), Columns(seen))
    ensures SelectionsValid(seen + [s])
  {
    var next := seen + [s];
    assert next[|seen|] == s && forall k :: 0 <= k < |seen| ==> next[k] == seen[k];
    forall k | 0 <= k < |seen| ensures seen[k].columnName != s.columnName && seen[k].fieldPath[0] != s.fieldPath[0] {
      assert seen[k].columnName in Columns(seen) && PathKey(seen[k].fieldPath) in Keys(seen);
      assert |seen[k].fieldPath| == 2 ==> seen[k].fieldPath[0] in Parents(seen);
    }
  }

  lemma ValidIsFree(seen: seq<Selection>, s: Selection)
    requires SelectionsValid(seen) && SelectionsValid(seen + [s])
    ensures FreeOf(s, Keys(seen), Parents(seen), Columns(seen))
  {
    var next := seen + [s];
    assert next[|seen|] == s && forall k :: 0 <= k < |seen| ==> next[k] == seen[k];
    assert SelectionShaped(next[|seen|]);
    forall k | 0 <= k < |seen|
      ensures PathKey(seen[k].fieldPath) != PathKey(s.fieldPath) && PathKey(seen[k].fieldPath) != s.fieldPath[0]
      ensures seen[k].fieldPath[0] != s.fieldPath[0] && seen[k].columnName != s.columnName
    {
      assert next[k].fieldPath[0] != next[|seen|].fieldPath[0] && next[k].columnName != next[|seen|].columnName;
      assert SelectionShaped(seen[k]);
      if PathKey(seen[k].fieldPath) == PathKey(s.fieldPath) {
        PathKeysDiffer(seen[k].fieldPath, s.fieldPath);
      }
      if PathKey(seen[k].fieldPath) == PathKey([s.fieldPath[0]]) {
        PathKeysDiffer(seen[k].fieldPath, [s.fieldPath[0]]);
      }
    }
  }

  lemma KeysNext(seen: seq<Selection>, s: Selection)
    requires PathsInShape(seen) && 1 <= |s.fieldPath| <= 2
    ensures PathsInShape(seen + [s])
    ensures Keys(seen + [s]) == Keys(seen) + {PathKey(s.fieldPath)}
    ensures Columns(seen + [s]) == Columns(seen) + {s.columnName}
  {
    hide PathKey;
    var next := seen + [s];
    assert next[|seen|] == s && forall k :: 0 <= k < |seen| ==> next[k] == seen[k];
    forall x | x in Keys(seen) + {PathKey(s.fieldPath)} ensures x in Keys(next) {
      var k :| 0 <= k < |next| && PathKey(next[k].fieldPath) == x;
    }
    forall x | x in Columns(seen) + {s.columnName} ensures x in Columns(next) {
      var k :| 0 <= k < |next| && next[k].columnName == x;
    }
  }

  lemma ParentsNext(seen: seq<Selection>, s: Selection)
    requires PathsInShape(seen) && 1 <= |s.fieldPath| <= 2
    ensures PathsInShape(seen + [s])
    ensures Parents(seen + [s]) == if |s.fieldPath| == 2 then Parents(seen) + {s.fieldPath[0]} else Parents(seen)
  {
    var next := seen + [s];
    assert next[|seen|] == s && forall k :: 0 <= k < |seen| ==> next[k] == seen[k];
    forall x | x in Parents(seen) || (|s.fieldPath| == 2 && x == s.fieldPath[0]) ensures x in Parents(next) {
      var k :| 0 <= k < |next| && |next[k].fieldPath| == 2 && next[k].fieldPath[0] == x;
    }
  }

  lemma PrefixValid(selections: seq<Selection>, i: nat)
    requires i <= |selections| && SelectionsValid(selections)
    ensures SelectionsValid(selections[..i])
  {
    assert forall k :: 0 <= k < i ==> selections[..i][k] == selections[k];
  }

  /** The overlap check with its three growing sets accepts a list exactly when all columns are distinct and no two
      selections share a first field. */
  method ValidateSelections(selections: seq<Selection>) returns (valid: bool)
    ensures valid <==> SelectionsValid(selections)
  {
    var paths: set<string>, nestedParents: set<string>, columns: set<string> := {}, {}, {};
    for i := 0 to |selections|
      invariant Tracks(selections[..i], paths, nestedParents, columns)
    {
      assert selections[..i + 1] == selections[..i] + [selections[i]];
      var free;
      free, paths, nestedParents, columns := CheckSelection(selections[i], paths, nestedParents, columns);
      if !free {
        if SelectionsValid(selections) {
          PrefixValid(selections, i + 1);
          ValidIsFree(selections[..i], selections[i]);
        }
        return false;
      }
      FreeIsValid(selections[..i], selections[i]);
      KeysNext(selections[..i], selections[i]);
      ParentsNext(selections[..i], selections[i]);
    }
    assert selections[..|selections|] == selections;
    return true;
  }

  method ValidateRecipe(r: Recipe, rule: IntegerRule) returns (valid: bool)
    ensures valid <==> ValidRecipe(r, rule)
  {
    if !EnvelopeValid(r) || !VariablesValid(r) {
      return false;
    }
    var roots := ValidateRoots(r);
    if !roots {
      return false;
    }
    var arguments := ValidateArguments(r, rule);
    if !arguments {
      return false;
    }
    valid := ValidateSelections(r.selections);
  }

  lemma ValidIsRenderable(r: Recipe, rule: IntegerRule)
    requires ValidRecipe(r, rule)
    ensures Renderable(r)
  {
    assert forall i :: 0 <= i < |r.selections| ==> SelectionShaped(r.selections[i]);
  }

  /** What the connector makes of a recipe: the document of a valid one, nothing of any other. */
  ghost function ConnectorDocument(r: Recipe): Option<string> {
    if ValidRecipe(r, AnyInteger) then
      ValidIsRenderable(r, AnyInteger);
      Some(Document(r))
    else None
  }
}

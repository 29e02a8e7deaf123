/** The text of GraphQL literals and of the document a recipe stands for. */
module GraphqlText {
  import opened GraphqlModel
  import Alphabet
  import Hexadecimal
  import opened Decimal

  // ----- Lexical classes

  predicate IsNameStart(c: char) {
    'A' <= c <= 'Z' || 'a' <= c <= 'z' || c == '_'
  }

  predicate IsNameChar(c: char) {
    IsNameStart(c) || IsDigit(c)
  }

  predicate AllNameChars(s: string) {
    forall i :: 0 <= i < |s| ==> IsNameChar(s[i])
  }

  predicate IsName(s: string) {
    && 1 <= |s| <= 255
    && !(|s| >= 2 && s[0] == '_' && s[1] == '_')
    && IsNameStart(s[0])
    && AllNameChars(s)
  }

  predicate IsColumnName(s: string) {
    && 1 <= |s| <= 63
    && 'a' <= s[0] <= 'z'
    && forall i :: 0 <= i < |s| ==> 'a' <= s[i] <= 'z' || IsDigit(s[i]) || s[i] == '_'
  }

  /** A name starts with a letter or the underscore and goes on with these and digits. */
  lemma NameCharactersIff(c: char)
    ensures IsNameStart(c) <==> c in Alphabet.LOWER || c in Alphabet.UPPER || c == '_'
    ensures IsNameChar(c) <==> IsNameStart(c) || c in Alphabet.DIGITS
  {
    Alphabet.LowerIff(c);
    Alphabet.UpperIff(c);
    Alphabet.DigitsIff(c);
  }

  /** An optional minus sign and a numeral without superfluous zeros; `-0` is one. */
  predicate IsCanonicalInteger(s: string) {
    Decimal.IsCanonical(if s != "" && s[0] == '-' then s[1..] else s)
  }

  // ----- Strings

  function HexPair(c: char): string
    requires c as int < 0x20
  {
    [Hexadecimal.LowerDigit(c as int / 16), Hexadecimal.LowerDigit(c as int % 16)]
  }

  function RenderedChar(c: char): string {
    match c
    case '\"' => "\\\""
    case '\\' => "\\\\"
    case '\U{8}' => "\\b"
    case '\U{c}' => "\\f"
    case '\n' => "\\n"
    case '\r' => "\\r"
    case '\t' => "\\t"
    case _ =>
      if c as int < 0x20 then "\\u00" + HexPair(c) else [c]
  }

  function RenderedChars(s: string): string {
    if s == "" then "" else RenderedChar(s[0]) + RenderedChars(s[1..])
  }

  /** Characters stand for themselves but for controls, the quotation mark and the backslash; those section 2.9.4 of the
      GraphQL specification gives a letter, but for the slash, take it, the others their code in four digits. */
  lemma EscapeLength(c: char)
    ensures RenderedChar(c) == [c] <==> c as int > 0x1f && c != '"' && c != '\\'
    ensures |RenderedChar(c)| == 2 <==> c in {'"', '\\', '\U{8}', '\U{c}', '\n', '\r', '\t'}
    ensures |RenderedChar(c)| in {1, 2, 6}
    ensures RenderedChar('\U{b}') == "\\u000b" && RenderedChar('\U{1f}') == "\\u001f"
  {
  }

  // ----- Literals

  function Rendered(l: Literal): string
    decreases l, 1
  {
    match l.kind
    case NullKind => "null"
    case BooleanKind => l.scalar
    case IntegerKind => l.scalar
    case EnumKind => l.scalar
    case StringKind => "\"" + RenderedChars(l.scalar) + "\""
    case ListKind => "[" + RenderedItems(l.items) + "]"
    case ObjectKind => "{" + RenderedFields(l.fields) + "}"
  }

  function RenderedItems(items: seq<Literal>): string
    decreases items, 1
  {
    if items == [] then "" else Rendered(items[0]) + MoreItems(items[1..])
  }

  /** The items after the first, each behind its separator. */
  function MoreItems(items: seq<Literal>): string
    decreases items, 0
  {
    if items == [] then "" else ", " + Rendered(items[0]) + MoreItems(items[1..])
  }

  function RenderedField(f: ObjectField): string
    decreases f
  {
    f.name + ": " + Rendered(f.value)
  }

  function RenderedFields(fields: seq<ObjectField>): string
    decreases fields, 1
  {
    if fields == [] then "" else RenderedField(fields[0]) + MoreFields(fields[1..])
  }

  function MoreFields(fields: seq<ObjectField>): string
    decreases fields, 0
  {
    if fields == [] then "" else ", " + RenderedField(fields[0]) + MoreFields(fields[1..])
  }

  /** What remains to be written when position `i` of a list is next. */
  function ItemsFrom(items: seq<Literal>, i: nat): string
    requires i <= |items|
  {
    if i == 0 then RenderedItems(items) else MoreItems(items[i..])
  }

  function FieldsFrom(fields: seq<ObjectField>, i: nat): string
    requires i <= |fields|
  {
    if i == 0 then RenderedFields(fields) else MoreFields(fields[i..])
  }

  function Separator(i: nat): string {
    if i == 0 then "" else ", "
  }

  lemma ItemsFromStep(items: seq<Literal>, i: nat)
    requires i < |items|
    ensures ItemsFrom(items, i) == Separator(i) + Rendered(items[i]) + ItemsFrom(items, i + 1)
  {
    assert items[i..][1..] == items[i + 1..];
    assert Separator(0) + Rendered(items[0]) == Rendered(items[0]);
  }

  lemma FieldsFromStep(fields: seq<ObjectField>, i: nat)
    requires i < |fields|
    ensures FieldsFrom(fields, i) == Separator(i) + RenderedField(fields[i]) + FieldsFrom(fields, i + 1)
  {
    assert fields[i..][1..] == fields[i + 1..];
    assert Separator(0) + RenderedField(fields[0]) == RenderedField(fields[0]);
  }

  lemma ItemsFromStart(items: seq<Literal>)
    ensures ItemsFrom(items, 0) == RenderedItems(items)
  {
  }

  lemma ItemsFromEnd(items: seq<Literal>)
    ensures ItemsFrom(items, |items|) == ""
  {
  }

  lemma FieldsFromStart(fields: seq<ObjectField>)
    ensures FieldsFrom(fields, 0) == RenderedFields(fields)
  {
  }

  lemma FieldsFromEnd(fields: seq<ObjectField>)
    ensures FieldsFrom(fields, |fields|) == ""
  {
  }

  // ----- Documents

  function Spaces(n: nat): string {
    seq(n, _ => ' ')
  }

  function Indent(depth: nat): string {
    Spaces(2 * depth)
  }

  predicate HasTwoVariables(r: Recipe) {
    |r.variables| == 2
  }

  function HeaderText(r: Recipe): string
    requires HasTwoVariables(r)
  {
    "query " + r.operationName + "($" + r.variables[0].name + ": Int!, $" + r.variables[1].name + ": String) {\n"
  }

  /** The path to the connection: every field but the last opens a block, the last opens its arguments. */
  function RootsText(path: seq<string>, depth: nat): string
    requires path != []
  {
    if |path| == 1 then Indent(depth) + path[0] + "(\n"
    else Indent(depth) + path[0] + " {\n" + RootsText(path[1..], depth + 1)
  }

  function VariableText(v: Variable, depth: nat): string {
    Indent(depth + 1) + v.argumentName + ": $" + v.name + "\n"
  }

  function ArgumentText(a: FixedArgument, depth: nat): string {
    Indent(depth + 1) + a.name + ": " + Rendered(a.value) + "\n"
  }

  function ArgumentsText(arguments: seq<FixedArgument>, depth: nat): string {
    if arguments == [] then "" else ArgumentText(arguments[0], depth) + ArgumentsText(arguments[1..], depth)
  }

  function NodesText(r: Recipe, depth: nat): string {
    Indent(depth) + ") {\n" + Indent(depth + 1) + r.nodesField + " {\n"
  }

  predicate PathsInShape(selections: seq<Selection>) {
    forall i :: 0 <= i < |selections| ==> 1 <= |selections[i].fieldPath| <= 2
  }

  function SelectionText(s: Selection, depth: nat): string
    requires 1 <= |s.fieldPath| <= 2
  {
    Indent(depth + 2) + s.fieldPath[0] + (if |s.fieldPath| == 2 then " { " + s.fieldPath[1] + " }" else "") + "\n"
  }

  function SelectionsText(selections: seq<Selection>, depth: nat): string
    requires PathsInShape(selections)
  {
    if selections == [] then "" else SelectionText(selections[0], depth) + SelectionsText(selections[1..], depth)
  }

  function NodesEndText(depth: nat): string {
    Indent(depth + 1) + "}\n"
  }

  function PageFieldsText(r: Recipe): string {
    " { " + r.hasNextPageField + " " + r.endCursorField + " }\n"
  }

  function PageInfoText(r: Recipe, depth: nat): string {
    NodesEndText(depth) + Indent(depth + 1) + r.pageInfoField + PageFieldsText(r)
  }

  function ClosersText(depth: nat): string {
    if depth == 0 then "}" else Indent(depth) + "}\n" + ClosersText(depth - 1)
  }

  /** A recipe in the shape every renderer relies on. */
  predicate Renderable(r: Recipe) {
    HasTwoVariables(r) && r.rootPath != [] && PathsInShape(r.selections)
  }

  function OpeningText(r: Recipe): string
    requires Renderable(r)
  {
    HeaderText(r) + RootsText(r.rootPath, 1)
  }

  function ArgumentBlockText(r: Recipe): string
    requires Renderable(r)
  {
    var depth := |r.rootPath|;
    VariableText(r.variables[0], depth) + VariableText(r.variables[1], depth) + ArgumentsText(r.fixedArguments, depth)
  }

  function NodesBlockText(r: Recipe): string
    requires Renderable(r)
  {
    NodesText(r, |r.rootPath|) + SelectionsText(r.selections, |r.rootPath|)
  }

  function EndText(r: Recipe): string {
    PageInfoText(r, |r.rootPath|) + ClosersText(|r.rootPath|)
  }

  function Document(r: Recipe): string
    requires Renderable(r)
  {
    OpeningText(r) + ArgumentBlockText(r) + NodesBlockText(r) + EndText(r)
  }
}

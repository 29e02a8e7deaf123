/** The planner's generator: it copies the recipe, validates the copy and renders it through a buffer that refuses to
    grow beyond a budget. */
module GraphqlPlanner {
  import opened Results
  import opened GraphqlModel
  import opened GraphqlText
  import opened GraphqlValidity
  import Hexadecimal

  class BoundedDocument {
    const maximum: nat
    var value: string

    /** The invariant that keeps `maximum - value.size()` from wrapping around. */
    ghost predicate Valid()
      reads this
    {
      |value| <= maximum
    }

    constructor (maximum: nat)
      ensures Valid() && value == "" && this.maximum == maximum
    {
      this.maximum := maximum;
      value := "";
    }

    /** Appends `part` if it fits, else changes nothing. */
    method Append(part: string) returns (outcome: Outcome)
      requires Valid()
      modifies this
      ensures Valid() && Emitted(this, part, outcome)
      ensures outcome.Fail? ==> value == old(value)
    {
      var room: nat := maximum - |value|;
      if |part| > room {
        return Fail;
      }
      value := value + part;
      return Pass;
    }

    method Push(c: char) returns (outcome: Outcome)
      requires Valid()
      modifies this
      ensures Valid() && Emitted(this, [c], outcome)
      ensures outcome.Fail? ==> value == old(value)
    {
      if |value| == maximum {
        return Fail;
      }
      value := value + [c];
      return Pass;
    }
  }

  /** `text` was appended, or there was no room for it. */
  twostate predicate Emitted(document: BoundedDocument, text: string, outcome: Outcome)
    reads document
  {
    && (outcome.Pass? <==> |old(document.value)| + |text| <= document.maximum)
    && (outcome.Pass? ==> document.value == old(document.value) + text)
  }

  // ----- Literals

  method RenderChar(c: char, document: BoundedDocument) returns (outcome: Outcome)
    requires document.Valid()
    modifies document
    ensures document.Valid() && Emitted(document, RenderedChar(c), outcome)
  {
    if c == '\"' || c == '\\' || c == '\U{8}' || c == '\U{c}' || c == '\n' || c == '\r' || c == '\t' {
      outcome := document.Append(RenderedChar(c));
    } else if c as int < 0x20 {
      :- document.Append("\\u00");
      :- document.Push(Hexadecimal.LowerDigit(c as int / 16));
      outcome := document.Push(Hexadecimal.LowerDigit(c as int % 16));
    } else {
      outcome := document.Push(c);
    }
  }

  method RenderString(value: string, document: BoundedDocument) returns (outcome: Outcome)
    requires document.Valid()
    modifies document
    ensures document.Valid() && Emitted(document, "\"" + RenderedChars(value) + "\"", outcome)
  {
    hide RenderedChar;
    :- document.Push('\"');
    ghost var text := old(document.value) + "\"" + RenderedChars(value);
    assert value[0..] == value;
    for i := 0 to |value|
      invariant document.Valid()
      invariant document.value + RenderedChars(value[i..]) == text
    {
      assert value[i..][1..] == value[i + 1..];
      assert document.value + RenderedChar(value[i]) + RenderedChars(value[i + 1..]) == text;
      :- RenderChar(value[i], document);
    }
    assert RenderedChars(value[|value|..]) == "";
    assert document.value == text;
    assert text + ['\"'] == old(document.value) + ("\"" + RenderedChars(value) + "\"");
    outcome := document.Push('\"');
  }

  method RenderLiteral(l: Literal, document: BoundedDocument) returns (outcome: Outcome)
    requires document.Valid()
    modifies document
    ensures document.Valid() && Emitted(document, Rendered(l), outcome)
    decreases l, 1
  {
    match l.kind {
      case NullKind => outcome := document.Append("null");
      case BooleanKind => outcome := document.Append(l.scalar);
      case IntegerKind => outcome := document.Append(l.scalar);
      case EnumKind => outcome := document.Append(l.scalar);
      case StringKind => outcome := RenderString(l.scalar, document);
      case ListKind => outcome := RenderList(l, document);
      case ObjectKind => outcome := RenderObject(l, document);
    }
  }

  method RenderList(l: Literal, document: BoundedDocument) returns (outcome: Outcome)
    requires document.Valid()
    modifies document
    ensures document.Valid() && Emitted(document, "[" + RenderedItems(l.items) + "]", outcome)
    decreases l, 0
  {
    hide Rendered, RenderedItems, MoreItems, ItemsFrom;
    ghost var text := old(document.value) + ("[" + RenderedItems(l.items));
    ItemsFromStart(l.items);
    :- document.Push('[');
    for i := 0 to |l.items|
      invariant document.Valid()
      invariant document.value + ItemsFrom(l.items, i) == text
    {
      ItemsFromStep(l.items, i);
      assert document.value + Separator(i) + Rendered(l.items[i]) + ItemsFrom(l.items, i + 1) == text;
      if i != 0 {
        :- document.Append(", ");
      }
      :- RenderLiteral(l.items[i], document);
    }
    ItemsFromEnd(l.items);
    assert document.value == text;
    assert text + [']'] == old(document.value) + ("[" + RenderedItems(l.items) + "]");
    outcome := document.Push(']');
  }

  method RenderObject(l: Literal, document: BoundedDocument) returns (outcome: Outcome)
    requires document.Valid()
    modifies document
    ensures document.Valid() && Emitted(document, "{" + RenderedFields(l.fields) + "}", outcome)
    decreases l, 0
  {
    hide Rendered, RenderedFields, MoreFields, FieldsFrom;
    ghost var text := old(document.value) + ("{" + RenderedFields(l.fields));
    FieldsFromStart(l.fields);
    :- document.Push('{');
    for i := 0 to |l.fields|
      invariant document.Valid()
      invariant document.value + FieldsFrom(l.fields, i) == text
    {
      FieldsFromStep(l.fields, i);
      assert document.value + Separator(i) + l.fields[i].name + ": " + Rendered(l.fields[i].value)
             + FieldsFrom(l.fields, i + 1) == text;
      if i != 0 {
        :- document.Append(", ");
      }
      :- document.Append(l.fields[i].name);
      :- document.Append(": ");
      :- RenderLiteral(l.fields[i].value, document);
    }
    FieldsFromEnd(l.fields);
    assert document.value == text;
    assert text + ['}'] == old(document.value) + ("{" + RenderedFields(l.fields) + "}");
    outcome := document.Push('}');
  }

  // ----- Documents

  method AppendIndent(document: BoundedDocument, depth: nat) returns (outcome: Outcome)
    requires document.Valid()
    modifies document
    ensures document.Valid() && Emitted(document, Indent(depth), outcome)
  {
    outcome := document.Append(Indent(depth));
  }

  method EmitOperation(name: string, variable: string, document: BoundedDocument) returns (outcome: Outcome)
    requires document.Valid()
    modifies document
    ensures document.Valid() && Emitted(document, "query " + name + "($" + variable, outcome)
  {
    outcome := Pass;
    :- document.Append("query ");
    :- document.Append(name);
    :- document.Append("($");
    outcome := document.Append(variable);
  }

  method EmitHeader(r: Recipe, document: BoundedDocument) returns (outcome: Outcome)
    requires document.Valid() && HasTwoVariables(r)
    modifies document
    ensures document.Valid() && Emitted(document, HeaderText(r), outcome)
  {
    outcome := Pass;
    :- EmitOperation(r.operationName, r.variables[0].name, document);
    :- document.Append(": Int!, $");
    :- document.Append(r.variables[1].name);
    outcome := document.Append(": String) {\n");
  }

  method EmitRoot(name: string, depth: nat, opening: string, document: BoundedDocument) returns (outcome: Outcome)
    requires document.Valid()
    modifies document
    ensures document.Valid() && Emitted(document, Indent(depth) + name + opening, outcome)
  {
    hide Indent;
    :- AppendIndent(document, depth);
    :- document.Append(name);
    outcome := document.Append(opening);
  }

  method EmitRoots(path: seq<string>, document: BoundedDocument) returns (outcome: Outcome)
    requires document.Valid() && path != []
    modifies document
    ensures document.Valid() && Emitted(document, RootsText(path, 1), outcome)
  {
    hide Indent;
    ghost var text := old(document.value) + RootsText(path, 1);
    assert path[0..] == path;
    for i := 0 to |path| - 1
      invariant document.Valid()
      invariant document.value + RootsText(path[i..], i + 1) == text
    {
      assert path[i..][1..] == path[i + 1..];
      assert document.value + (Indent(i + 1) + path[i] + " {\n") + RootsText(path[i + 1..], i + 2) == text;
      :- EmitRoot(path[i], i + 1, " {\n", document);
    }
    assert path[|path| - 1..] == [path[|path| - 1]];
    outcome := EmitRoot(path[|path| - 1], |path|, "(\n", document);
  }

  method EmitVariable(v: Variable, depth: nat, document: BoundedDocument) returns (outcome: Outcome)
    requires document.Valid()
    modifies document
    ensures document.Valid() && Emitted(document, VariableText(v, depth), outcome)
  {
    hide Indent;
    :- AppendIndent(document, depth + 1);
    :- document.Append(v.argumentName);
    :- document.Append(": $");
    :- document.Append(v.name);
    outcome := document.Push('\n');
  }

  method EmitArgument(a: FixedArgument, depth: nat, document: BoundedDocument) returns (outcome: Outcome)
    requires document.Valid()
    modifies document
    ensures document.Valid() && Emitted(document, ArgumentText(a, depth), outcome)
  {
    hide Rendered, Indent;
    :- AppendIndent(document, depth + 1);
    :- document.Append(a.name);
    :- document.Append(": ");
    :- RenderLiteral(a.value, document);
    outcome := document.Push('\n');
  }

  method EmitArguments(arguments: seq<FixedArgument>, depth: nat, document: BoundedDocument) returns (outcome: Outcome)
    requires document.Valid()
    modifies document
    ensures document.Valid() && Emitted(document, ArgumentsText(arguments, depth), outcome)
  {
    hide ArgumentText;
    ghost var text := old(document.value) + ArgumentsText(arguments, depth);
    assert arguments[0..] == arguments;
    for i := 0 to |arguments|
      invariant document.Valid()
      invariant document.value + ArgumentsText(arguments[i..], depth) == text
    {
      assert arguments[i..][1..] == arguments[i + 1..];
      assert document.value + ArgumentText(arguments[i], depth) + ArgumentsText(arguments[i + 1..], depth) == text;
      :- EmitArgument(arguments[i], depth, document);
    }
    outcome := Pass;
  }

  method EmitNodes(r: Recipe, depth: nat, document: BoundedDocument) returns (outcome: Outcome)
    requires document.Valid()
    modifies document
    ensures document.Valid() && Emitted(document, NodesText(r, depth), outcome)
  {
    hide Indent;
    :- AppendIndent(document, depth);
    :- document.Append(") {\n");
    :- AppendIndent(document, depth + 1);
    :- document.Append(r.nodesField);
    outcome := document.Append(" {\n");
  }

  method EmitSelection(s: Selection, depth: nat, document: BoundedDocument) returns (outcome: Outcome)
    requires document.Valid() && 1 <= |s.fieldPath| <= 2
    modifies document
    ensures document.Valid() && Emitted(document, SelectionText(s, depth), outcome)
  {
    hide Indent;
    :- AppendIndent(document, depth + 2);
    :- document.Append(s.fieldPath[0]);
    if |s.fieldPath| == 2 {
      :- document.Append(" { ");
      :- document.Append(s.fieldPath[1]);
      :- document.Append(" }");
    }
    outcome := document.Push('\n');
  }

  method EmitSelections(selections: seq<Selection>, depth: nat, document: BoundedDocument) returns (outcome: Outcome)
    requires document.Valid() && PathsInShape(selections)
    modifies document
    ensures document.Valid() && Emitted(document, SelectionsText(selections, depth), outcome)
  {
    hide SelectionText;
    ghost var text := old(document.value) + SelectionsText(selections, depth);
    assert selections[0..] == selections;
    for i := 0 to |selections|
      invariant document.Valid()
      invariant document.value + SelectionsText(selections[i..], depth) == text
    {
      assert selections[i..][1..] == selections[i + 1..];
      assert document.value + SelectionText(selections[i], depth) + SelectionsText(selections[i + 1..], depth) == text;
      :- EmitSelection(selections[i], depth, document);
    }
    outcome := Pass;
  }

  method EmitPageFields(r: Recipe, document: BoundedDocument) returns (outcome: Outcome)
    requires document.Valid()
    modifies document
    ensures document.Valid() && Emitted(document, PageFieldsText(r), outcome)
  {
    outcome := Pass;
    :- document.Append(" { ");
    :- document.Append(r.hasNextPageField);
    :- document.Push(' ');
    :- document.Append(r.endCursorField);
    outcome := document.Append(" }\n");
  }

  method EmitPageInfo(r: Recipe, depth: nat, document: BoundedDocument) returns (outcome: Outcome)
    requires document.Valid()
    modifies document
    ensures document.Valid() && Emitted(document, PageInfoText(r, depth), outcome)
  {
    hide Indent, PageFieldsText;
    :- AppendIndent(document, depth + 1);
    :- document.Append("}\n");
    :- AppendIndent(document, depth + 1);
    :- document.Append(r.pageInfoField);
    outcome := EmitPageFields(r, document);
  }

  method EmitClosers(connectionDepth: nat, document: BoundedDocument) returns (outcome: Outcome)
    requires document.Valid()
    modifies document
    ensures document.Valid() && Emitted(document, ClosersText(connectionDepth), outcome)
  {
    hide Indent;
    ghost var text := old(document.value) + ClosersText(connectionDepth);
    var depth := connectionDepth;
    while depth > 0
      invariant document.Valid()
      invariant document.value + ClosersText(depth) == text
    {
      assert document.value + Indent(depth) + "}\n" + ClosersText(depth - 1) == text;
      :- AppendIndent(document, depth);
      :- document.Append("}\n");
      depth := depth - 1;
    }
    outcome := document.Push('}');
  }

  method EmitArgumentBlock(r: Recipe, document: BoundedDocument) returns (outcome: Outcome)
    requires document.Valid() && Renderable(r)
    modifies document
    ensures document.Valid() && Emitted(document, ArgumentBlockText(r), outcome)
  {
    hide VariableText, ArgumentsText;
    var depth := |r.rootPath|;
    :- EmitVariable(r.variables[0], depth, document);
    :- EmitVariable(r.variables[1], depth, document);
    outcome := EmitArguments(r.fixedArguments, depth, document);
  }

  method EmitNodesBlock(r: Recipe, document: BoundedDocument) returns (outcome: Outcome)
    requires document.Valid() && Renderable(r)
    modifies document
    ensures document.Valid() && Emitted(document, NodesBlockText(r), outcome)
  {
    hide NodesText, SelectionsText;
    :- EmitNodes(r, |r.rootPath|, document);
    outcome := EmitSelections(r.selections, |r.rootPath|, document);
  }

  method EmitDocument(r: Recipe, document: BoundedDocument) returns (outcome: Outcome)
    requires document.Valid() && Renderable(r)
    modifies document
    ensures document.Valid() && Emitted(document, Document(r), outcome)
  {
    hide HeaderText, RootsText, ArgumentBlockText, NodesBlockText, PageInfoText, ClosersText;
    :- EmitHeader(r, document);
    :- EmitRoots(r.rootPath, document);
    :- EmitArgumentBlock(r, document);
    :- EmitNodesBlock(r, document);
    :- EmitPageInfo(r, |r.rootPath|, document);
    outcome := EmitClosers(|r.rootPath|, document);
  }

  method RenderRecipe(r: Recipe, budget: nat) returns (out: Option<string>)
    requires Renderable(r)
    ensures out == if |Document(r)| <= budget then Some(Document(r)) else None
  {
    hide Document;
    var document := new BoundedDocument(budget);
    var outcome := EmitDocument(r, document);
    if outcome.Fail? {
      return None;
    }
    assert "" + Document(r) == Document(r);
    return Some(document.value);
  }

  // ----- Copying

  /** The deep copy validates as it goes and returns the literal it was given. */
  method CopyLiteral(source: Literal, depth: nat, nodes: nat) returns (out: Option<Literal>, counted: nat)
    ensures out == if ValidLiteral(source, depth, nodes, Signed64) then Some(source) else None
    ensures out.Some? ==> counted == nodes + Size(source)
    decreases source, 1
  {
    counted := nodes + 1;
    if depth > MAX_LITERAL_DEPTH || counted > MAX_LITERAL_NODES {
      return None, counted;
    }
    var sound := CheckScalar(source, Signed64);
    if !sound || (source.kind != ListKind && source.items != []) || (source.kind != ObjectKind && source.fields != [])
       || |source.items| > MAX_CHILDREN || |source.fields| > MAX_CHILDREN {
      return None, counted;
    }
    var items, fields;
    items, counted := CopyItems(source, depth, counted);
    if items.None? {
      return None, counted;
    }
    fields, counted := CopyFields(source, depth, counted);
    if fields.None? {
      return None, counted;
    }
    return Some(Literal(source.kind, source.scalar, items.value, fields.value)), counted;
  }

  method CopyItems(source: Literal, depth: nat, nodes: nat) returns (out: Option<seq<Literal>>, counted: nat)
    requires nodes <= MAX_LITERAL_NODES
    ensures out.Some? <==>
              && (forall i :: 0 <= i < |source.items| ==>
                  SoundLiteral(source.items[i], Signed64) && DepthFits(source.items[i], depth + 1))
              && nodes + SizeOfItems(source.items) <= MAX_LITERAL_NODES
    ensures out.Some? ==> out.value == source.items && counted == nodes + SizeOfItems(source.items)
    decreases source, 0
  {
    hide SoundLiteral, DepthFits, Size;
    counted := nodes;
    var items := [];
    assert source.items[0..] == source.items;
    for i := 0 to |source.items|
      invariant counted <= MAX_LITERAL_NODES && items == source.items[..i]
      invariant counted + SizeOfItems(source.items[i..]) == nodes + SizeOfItems(source.items)
      invariant forall k :: 0 <= k < i ==>
              SoundLiteral(source.items[k], Signed64) && DepthFits(source.items[k], depth + 1)
    {
      OneItemFits(source.items, i);
      var item;
      item, counted := CopyLiteral(source.items[i], depth + 1, counted);
      if item.None? {
        return None, counted;
      }
      items := items + [item.value];
    }
    return Some(items), counted;
  }

  method CopyFields(source: Literal, depth: nat, nodes: nat) returns (out: Option<seq<ObjectField>>, counted: nat)
    requires nodes <= MAX_LITERAL_NODES
    ensures out.Some? <==>
              && (forall i :: 0 <= i < |source.fields| ==>
                  IsName(source.fields[i].name) && SoundLiteral(source.fields[i].value, Signed64))
              && (forall i :: 0 <= i < |source.fields| ==> DepthFits(source.fields[i].value, depth + 1))
              && (forall i, j :: 0 <= i < j < |source.fields| ==> source.fields[i].name != source.fields[j].name)
              && nodes + SizeOfFields(source.fields) <= MAX_LITERAL_NODES
    ensures out.Some? ==> out.value == source.fields && counted == nodes + SizeOfFields(source.fields)
    decreases source, 0
  {
    hide SoundLiteral, DepthFits, Size, IsName;
    counted := nodes;
    var fields := [];
    var names: set<string> := {};
    assert source.fields[0..] == source.fields;
    for i := 0 to |source.fields|
      invariant counted <= MAX_LITERAL_NODES && fields == source.fields[..i]
      invariant counted + SizeOfFields(source.fields[i..]) == nodes + SizeOfFields(source.fields)
      invariant forall k :: 0 <= k < i ==>
              IsName(source.fields[k].name) && SoundLiteral(source.fields[k].value, Signed64)
      invariant forall k :: 0 <= k < i ==> DepthFits(source.fields[k].value, depth + 1)
      invariant forall j, k :: 0 <= j < k < i ==> source.fields[j].name != source.fields[k].name
      invariant forall name :: name in names <==> exists k :: 0 <= k < i && source.fields[k].name == name
    {
      OneFieldFits(source.fields, i);
      var field := source.fields[i];
      if !IsName(field.name) || field.name in names {
        return None, counted;
      }
      names := names + {field.name};
      var value;
      value, counted := CopyLiteral(field.value, depth + 1, counted);
      if value.None? {
        return None, counted;
      }
      fields := fields + [ObjectField(field.name, value.value)];
    }
    return Some(fields), counted;
  }

  method CopyArguments(arguments: seq<FixedArgument>) returns (out: Option<seq<FixedArgument>>)
    ensures out.Some? <==>
              && (forall i :: 0 <= i < |arguments| ==>
                  SoundLiteral(arguments[i].value, Signed64) && DepthFits(arguments[i].value, 1))
              && SizeOfArguments(arguments) <= MAX_LITERAL_NODES
    ensures out.Some? ==> out.value == arguments
  {
    hide SoundLiteral, DepthFits, Size;
    var copies, nodes: nat := [], 0;
    assert arguments[0..] == arguments;
    for i := 0 to |arguments|
      invariant nodes <= MAX_LITERAL_NODES && copies == arguments[..i]
      invariant nodes + SizeOfArguments(arguments[i..]) == SizeOfArguments(arguments)
      invariant forall k :: 0 <= k < i ==>
              SoundLiteral(arguments[k].value, Signed64) && DepthFits(arguments[k].value, 1)
    {
      assert arguments[i..][1..] == arguments[i + 1..];
      var literal;
      literal, nodes := CopyLiteral(arguments[i].value, 1, nodes);
      if literal.None? {
        return None;
      }
      copies := copies + [FixedArgument(arguments[i].name, literal.value)];
    }
    return Some(copies);
  }

  // ----- Planning

  const MAX_BUDGET := 65536

  /** What the planner asks of a recipe before it copies anything. */
  predicate SourceEnvelopeValid(r: Recipe) {
    && IsName(r.operationName) && |r.variables| == 2
    && 1 <= |r.rootPath| <= 16 && |r.fixedArguments| <= 64 && 1 <= |r.selections| <= 256
    && IsName(r.nodesField) && IsName(r.pageInfoField) && IsName(r.hasNextPageField) && IsName(r.endCursorField)
    && (forall i :: 0 <= i < |r.variables| ==> IsName(r.variables[i].name) && IsName(r.variables[i].argumentName))
    && (forall i :: 0 <= i < |r.rootPath| ==> IsName(r.rootPath[i]))
    && (forall i :: 0 <= i < |r.fixedArguments| ==> IsName(r.fixedArguments[i].name))
    && forall i :: 0 <= i < |r.selections| ==> SelectionShaped(r.selections[i])
  }

  /** Every integer the recipe spells fits signed 64 bits. */
  predicate IntegersFit(l: Literal)
    decreases l
  {
    && (l.kind == IntegerKind ==> IntegerAccepted(l.scalar, Signed64))
    && (forall i :: 0 <= i < |l.items| ==> IntegersFit(l.items[i]))
    && forall i :: 0 <= i < |l.fields| ==> IntegersFit(l.fields[i].value)
  }

  predicate RecipeIntegersFit(r: Recipe) {
    forall i :: 0 <= i < |r.fixedArguments| ==> IntegersFit(r.fixedArguments[i].value)
  }

  lemma {:induction false} StrictLiteral(l: Literal)
    ensures SoundLiteral(l, Signed64) <==> SoundLiteral(l, AnyInteger) && IntegersFit(l)
  {
    forall i | 0 <= i < |l.items|
      ensures SoundLiteral(l.items[i], Signed64) <==> SoundLiteral(l.items[i], AnyInteger) && IntegersFit(l.items[i])
    {
      StrictLiteral(l.items[i]);
    }
    forall i | 0 <= i < |l.fields|
      ensures SoundLiteral(l.fields[i].value, Signed64)
              <==> SoundLiteral(l.fields[i].value, AnyInteger) && IntegersFit(l.fields[i].value)
    {
      StrictLiteral(l.fields[i].value);
    }
  }

  lemma StrictRecipe(r: Recipe)
    ensures ValidRecipe(r, Signed64) <==> ValidRecipe(r, AnyInteger) && RecipeIntegersFit(r)
  {
    forall i | 0 <= i < |r.fixedArguments|
      ensures var l := r.fixedArguments[i].value;
              SoundLiteral(l, Signed64) <==> SoundLiteral(l, AnyInteger) && IntegersFit(l)
    {
      StrictLiteral(r.fixedArguments[i].value);
    }
  }

  lemma StrictRecipeIsCopyable(r: Recipe)
    requires ValidRecipe(r, Signed64)
    ensures SourceEnvelopeValid(r)
  {
    assert IsName(r.nodesField);
  }

  /** What the planner needs of a recipe and a budget. */
  ghost predicate Plannable(source: Recipe, budget: nat) {
    && source.identity == PackageQueryGeneratorV1 && 1 <= budget <= MAX_BUDGET
    && RecipeIntegersFit(source)
    && ConnectorDocument(source).Some? && |ConnectorDocument(source).value| <= budget
  }

  /** The two generators agree. On a package recipe and a budget, the planner succeeds exactly when the connector
      accepts the recipe, its integers fit signed 64 bits and the connector's document fits the budget; and then it
      returns the recipe unchanged with the connector's document, byte for byte. */
  method Plan(source: Recipe, budget: nat) returns (out: Option<(Recipe, string)>)
    ensures out.Some? <==> Plannable(source, budget)
    ensures out.Some? ==> out.value == (source, ConnectorDocument(source).value)
  {
    if source.identity != PackageQueryGeneratorV1 || budget == 0 || budget > MAX_BUDGET {
      return None;
    }
    StrictRecipe(source);
    if !SourceEnvelopeValid(source) {
      if ValidRecipe(source, Signed64) {
        StrictRecipeIsCopyable(source);
      }
      return None;
    }
    var arguments := CopyArguments(source.fixedArguments);
    if arguments.None? {
      return None;
    }
    var planned := source.(fixedArguments := arguments.value);
    assert planned == source;
    var valid := ValidateRecipe(planned, Signed64);
    if !valid {
      return None;
    }
    ValidIsRenderable(source, Signed64);
    var document := RenderRecipe(planned, budget);
    if document.None? {
      return None;
    }
    return Some((planned, document.value));
  }
}

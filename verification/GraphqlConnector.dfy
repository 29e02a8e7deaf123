/** The connector's generator: it concatenates strings. */
module GraphqlConnector {
  import opened Results
  import opened GraphqlModel
  import opened GraphqlText
  import opened GraphqlValidity

  method RenderString(value: string) returns (result: string)
    ensures result == "\"" + RenderedChars(value) + "\""
  {
    hide RenderedChar;
    result := "\"";
    assert value[0..] == value;
    for i := 0 to |value|
      invariant result + RenderedChars(value[i..]) == "\"" + RenderedChars(value)
    {
      assert value[i..][1..] == value[i + 1..];
      result := result + RenderedChar(value[i]);
    }
    assert RenderedChars(value[|value|..]) == "";
    result := result + "\"";
  }

  method RenderLiteral(l: Literal) returns (result: string)
    ensures result == Rendered(l)
    decreases l, 1
  {
    match l.kind {
      case NullKind => result := "null";
      case BooleanKind => result := l.scalar;
      case IntegerKind => result := l.scalar;
      case EnumKind => result := l.scalar;
      case StringKind => result := RenderString(l.scalar);
      case ListKind => result := RenderList(l);
      case ObjectKind => result := RenderObject(l);
    }
  }

  method RenderList(l: Literal) returns (result: string)
    ensures result == "[" + RenderedItems(l.items) + "]"
    decreases l, 0
  {
    hide Rendered, RenderedItems, MoreItems;
    result := "[";
    ghost var text := "[" + RenderedItems(l.items);
    for i := 0 to |l.items|
      invariant result + ItemsFrom(l.items, i) == text
    {
      ItemsFromStep(l.items, i);
      var item := RenderLiteral(l.items[i]);
      ghost var before := result;
      result := result + ((if i == 0 then "" else ", ") + item);
      assert before + (Separator(i) + Rendered(l.items[i]) + ItemsFrom(l.items, i + 1))
          == result + ItemsFrom(l.items, i + 1);
    }
    ItemsFromEnd(l.items);
    result := result + "]";
  }

  method RenderObject(l: Literal) returns (result: string)
    ensures result == "{" + RenderedFields(l.fields) + "}"
    decreases l, 0
  {
    hide Rendered, RenderedFields, MoreFields;
    result := "{";
    ghost var text := "{" + RenderedFields(l.fields);
    for i := 0 to |l.fields|
      invariant result + FieldsFrom(l.fields, i) == text
    {
      FieldsFromStep(l.fields, i);
      var value := RenderLiteral(l.fields[i].value);
      ghost var before := result;
      result := result + ((if i == 0 then "" else ", ") + l.fields[i].name + ": " + value);
      assert before + (Separator(i) + RenderedField(l.fields[i]) + FieldsFrom(l.fields, i + 1))
          == result + FieldsFrom(l.fields, i + 1);
    }
    FieldsFromEnd(l.fields);
    result := result + "}";
  }

  method RenderRoots(path: seq<string>) returns (document: string)
    requires path != []
    ensures document == RootsText(path, 1)
  {
    hide Indent;
    document := "";
    assert path[0..] == path;
    for i := 0 to |path| - 1
      invariant document + RootsText(path[i..], i + 1) == RootsText(path, 1)
    {
      assert path[i..][1..] == path[i + 1..];
      var line := Indent(i + 1) + path[i] + " {\n";
      document := document + line;
    }
    assert path[|path| - 1..] == [path[|path| - 1]];
    document := document + (Indent(|path|) + path[|path| - 1] + "(\n");
  }

  method RenderArgument(argument: FixedArgument, depth: nat) returns (line: string)
    ensures line == ArgumentText(argument, depth)
  {
    hide Rendered, Indent;
    line := Indent(depth + 1) + argument.name + ": ";
    var literal := RenderLiteral(argument.value);
    line := line + literal + "\n";
  }

  method RenderArguments(arguments: seq<FixedArgument>, depth: nat) returns (document: string)
    ensures document == ArgumentsText(arguments, depth)
  {
    hide ArgumentText;
    document := "";
    assert arguments[0..] == arguments;
    for i := 0 to |arguments|
      invariant document + ArgumentsText(arguments[i..], depth) == ArgumentsText(arguments, depth)
    {
      assert arguments[i..][1..] == arguments[i + 1..];
      var line := RenderArgument(arguments[i], depth);
      document := document + line;
    }
  }

  method RenderSelection(selection: Selection, depth: nat) returns (line: string)
    requires 1 <= |selection.fieldPath| <= 2
    ensures line == SelectionText(selection, depth)
  {
    hide Indent;
    line := Indent(depth + 2) + selection.fieldPath[0];
    if |selection.fieldPath| == 2 {
      line := line + (" { " + selection.fieldPath[1] + " }");
    }
    line := line + "\n";
  }

  method RenderSelections(selections: seq<Selection>, depth: nat) returns (document: string)
    requires PathsInShape(selections)
    ensures document == SelectionsText(selections, depth)
  {
    hide SelectionText;
    document := "";
    assert selections[0..] == selections;
    for i := 0 to |selections|
      invariant document + SelectionsText(selections[i..], depth) == SelectionsText(selections, depth)
    {
      assert selections[i..][1..] == selections[i + 1..];
      var line := RenderSelection(selections[i], depth);
      document := document + line;
    }
  }

  method RenderClosers(connectionDepth: nat) returns (document: string)
    ensures document == ClosersText(connectionDepth)
  {
    document := "";
    var depth := connectionDepth;
    while depth > 0
      invariant document + ClosersText(depth) == ClosersText(connectionDepth)
    {
      document := document + Indent(depth) + "}\n";
      depth := depth - 1;
    }
    document := document + "}";
  }

  /** Validation and rendering together: the document of a valid recipe, nothing for any other. */
  method RenderCompiledGraphqlQueryRecipe(r: Recipe) returns (out: Option<string>)
    ensures out == ConnectorDocument(r)
  {
    var valid := ValidateRecipe(r, AnyInteger);
    if !valid {
      return None;
    }
    ValidIsRenderable(r, AnyInteger);
    hide HeaderText, VariableText, NodesText, PageInfoText, RootsText, ArgumentsText, SelectionsText, ClosersText;
    var depth := |r.rootPath|;
    var roots := RenderRoots(r.rootPath);
    var document := HeaderText(r) + roots;
    var arguments := RenderArguments(r.fixedArguments, depth);
    document := document + (VariableText(r.variables[0], depth) + VariableText(r.variables[1], depth) + arguments);
    var selections := RenderSelections(r.selections, depth);
    document := document + (NodesText(r, depth) + selections);
    var closers := RenderClosers(depth);
    document := document + (PageInfoText(r, depth) + closers);
    return Some(document);
  }
}

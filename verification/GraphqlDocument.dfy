/** A recursive-descent parser for query documents, section 2 of the GraphQL specification (September 2025), as far as
    one named query with variables, fields and arguments goes: aliases, directives, fragments, list types and default
    values are not read. And the proof that a rendered document is the query its recipe asks for. */
module GraphqlDocument {
  import opened Results
  import opened GraphqlModel
  import opened GraphqlText
  import opened GraphqlValidity
  import opened GraphqlParser

  datatype ArgumentValue = VariableUse(variable: string) | Constant(literal: Literal)
  datatype Argument = Argument(name: string, value: ArgumentValue)
  datatype Field = Field(name: string, arguments: seq<Argument>, selections: seq<Field>)
  datatype VariableDefinition = VariableDefinition(name: string, typeName: string, nonNull: bool)
  datatype Query = Query(name: string, variables: seq<VariableDefinition>, selections: seq<Field>)

  // ----- The parser

  function Token(s: string, c: char): (rest: Option<string>)
    ensures rest.Some? ==> |rest.value| < |s|
  {
    var t := Skip(s);
    if t != "" && t[0] == c then Some(t[1..]) else None
  }

  function ParseName(s: string): (p: Option<Parsed<string>>)
    ensures p.Some? ==> |p.value.rest| < |s|
  {
    var t := Skip(s);
    if t == "" || !IsNameStart(t[0]) then None
    else var n := NameLength(t); Some(Parsed(t[..n], t[n..]))
  }

  function ParseVariable(s: string): (p: Option<Parsed<string>>)
    ensures p.Some? ==> |p.value.rest| < |s|
  {
    var dollar := Token(s, '$');
    if dollar.None? then None else ParseName(dollar.value)
  }

  function ParseDefinition(s: string): (p: Option<Parsed<VariableDefinition>>)
    ensures p.Some? ==> |p.value.rest| < |s|
  {
    var name := ParseVariable(s);
    if name.None? then None
    else
      var colon := Token(name.value.rest, ':');
      if colon.None? then None
      else
        var typeName := ParseName(colon.value);
        if typeName.None? then None
        else
          var bang := Token(typeName.value.rest, '!');
          Some(Parsed(VariableDefinition(name.value.value, typeName.value.value, bang.Some?),
                      if bang.Some? then bang.value else typeName.value.rest))
  }

  /** Definitions up to the closing parenthesis. */
  function ParseDefinitions(s: string): (p: Option<Parsed<seq<VariableDefinition>>>)
    ensures p.Some? ==> |p.value.rest| < |s|
    decreases |s|
  {
    if Token(s, ')').Some? then Some(Parsed([], Token(s, ')').value))
    else
      var first := ParseDefinition(s);
      if first.None? then None
      else
        var more := ParseDefinitions(first.value.rest);
        if more.None? then None else Some(Parsed([first.value.value] + more.value.value, more.value.rest))
  }

  function ParseArgument(s: string): (p: Option<Parsed<Argument>>)
    ensures p.Some? ==> |p.value.rest| < |s|
  {
    var name := ParseName(s);
    if name.None? || Token(name.value.rest, ':').None? then None
    else
      var t := Token(name.value.rest, ':').value;
      if Token(t, '$').Some? then
        var variable := ParseVariable(t);
        if variable.None? then None
        else Some(Parsed(Argument(name.value.value, VariableUse(variable.value.value)), variable.value.rest))
      else
        var constant := ParseValue(Skip(t));
        if constant.None? then None
        else Some(Parsed(Argument(name.value.value, Constant(constant.value.value)), constant.value.rest))
  }

  /** Arguments up to the closing parenthesis. */
  function ParseArguments(s: string): (p: Option<Parsed<seq<Argument>>>)
    ensures p.Some? ==> |p.value.rest| < |s|
    decreases |s|
  {
    if Token(s, ')').Some? then Some(Parsed([], Token(s, ')').value))
    else
      var first := ParseArgument(s);
      if first.None? then None
      else
        var more := ParseArguments(first.value.rest);
        if more.None? then None else Some(Parsed([first.value.value] + more.value.value, more.value.rest))
  }

  /** Arguments in parentheses, at least one, or none at all. */
  function ParseArgumentList(s: string): (p: Option<Parsed<seq<Argument>>>)
    ensures p.Some? ==> |p.value.rest| <= |s|
  {
    var open := Token(s, '(');
    if open.None? then Some(Parsed([], s))
    else
      var arguments := ParseArguments(open.value);
      if arguments.None? || arguments.value.value == [] then None else arguments
  }

  function ParseField(s: string): (p: Option<Parsed<Field>>)
    ensures p.Some? ==> |p.value.rest| < |s|
    decreases |s|, 0
  {
    var name := ParseName(s);
    if name.None? then None
    else
      var arguments := ParseArgumentList(name.value.rest);
      if arguments.None? then None
      else
        var open := Token(arguments.value.rest, '{');
        if open.None? then Some(Parsed(Field(name.value.value, arguments.value.value, []), arguments.value.rest))
        else
          var selections := ParseSelections(open.value);
          if selections.None? || selections.value.value == [] then None
          else
            var field := Field(name.value.value, arguments.value.value, selections.value.value);
            Some(Parsed(field, selections.value.rest))
  }

  /** Fields up to the closing brace. */
  function ParseSelections(s: string): (p: Option<Parsed<seq<Field>>>)
    ensures p.Some? ==> |p.value.rest| < |s|
    decreases |s|, 1
  {
    if Token(s, '}').Some? then Some(Parsed([], Token(s, '}').value))
    else
      var first := ParseField(s);
      if first.None? then None
      else
        var more := ParseSelections(first.value.rest);
        if more.None? then None else Some(Parsed([first.value.value] + more.value.value, more.value.rest))
  }

  /** A document of one query: the keyword, a name, variable definitions and a selection set, and nothing after it. */
  function ParseDocument(s: string): Option<Query> {
    var keyword := ParseName(s);
    if keyword.None? || keyword.value.value != "query" then None
    else
      var name := ParseName(keyword.value.rest);
      if name.None? || Token(name.value.rest, '(').None? then None
      else
        var definitions := ParseDefinitions(Token(name.value.rest, '(').value);
        if definitions.None? || definitions.value.value == [] || Token(definitions.value.rest, '{').None? then None
        else
          var selections := ParseSelections(Token(definitions.value.rest, '{').value);
          if selections.None? || selections.value.value == [] || Skip(selections.value.rest) != "" then None
          else Some(Query(name.value.value, definitions.value.value, selections.value.value))
  }

  // ----- The query a recipe asks for

  function PathField(path: seq<string>): Field
    requires 1 <= |path| <= 2
  {
    Field(path[0], [], if |path| == 2 then [Field(path[1], [], [])] else [])
  }

  function NodeFields(selections: seq<Selection>): seq<Field>
    requires PathsInShape(selections)
  {
    if selections == [] then [] else [PathField(selections[0].fieldPath)] + NodeFields(selections[1..])
  }

  function ConstantArguments(arguments: seq<FixedArgument>): seq<Argument> {
    if arguments == [] then []
    else [Argument(arguments[0].name, Constant(arguments[0].value))] + ConstantArguments(arguments[1..])
  }

  /** The connection is called with the page size, the cursor and the fixed arguments, in this order. */
  function ConnectionArguments(r: Recipe): seq<Argument>
    requires HasTwoVariables(r)
  {
    [Argument(r.variables[0].argumentName, VariableUse(r.variables[0].name)),
     Argument(r.variables[1].argumentName, VariableUse(r.variables[1].name))]
    + ConstantArguments(r.fixedArguments)
  }

  /** The connection selects the nodes and the two facts about its page. */
  function ConnectionFields(r: Recipe): seq<Field>
    requires PathsInShape(r.selections)
  {
    [Field(r.nodesField, [], NodeFields(r.selections)),
     Field(r.pageInfoField, [], [Field(r.hasNextPageField, [], []), Field(r.endCursorField, [], [])])]
  }

  /** The fields of the path are nested, the last is the connection. */
  function RootField(r: Recipe, path: seq<string>): Field
    requires Renderable(r) && path != []
  {
    if |path| == 1 then Field(path[0], ConnectionArguments(r), ConnectionFields(r))
    else Field(path[0], [], [RootField(r, path[1..])])
  }

  /** A page size that must be given and a cursor that may be null. */
  function DefinitionsOf(page: string, cursor: string): seq<VariableDefinition> {
    [VariableDefinition(page, "Int", true), VariableDefinition(cursor, "String", false)]
  }

  function QueryOf(r: Recipe): Query
    requires Renderable(r)
  {
    Query(r.operationName,
          DefinitionsOf(r.variables[0].name, r.variables[1].name),
          [RootField(r, r.rootPath)])
  }

  // ----- Reading tokens, whatever ignored text precedes them

  /** A text that ends the name before it. */
  predicate EndsName(text: string) {
    text != "" && !IsNameChar(text[0])
  }

  lemma NameStands(name: string, rest: string)
    requires IsName(name)
    ensures Skip(name + rest) == name + rest
  {
    assert (name + rest)[0] == name[0];
  }

  lemma {:induction false} SkipSpaces(n: nat, s: string)
    ensures Skip(Spaces(n) + s) == Skip(s)
  {
    if n == 0 {
      assert Spaces(n) + s == s;
    } else {
      assert (Spaces(n) + s)[1..] == Spaces(n - 1) + s;
      SkipSpaces(n - 1, s);
    }
  }

  lemma SkipIndent(depth: nat, s: string)
    ensures Skip(Indent(depth) + s) == Skip(s)
  {
    SkipSpaces(2 * depth, s);
  }

  lemma SkipOne(c: char, s: string)
    requires IsIgnored(c)
    ensures Skip([c] + s) == Skip(s)
  {
    assert ([c] + s)[1..] == s;
  }

  lemma SkipPunctuation(c: char, s: string)
    requires !IsIgnored(c) && c != '#'
    ensures Skip([c] + s) == [c] + s
  {
  }

  lemma NameRead(s: string, name: string, rest: string)
    requires Skip(s) == name + rest && IsName(name) && EndsName(rest)
    ensures ParseName(s) == Some(Parsed(name, rest))
    ensures forall c :: !IsNameStart(c) ==> Token(s, c).None?
  {
    NameLengthOf(name, rest);
    var t := Skip(s);
    assert t[..|name|] == name && t[|name|..] == rest && t[0] == name[0];
  }

  lemma TokenRead(s: string, c: char, rest: string)
    requires Skip(s) == [c] + rest
    ensures Token(s, c) == Some(rest)
    ensures forall d :: d != c ==> Token(s, d).None?
  {
  }

  // ----- Fields and selection sets

  lemma LeafRead(s: string, name: string, rest: string)
    requires Skip(s) == name + rest && IsName(name) && EndsName(rest)
    requires Token(rest, '(').None? && Token(rest, '{').None?
    ensures ParseField(s) == Some(Parsed(Field(name, [], []), rest))
  {
    hide Skip, Token, NameLength, IsName;
    NameRead(s, name, rest);
  }

  lemma GroupRead(s: string, name: string, inner: string, body: string, fields: seq<Field>, rest: string)
    requires Skip(s) == name + inner && IsName(name) && EndsName(inner) && Skip(inner) == ['{'] + body
    requires ParseSelections(body) == Some(Parsed(fields, rest)) && fields != []
    ensures ParseField(s) == Some(Parsed(Field(name, [], fields), rest))
  {
    hide Skip, Token, NameLength, IsName, ParseName, ParseSelections;
    NameRead(s, name, inner);
    TokenRead(inner, '{', body);
  }

  lemma CallRead(s: string, name: string, inner: string, arguments: seq<Argument>, mid: string, body: string,
                 fields: seq<Field>, rest: string)
    requires Skip(s) == name + (['('] + inner) && IsName(name)
    requires ParseArguments(inner) == Some(Parsed(arguments, mid)) && arguments != []
    requires Skip(mid) == ['{'] + body
    requires ParseSelections(body) == Some(Parsed(fields, rest)) && fields != []
    ensures ParseField(s) == Some(Parsed(Field(name, arguments, fields), rest))
  {
    hide Skip, Token, NameLength, IsName, ParseName, ParseSelections, ParseArguments;
    NameRead(s, name, ['('] + inner);
    SkipPunctuation('(', inner);
    TokenRead(['('] + inner, '(', inner);
    TokenRead(mid, '{', body);
  }

  lemma MoreRead(s: string, first: Field, tail: string, more: seq<Field>, rest: string)
    requires Token(s, '}').None? && ParseField(s) == Some(Parsed(first, tail))
    requires ParseSelections(tail) == Some(Parsed(more, rest))
    ensures ParseSelections(s) == Some(Parsed([first] + more, rest))
  {
    hide Token, ParseField;
  }

  lemma EndRead(s: string, rest: string)
    requires Skip(s) == ['}'] + rest
    ensures ParseSelections(s) == Some(Parsed([], rest))
  {
    hide Skip;
    TokenRead(s, '}', rest);
  }

  // ----- The pieces of a document

  function Brace(depth: nat, rest: string): string {
    Indent(depth) + (['}'] + rest)
  }

  lemma BraceRead(depth: nat, rest: string)
    ensures Skip(Brace(depth, rest)) == ['}'] + rest
    ensures Skip(['\n'] + Brace(depth, rest)) == ['}'] + rest
  {
    SkipIndent(depth, ['}'] + rest);
    SkipOne('\n', Brace(depth, rest));
    SkipPunctuation('}', rest);
  }

  /** What follows the first field of a selection, up to the text `k` behind its line. */
  function AfterField(path: seq<string>, k: string): string
    requires 1 <= |path| <= 2
  {
    if |path| == 1 then ['\n'] + k else " { " + (path[1] + (" }\n" + k))
  }

  lemma SelectionShape(s: Selection, depth: nat, k: string)
    requires 1 <= |s.fieldPath| <= 2
    ensures SelectionText(s, depth) + k == Indent(depth + 2) + (s.fieldPath[0] + AfterField(s.fieldPath, k))
  {
    hide Indent;
    if |s.fieldPath| == 2 {
      assert " { " + s.fieldPath[1] + " }" + ("\n" + k) == AfterField(s.fieldPath, k);
    }
  }

  /** The next line of a selection set opens no parenthesis and no brace. */
  predicate NextLine(k: string) {
    Skip(k) != "" && Skip(k)[0] != '(' && Skip(k)[0] != '{'
  }

  lemma LineEnds(k: string)
    requires NextLine(k)
    ensures Skip(['\n'] + k) == Skip(k)
    ensures Token(['\n'] + k, '(').None? && Token(['\n'] + k, '{').None?
  {
    SkipOne('\n', k);
  }

  lemma LeafLineRead(s: string, name: string, k: string)
    requires IsName(name) && Skip(s) == name + (['\n'] + k) && NextLine(k)
    ensures ParseField(s) == Some(Parsed(Field(name, [], []), ['\n'] + k))
  {
    hide Skip, Token, ParseField, IsName, NextLine;
    LineEnds(k);
    LeafRead(s, name, ['\n'] + k);
  }

  /** A selection set of one field on one line: ` { name }`. */
  lemma InlineOneRead(name: string, rest: string)
    requires IsName(name)
    ensures var body := [' '] + (name + ([' '] + (['}'] + rest)));
            && Skip([' '] + (['{'] + body)) == ['{'] + body
            && ParseSelections(body) == Some(Parsed([Field(name, [], [])], rest))
  {
    hide Skip, Token, ParseField, IsName, ParseSelections;
    var close := [' '] + (['}'] + rest);
    var body := [' '] + (name + close);
    SkipOne(' ', ['{'] + body);
    SkipPunctuation('{', body);
    SkipOne(' ', name + close);
    NameStands(name, close);
    SkipOne(' ', ['}'] + rest);
    SkipPunctuation('}', rest);
    TokenRead(close, '}', rest);
    LeafRead(body, name, close);
    NameRead(body, name, close);
    EndRead(close, rest);
    MoreRead(body, Field(name, [], []), close, [], rest);
    assert [Field(name, [], [])] + [] == [Field(name, [], [])];
  }

  lemma NestedLineRead(s: string, name: string, inner: string, k: string)
    requires IsName(name) && IsName(inner) && Skip(s) == name + (" { " + (inner + (" }\n" + k)))
    ensures ParseField(s) == Some(Parsed(Field(name, [], [Field(inner, [], [])]), ['\n'] + k))
  {
    hide Skip, Token, ParseField, IsName, ParseSelections;
    var line := ['\n'] + k;
    InlineOneRead(inner, line);
    var body := [' '] + (inner + ([' '] + (['}'] + line)));
    assert " }\n" + k == [' '] + (['}'] + line);
    assert " { " + (inner + (" }\n" + k)) == [' '] + (['{'] + body);
    GroupRead(s, name, [' '] + (['{'] + body), body, [Field(inner, [], [])], line);
  }

  lemma SelectionRead(s: string, path: seq<string>, k: string)
    requires 1 <= |path| <= 2 && forall i :: 0 <= i < |path| ==> IsName(path[i])
    requires Skip(s) == path[0] + AfterField(path, k) && NextLine(k)
    ensures ParseField(s) == Some(Parsed(PathField(path), ['\n'] + k))
    ensures Token(s, '}').None?
  {
    hide Skip, Token, ParseField, IsName, NextLine;
    NameRead(s, path[0], AfterField(path, k));
    if |path| == 1 {
      LeafLineRead(s, path[0], k);
    } else {
      NestedLineRead(s, path[0], path[1], k);
    }
  }

  /** The lines of the node selection, and the brace that ends it. */
  function NodesTail(selections: seq<Selection>, depth: nat, rest: string): string
    requires PathsInShape(selections)
  {
    SelectionsText(selections, depth) + Brace(depth + 1, rest)
  }

  lemma NodesTailShape(selections: seq<Selection>, depth: nat, rest: string)
    requires PathsInShape(selections)
    ensures selections == [] ==> NodesTail(selections, depth, rest) == Brace(depth + 1, rest)
    ensures selections != [] ==>
              (var path, tail := selections[0].fieldPath, NodesTail(selections[1..], depth, rest);
               NodesTail(selections, depth, rest) == Indent(depth + 2) + (path[0] + AfterField(path, tail)))
  {
    hide Indent, Brace;
    if selections != [] {
      var tail := NodesTail(selections[1..], depth, rest);
      assert NodesTail(selections, depth, rest) == SelectionText(selections[0], depth) + tail;
      SelectionShape(selections[0], depth, tail);
    }
  }

  predicate NamedPaths(selections: seq<Selection>) {
    && PathsInShape(selections)
    && forall i :: 0 <= i < |selections| ==>
         forall j :: 0 <= j < |selections[i].fieldPath| ==> IsName(selections[i].fieldPath[j])
  }

  lemma NodesTailIsLine(selections: seq<Selection>, depth: nat, rest: string)
    requires NamedPaths(selections)
    ensures NextLine(NodesTail(selections, depth, rest))
  {
    hide Indent, Brace, AfterField;
    NodesTailShape(selections, depth, rest);
    if selections == [] {
      BraceRead(depth + 1, rest);
    } else {
      var path := selections[0].fieldPath;
      var after := AfterField(path, NodesTail(selections[1..], depth, rest));
      SkipIndent(depth + 2, path[0] + after);
      NameStands(path[0], after);
    }
  }

  lemma {:induction false} NodesRead(s: string, selections: seq<Selection>, depth: nat, rest: string)
    requires NamedPaths(selections) && Skip(s) == Skip(NodesTail(selections, depth, rest))
    ensures ParseSelections(s) == Some(Parsed(NodeFields(selections), rest))
    decreases |selections|
  {
    hide Skip, Token, ParseField, ParseSelections, IsName, Indent, Brace, AfterField, NextLine;
    NodesTailShape(selections, depth, rest);
    if selections == [] {
      BraceRead(depth + 1, rest);
      EndRead(s, rest);
    } else {
      var path := selections[0].fieldPath;
      var tail := NodesTail(selections[1..], depth, rest);
      SkipIndent(depth + 2, path[0] + AfterField(path, tail));
      NameStands(path[0], AfterField(path, tail));
      NodesTailIsLine(selections[1..], depth, rest);
      SelectionRead(s, path, tail);
      LineEnds(tail);
      NodesRead(['\n'] + tail, selections[1..], depth, rest);
      MoreRead(s, PathField(path), ['\n'] + tail, NodeFields(selections[1..]), rest);
    }
  }

  // ----- The page facts

  lemma TwoLeavesRead(a: string, b: string, rest: string)
    requires IsName(a) && IsName(b)
    ensures var body := [' '] + (a + ([' '] + (b + ([' '] + (['}'] + rest)))));
            && Skip([' '] + (['{'] + body)) == ['{'] + body
            && ParseSelections(body) == Some(Parsed([Field(a, [], []), Field(b, [], [])], rest))
  {
    hide Skip, Token, ParseField, IsName, ParseSelections;
    var second := [' '] + (b + ([' '] + (['}'] + rest)));
    var body := [' '] + (a + second);
    InlineOneRead(b, rest);
    SkipOne(' ', ['{'] + body);
    SkipPunctuation('{', body);
    SkipOne(' ', a + second);
    NameStands(a, second);
    SkipOne(' ', b + ([' '] + (['}'] + rest)));
    NameStands(b, [' '] + (['}'] + rest));
    NameRead(second, b, [' '] + (['}'] + rest));
    StartsName();
    NameRead(body, a, second);
    LeafRead(body, a, second);
    MoreRead(body, Field(a, [], []), second, [Field(b, [], [])], rest);
    assert [Field(a, [], [])] + [Field(b, [], [])] == [Field(a, [], []), Field(b, [], [])];
  }

  lemma StartsName()
    ensures !IsNameStart('(') && !IsNameStart('{') && !IsNameStart('}') && !IsNameStart(')')
  {
  }

  lemma PageShape(r: Recipe, depth: nat, k: string)
    ensures Indent(depth + 1) + r.pageInfoField + PageFieldsText(r) + k
         == Indent(depth + 1) + (r.pageInfoField + ([' '] + (['{'] + ([' '] + (r.hasNextPageField
            + ([' '] + (r.endCursorField + ([' '] + (['}'] + (['\n'] + k))))))))))
  {
    hide Indent;
    assert PageFieldsText(r) + k
        == [' '] + (['{'] + ([' '] + (r.hasNextPageField + ([' '] + (r.endCursorField
           + ([' '] + (['}'] + (['\n'] + k))))))));
  }

  // ----- The connection

  function PageTail(r: Recipe, depth: nat, k: string): string {
    Indent(depth + 1) + r.pageInfoField + PageFieldsText(r) + k
  }

  lemma PageRead(s: string, r: Recipe, depth: nat, k: string)
    requires EnvelopeValid(r) && Skip(s) == Skip(PageTail(r, depth, k))
    ensures ParseField(s) == Some(Parsed(ConnectionPage(r), ['\n'] + k))
    ensures Token(s, '}').None?
  {
    hide Skip, Token, ParseField, IsName, ParseSelections, Indent;
    var line := ['\n'] + k;
    var body := [' '] + (r.hasNextPageField + ([' '] + (r.endCursorField + ([' '] + (['}'] + line)))));
    var inner := [' '] + (['{'] + body);
    PageShape(r, depth, k);
    SkipIndent(depth + 1, r.pageInfoField + inner);
    NameStands(r.pageInfoField, inner);
    TwoLeavesRead(r.hasNextPageField, r.endCursorField, line);
    NameRead(s, r.pageInfoField, inner);
    StartsName();
    GroupRead(s, r.pageInfoField, inner, body, PageFields(r), line);
  }

  function PageFields(r: Recipe): seq<Field> {
    [Field(r.hasNextPageField, [], []), Field(r.endCursorField, [], [])]
  }

  function ConnectionPage(r: Recipe): Field {
    Field(r.pageInfoField, [], PageFields(r))
  }

  function ConnectionNodes(r: Recipe): Field
    requires PathsInShape(r.selections)
  {
    Field(r.nodesField, [], NodeFields(r.selections))
  }

  /** The body of the connection, from the line of its nodes to the brace that ends it. */
  function ConnectionTail(r: Recipe, depth: nat, rest: string): string
    requires PathsInShape(r.selections)
  {
    Indent(depth + 1) + (r.nodesField + ([' '] + (['{'] + (['\n']
      + NodesTail(r.selections, depth, ['\n'] + PageTail(r, depth, Brace(depth, rest)))))))
  }

  lemma ConnectionRead(s: string, r: Recipe, depth: nat, rest: string)
    requires EnvelopeValid(r) && NamedPaths(r.selections) && r.selections != []
    requires Skip(s) == Skip(ConnectionTail(r, depth, rest))
    ensures ParseSelections(s) == Some(Parsed(ConnectionFields(r), rest))
  {
    hide Skip, Token, ParseField, IsName, ParseSelections, Indent, Brace, NodesTail, PageTail, NodeFields,
         PageFieldsText;
    var page := PageTail(r, depth, Brace(depth, rest));
    var nodes := NodesTail(r.selections, depth, ['\n'] + page);
    var body := ['\n'] + nodes;
    var inner := [' '] + (['{'] + body);
    SkipIndent(depth + 1, r.nodesField + inner);
    NodesIsName();
    NameStands(r.nodesField, inner);
    SkipOne(' ', ['{'] + body);
    SkipPunctuation('{', body);
    SkipOne('\n', nodes);
    NodesRead(body, r.selections, depth, ['\n'] + page);
    NameRead(s, r.nodesField, inner);
    StartsName();
    NodesNotEmpty(r.selections);
    GroupRead(s, r.nodesField, inner, body, NodeFields(r.selections), ['\n'] + page);
    SkipOne('\n', page);
    PageRead(['\n'] + page, r, depth, Brace(depth, rest));
    BraceRead(depth, rest);
    EndRead(['\n'] + Brace(depth, rest), rest);
    MoreRead(['\n'] + page, ConnectionPage(r), ['\n'] + Brace(depth, rest), [], rest);
    MoreRead(s, ConnectionNodes(r), ['\n'] + page, [ConnectionPage(r)] + [], rest);
    assert [ConnectionNodes(r)] + ([ConnectionPage(r)] + []) == ConnectionFields(r);
  }

  lemma NodesIsName()
    ensures IsName("nodes")
  {
  }

  lemma NodesNotEmpty(selections: seq<Selection>)
    requires PathsInShape(selections) && selections != []
    ensures NodeFields(selections) != []
  {
  }

  // ----- Arguments

  lemma ArgumentUses(s: string, name: string, variable: string, rest: string)
    requires IsName(name) && IsName(variable) && EndsName(rest)
    requires Skip(s) == name + ([':'] + ([' '] + (['$'] + (variable + rest))))
    ensures ParseArgument(s) == Some(Parsed(Argument(name, VariableUse(variable)), rest))
  {
    hide Skip, Token, IsName, ParseName, ParseValue;
    var use := ['$'] + (variable + rest);
    NameRead(s, name, [':'] + ([' '] + use));
    SkipPunctuation(':', [' '] + use);
    TokenRead([':'] + ([' '] + use), ':', [' '] + use);
    SkipOne(' ', use);
    SkipPunctuation('$', variable + rest);
    TokenRead([' '] + use, '$', variable + rest);
    NameStands(variable, rest);
    NameRead(variable + rest, variable, rest);
  }

  lemma ArgumentHolds(s: string, name: string, value: Literal, rest: string)
    requires IsName(name) && SoundLiteral(value, AnyInteger) && Delimits(rest)
    requires Skip(s) == name + ([':'] + ([' '] + (Rendered(value) + rest)))
    ensures ParseArgument(s) == Some(Parsed(Argument(name, Constant(value)), rest))
  {
    hide Skip, IsName, ParseName, ParseValue, SoundLiteral, Rendered, Token;
    var t := Rendered(value) + rest;
    NameRead(s, name, [':'] + ([' '] + t));
    SkipPunctuation(':', [' '] + t);
    TokenRead([':'] + ([' '] + t), ':', [' '] + t);
    LiteralHead(value, rest);
    SkipOne(' ', t);
    LiteralParses(value, rest);
    NoToken([' '] + t, '$');
  }

  lemma NoToken(s: string, c: char)
    requires Skip(s) != "" && Skip(s)[0] != c
    ensures Token(s, c).None?
  {
  }

  lemma LiteralHead(value: Literal, rest: string)
    requires SoundLiteral(value, AnyInteger)
    ensures Skip(Rendered(value) + rest) == Rendered(value) + rest
    ensures Rendered(value) + rest != "" && (Rendered(value) + rest)[0] != '$'
  {
    hide Skip;
    RenderedHead(value);
    NoDollar(value);
    SkipNothing(Rendered(value) + rest);
  }

  lemma NoDollar(value: Literal)
    requires SoundLiteral(value, AnyInteger)
    ensures Rendered(value) != "" && Rendered(value)[0] != '$'
  {
  }

  lemma MoreArguments(s: string, first: Argument, tail: string, more: seq<Argument>, rest: string)
    requires Token(s, ')').None? && ParseArgument(s) == Some(Parsed(first, tail))
    requires ParseArguments(tail) == Some(Parsed(more, rest))
    ensures ParseArguments(s) == Some(Parsed([first] + more, rest))
  {
    hide Token, ParseArgument;
  }

  /** The lines of the fixed arguments, and the parenthesis that ends them. */
  function ArgumentsTail(arguments: seq<FixedArgument>, depth: nat, rest: string): string {
    ArgumentsText(arguments, depth) + (Indent(depth) + ([')'] + rest))
  }

  lemma ArgumentShape(a: FixedArgument, depth: nat, k: string)
    ensures ArgumentText(a, depth) + k
         == Indent(depth + 1) + (a.name + ([':'] + ([' '] + (Rendered(a.value) + (['\n'] + k)))))
  {
    hide Indent, Rendered;
  }

  predicate SoundArguments(arguments: seq<FixedArgument>) {
    forall i :: 0 <= i < |arguments| ==> IsName(arguments[i].name)
  }

  lemma {:induction false} ArgumentsRead(s: string, arguments: seq<FixedArgument>, depth: nat, rest: string)
    requires SoundArguments(arguments)
    requires forall i :: 0 <= i < |arguments| ==> SoundLiteral(arguments[i].value, AnyInteger)
    requires Skip(s) == Skip(ArgumentsTail(arguments, depth, rest))
    ensures ParseArguments(s) == Some(Parsed(ConstantArguments(arguments), rest))
    decreases |arguments|
  {
    hide Skip, Token, IsName, Indent, SoundLiteral, Rendered, ParseArgument, ArgumentText, ParseArguments;
    if arguments == [] {
      assert ArgumentsTail(arguments, depth, rest) == Indent(depth) + ([')'] + rest);
      SkipIndent(depth, [')'] + rest);
      SkipPunctuation(')', rest);
      TokenRead(s, ')', rest);
      NoMoreArguments(s, rest);
    } else {
      var a := arguments[0];
      var tail := ArgumentsTail(arguments[1..], depth, rest);
      assert ArgumentsTail(arguments, depth, rest) == ArgumentText(a, depth) + tail;
      ArgumentShape(a, depth, tail);
      var line := ['\n'] + tail;
      var after := [':'] + ([' '] + (Rendered(a.value) + line));
      SkipIndent(depth + 1, a.name + after);
      NameStands(a.name, after);
      ArgumentHolds(s, a.name, a.value, line);
      NameRead(s, a.name, after);
      StartsName();
      SkipOne('\n', tail);
      ArgumentsRead(line, arguments[1..], depth, rest);
      MoreArguments(s, Argument(a.name, Constant(a.value)), line, ConstantArguments(arguments[1..]), rest);
    }
  }

  lemma NoMoreArguments(s: string, rest: string)
    requires Token(s, ')') == Some(rest)
    ensures ParseArguments(s) == Some(Parsed([], rest))
  {
  }

  /** The whole argument block of the connection, up to the parenthesis that ends it. */
  function BlockTail(r: Recipe, depth: nat, rest: string): string
    requires HasTwoVariables(r)
  {
    VariableText(r.variables[0], depth)
    + (VariableText(r.variables[1], depth) + ArgumentsTail(r.fixedArguments, depth, rest))
  }

  lemma VariableShape(v: Variable, depth: nat, k: string)
    ensures VariableText(v, depth) + k
         == Indent(depth + 1) + (v.argumentName + ([':'] + ([' '] + (['$'] + (v.name + (['\n'] + k))))))
  {
    hide Indent;
  }

  lemma VariableRead(s: string, v: Variable, depth: nat, k: string, more: seq<Argument>, rest: string)
    requires IsName(v.name) && IsName(v.argumentName) && Skip(s) == Skip(VariableText(v, depth) + k)
    requires ParseArguments(['\n'] + k) == Some(Parsed(more, rest))
    ensures ParseArguments(s) == Some(Parsed([Argument(v.argumentName, VariableUse(v.name))] + more, rest))
  {
    hide Skip, Token, IsName, Indent, ParseArgument, ParseArguments, VariableText;
    VariableShape(v, depth, k);
    var line := ['\n'] + k;
    var after := [':'] + ([' '] + (['$'] + (v.name + line)));
    SkipIndent(depth + 1, v.argumentName + after);
    NameStands(v.argumentName, after);
    ArgumentUses(s, v.argumentName, v.name, line);
    NameRead(s, v.argumentName, after);
    StartsName();
    MoreArguments(s, Argument(v.argumentName, VariableUse(v.name)), line, more, rest);
  }

  lemma BlockRead(s: string, r: Recipe, depth: nat, rest: string)
    requires VariablesValid(r) && ArgumentsValid(r, AnyInteger)
    requires Skip(s) == Skip(BlockTail(r, depth, rest))
    ensures ParseArguments(s) == Some(Parsed(ConnectionArguments(r), rest))
  {
    hide Skip, Token, IsName, Indent, ParseArguments, VariableText, ArgumentsTail, SoundLiteral, DepthFits;
    var fixed := ArgumentsTail(r.fixedArguments, depth, rest);
    var second := VariableText(r.variables[1], depth) + fixed;
    SkipOne('\n', fixed);
    ArgumentsRead(['\n'] + fixed, r.fixedArguments, depth, rest);
    SkipOne('\n', second);
    var constants := ConstantArguments(r.fixedArguments);
    VariableRead(['\n'] + second, r.variables[1], depth, fixed, constants, rest);
    var cursor := Argument(r.variables[1].argumentName, VariableUse(r.variables[1].name));
    VariableRead(s, r.variables[0], depth, second, [cursor] + constants, rest);
    var page := Argument(r.variables[0].argumentName, VariableUse(r.variables[0].name));
    assert [page] + ([cursor] + constants) == ConnectionArguments(r);
  }

  // ----- The root path

  /** Everything behind the line that opens the connection, to the end of the document. */
  function CallTail(r: Recipe, depth: nat, rest: string): string
    requires Renderable(r)
  {
    BlockTail(r, depth, [' '] + (['{'] + (['\n'] + ConnectionTail(r, depth, rest))))
  }

  lemma CallReads(s: string, r: Recipe, name: string, depth: nat, rest: string)
    requires ValidRecipe(r, AnyInteger) && Renderable(r) && NamedPaths(r.selections) && IsName(name)
    requires Skip(s) == name + (['('] + (['\n'] + CallTail(r, depth, rest)))
    ensures ParseField(s) == Some(Parsed(Field(name, ConnectionArguments(r), ConnectionFields(r)), rest))
  {
    hide Skip, Token, IsName, ParseField, ParseSelections, ParseArguments, BlockTail, ConnectionTail, RootsValid,
         SelectionsValid, ArgumentsValid, VariablesValid, EnvelopeValid;
    EnvelopeFacts(r);
    var body := ['\n'] + ConnectionTail(r, depth, rest);
    var mid := [' '] + (['{'] + body);
    var inner := ['\n'] + BlockTail(r, depth, mid);
    SkipOne('\n', BlockTail(r, depth, mid));
    BlockRead(inner, r, depth, mid);
    SkipOne(' ', ['{'] + body);
    SkipPunctuation('{', body);
    SkipOne('\n', ConnectionTail(r, depth, rest));
    ConnectionRead(body, r, depth, rest);
    CallRead(s, name, inner, ConnectionArguments(r), mid, body, ConnectionFields(r), rest);
  }

  lemma EnvelopeFacts(r: Recipe)
    requires EnvelopeValid(r)
    ensures r.selections != []
  {
  }

  /** The document from a position of the root path on. */
  function PathTail(r: Recipe, path: seq<string>, depth: nat): string
    requires Renderable(r) && path != [] && depth >= 1
  {
    RootsText(path, depth) + CallTail(r, depth + |path| - 1, ClosersFrom(depth + |path| - 1))
  }

  /** The rest of the line of a closing brace at `depth`, and the braces of the blocks around it. */
  function ClosersFrom(depth: nat): string
    requires depth >= 1
  {
    ['\n'] + ClosersText(depth - 1)
  }

  lemma ClosersShape(depth: nat)
    requires depth >= 1
    ensures ClosersText(depth) == Brace(depth, ClosersFrom(depth))
  {
    hide Indent;
    BraceLine(Indent(depth), ClosersText(depth - 1));
  }

  lemma BraceLine(indent: string, rest: string)
    ensures indent + "}\n" + rest == indent + (['}'] + (['\n'] + rest))
  {
  }

  lemma PathShape(r: Recipe, path: seq<string>, depth: nat)
    requires Renderable(r) && path != [] && depth >= 1
    ensures PathTail(r, path, depth)
         == Indent(depth)
            + (path[0] + (if |path| == 1 then ['('] + (['\n'] + CallTail(r, depth, ClosersFrom(depth)))
                          else [' '] + (['{'] + (['\n'] + PathTail(r, path[1..], depth + 1)))))
  {
    hide Indent, CallTail, ClosersFrom;
    if |path| > 1 {
      var last := CallTail(r, depth + |path| - 1, ClosersFrom(depth + |path| - 1));
      assert RootsText(path, depth) + last
          == Indent(depth) + path[0] + " {\n" + (RootsText(path[1..], depth + 1) + last);
    }
  }

  lemma {:induction false} PathRead(s: string, r: Recipe, path: seq<string>, depth: nat)
    requires ValidRecipe(r, AnyInteger) && Renderable(r) && NamedPaths(r.selections)
    requires path != [] && depth >= 1 && forall i :: 0 <= i < |path| ==> IsName(path[i])
    requires Skip(s) == Skip(PathTail(r, path, depth))
    ensures ParseField(s) == Some(Parsed(RootField(r, path), ClosersFrom(depth)))
    ensures Token(s, '}').None?
    decreases |path|
  {
    hide Skip, Token, IsName, ParseField, ParseSelections, Indent, CallTail, ClosersFrom, ClosersText, PathTail, Brace,
         ValidRecipe, Renderable, NamedPaths, ConnectionArguments, ConnectionFields;
    PathShape(r, path, depth);
    StartsName();
    if |path| == 1 {
      var inner := ['('] + (['\n'] + CallTail(r, depth, ClosersFrom(depth)));
      SkipIndent(depth, path[0] + inner);
      NameStands(path[0], inner);
      NameRead(s, path[0], inner);
      CallReads(s, r, path[0], depth, ClosersFrom(depth));
    } else {
      var tail := PathTail(r, path[1..], depth + 1);
      var body := ['\n'] + tail;
      var inner := [' '] + (['{'] + body);
      SkipIndent(depth, path[0] + inner);
      NameStands(path[0], inner);
      NameRead(s, path[0], inner);
      SkipOne('\n', tail);
      PathRead(body, r, path[1..], depth + 1);
      CloseRead(depth);
      var field := RootField(r, path[1..]);
      MoreRead(body, field, ClosersFrom(depth + 1), [], ClosersFrom(depth));
      SkipOne(' ', ['{'] + body);
      SkipPunctuation('{', body);
      GroupRead(s, path[0], inner, body, [field] + [], ClosersFrom(depth));
      assert [field] + [] == [field];
    }
  }

  lemma CloseRead(depth: nat)
    requires depth >= 1
    ensures ParseSelections(ClosersFrom(depth + 1)) == Some(Parsed([], ClosersFrom(depth)))
  {
    hide Skip, ParseSelections, Brace;
    ClosersShape(depth);
    BraceRead(depth, ClosersFrom(depth));
    EndRead(ClosersFrom(depth + 1), ClosersFrom(depth));
  }

  // ----- The operation

  /** The header behind its opening parenthesis. */
  function DefinitionsTail(page: string, cursor: string, rest: string): string {
    ['$'] + (page + ([':'] + ([' '] + ("Int" + (['!'] + ([','] + ([' '] + (['$'] + (cursor + ([':'] + ([' '] + ("String"
    + ([')'] + rest)))))))))))))
  }

  lemma DefinitionRead(s: string, name: string, typeName: string, rest: string)
    requires IsName(name) && IsName(typeName) && EndsName(rest)
    requires Skip(s) == ['$'] + (name + ([':'] + ([' '] + (typeName + rest))))
    ensures Token(rest, '!').None? ==>
              ParseDefinition(s) == Some(Parsed(VariableDefinition(name, typeName, false), rest))
    ensures Token(rest, '!').Some? ==>
              ParseDefinition(s) == Some(Parsed(VariableDefinition(name, typeName, true), Token(rest, '!').value))
    ensures Token(s, ')').None?
  {
    hide Skip, Token, IsName, ParseName;
    var typed := typeName + rest;
    var colon := [':'] + ([' '] + typed);
    TokenRead(s, '$', name + colon);
    NameStands(name, colon);
    NameRead(name + colon, name, colon);
    SkipPunctuation(':', [' '] + typed);
    TokenRead(colon, ':', [' '] + typed);
    SkipOne(' ', typed);
    NameStands(typeName, rest);
    NameRead([' '] + typed, typeName, rest);
  }

  lemma MoreDefinitions(s: string, first: VariableDefinition, tail: string, more: seq<VariableDefinition>, rest: string)
    requires Token(s, ')').None? && ParseDefinition(s) == Some(Parsed(first, tail))
    requires ParseDefinitions(tail) == Some(Parsed(more, rest))
    ensures ParseDefinitions(s) == Some(Parsed([first] + more, rest))
  {
    hide Token, ParseDefinition;
  }

  lemma NoMoreDefinitions(s: string, rest: string)
    requires Token(s, ')') == Some(rest)
    ensures ParseDefinitions(s) == Some(Parsed([], rest))
  {
  }

  lemma TypeNames()
    ensures IsName("Int") && IsName("String") && IsName("query")
  {
  }

  lemma DefinitionsRead(page: string, cursor: string, rest: string)
    requires IsName(page) && IsName(cursor)
    ensures ParseDefinitions(DefinitionsTail(page, cursor, rest)) == Some(Parsed(DefinitionsOf(page, cursor), rest))
  {
    hide Skip, Token, IsName, ParseDefinition, ParseDefinitions;
    TypeNames();
    var close := [')'] + rest;
    var second := ['$'] + (cursor + ([':'] + ([' '] + ("String" + close))));
    var gap := [','] + ([' '] + second);
    SkipPunctuation(')', rest);
    TokenRead(close, ')', rest);
    NoMoreDefinitions(close, rest);
    SkipOne(',', [' '] + second);
    SkipOne(' ', second);
    SkipPunctuation('$', cursor + ([':'] + ([' '] + ("String" + close))));
    DefinitionRead(gap, cursor, "String", close);
    MoreDefinitions(gap, VariableDefinition(cursor, "String", false), close, [], rest);
    SkipPunctuation('!', gap);
    TokenRead(['!'] + gap, '!', gap);
    var s := DefinitionsTail(page, cursor, rest);
    SkipPunctuation('$', page + ([':'] + ([' '] + ("Int" + (['!'] + gap)))));
    DefinitionRead(s, page, "Int", ['!'] + gap);
    var more := [VariableDefinition(cursor, "String", false)] + [];
    MoreDefinitions(s, VariableDefinition(page, "Int", true), gap, more, rest);
    assert [VariableDefinition(page, "Int", true)] + more == DefinitionsOf(page, cursor);
  }

  lemma DocumentShape(r: Recipe)
    requires Renderable(r)
    ensures Document(r)
         == "query" + ([' '] + (r.operationName + (['('] + DefinitionsTail(r.variables[0].name, r.variables[1].name,
            [' '] + (['{'] + (['\n'] + PathTail(r, r.rootPath, 1)))))))
  {
    var path := PathTail(r, r.rootPath, 1);
    HeaderShape(r, path);
    BodyShape(r);
  }

  lemma HeaderShape(r: Recipe, path: string)
    requires HasTwoVariables(r)
    ensures HeaderText(r) + path
         == "query" + ([' '] + (r.operationName + (['('] + DefinitionsTail(r.variables[0].name, r.variables[1].name,
            [' '] + (['{'] + (['\n'] + path))))))
  {
    var page, cursor, tail := r.variables[0].name, r.variables[1].name, [' '] + (['{'] + (['\n'] + path));
    CursorShape(cursor, path);
    PageParts(page, CursorText(cursor, tail));
    FrontParts(r.operationName, DefinitionsTail(page, cursor, tail));
    assert HeaderText(r) + path
        == "query " + (r.operationName + ("($" + (page + (": Int!, $" + (cursor + (": String) {\n" + path))))));
  }

  /** The definition of the cursor behind its dollar sign. */
  function CursorText(cursor: string, tail: string): string {
    cursor + ([':'] + ([' '] + ("String" + ([')'] + tail))))
  }

  lemma CursorShape(cursor: string, path: string)
    ensures cursor + (": String) {\n" + path) == CursorText(cursor, [' '] + (['{'] + (['\n'] + path)))
  {
    assert ": String) {\n" + path == [':'] + ([' '] + ("String" + ([')'] + ([' '] + (['{'] + (['\n'] + path))))));
  }

  lemma PageParts(page: string, rest: string)
    ensures page + (": Int!, $" + rest)
         == page + ([':'] + ([' '] + ("Int" + (['!'] + ([','] + ([' '] + (['$'] + rest)))))))
  {
    assert ": Int!, $" + rest == [':'] + ([' '] + ("Int" + (['!'] + ([','] + ([' '] + (['$'] + rest))))));
  }

  lemma FrontParts(name: string, definitions: string)
    requires definitions != "" && definitions[0] == '$'
    ensures "query " + (name + ("($" + definitions[1..])) == "query" + ([' '] + (name + (['('] + definitions)))
  {
    assert "($" + definitions[1..] == ['('] + definitions;
  }

  lemma EndShape(r: Recipe, depth: nat)
    requires Renderable(r) && depth >= 1
    ensures SelectionsText(r.selections, depth) + (PageInfoText(r, depth) + ClosersText(depth))
         == NodesTail(r.selections, depth, ['\n'] + PageTail(r, depth, Brace(depth, ClosersFrom(depth))))
  {
    hide Indent, PageFieldsText, ClosersText, ClosersFrom, SelectionsText;
    ClosersShape(depth);
    var page := PageTail(r, depth, ClosersText(depth));
    assert PageInfoText(r, depth) + ClosersText(depth) == NodesEndText(depth) + page;
    assert NodesEndText(depth) + page == Brace(depth + 1, ['\n'] + page);
  }

  lemma NodesShape(r: Recipe, depth: nat, nodes: string, block: string)
    requires Renderable(r)
    requires ConnectionTail(r, depth, block)
          == Indent(depth + 1) + (r.nodesField + ([' '] + (['{'] + (['\n'] + nodes))))
    ensures NodesText(r, depth) + nodes
         == Indent(depth) + ([')'] + ([' '] + (['{'] + (['\n'] + ConnectionTail(r, depth, block)))))
  {
    hide Indent, ConnectionTail;
  }

  lemma BlockShape(r: Recipe, depth: nat, rest: string)
    requires HasTwoVariables(r)
    ensures VariableText(r.variables[0], depth) + VariableText(r.variables[1], depth)
            + ArgumentsText(r.fixedArguments, depth) + (Indent(depth) + ([')'] + rest))
         == BlockTail(r, depth, rest)
  {
    hide Indent, VariableText, ArgumentsText;
  }

  lemma BodyShape(r: Recipe)
    requires Renderable(r)
    ensures Document(r) == HeaderText(r) + PathTail(r, r.rootPath, 1)
  {
    hide Indent, HeaderText, RootsText, VariableText, ArgumentsText, SelectionsText, NodesText, PageInfoText,
         ClosersText, ClosersFrom, ConnectionTail, NodesTail, BlockTail;
    var depth := |r.rootPath|;
    var rest := ClosersFrom(depth);
    var end := PageInfoText(r, depth) + ClosersText(depth);
    var nodes := NodesTail(r.selections, depth, ['\n'] + PageTail(r, depth, Brace(depth, rest)));
    var mid := [' '] + (['{'] + (['\n'] + ConnectionTail(r, depth, rest)));
    EndShape(r, depth);
    ConnectionShape(r, depth, rest);
    NodesShape(r, depth, nodes, rest);
    BlockShape(r, depth, mid);
    assert NodesBlockText(r) + EndText(r) == NodesText(r, depth) + (SelectionsText(r.selections, depth) + end);
    assert ArgumentBlockText(r) + (NodesBlockText(r) + EndText(r)) == CallTail(r, depth, rest);
    assert Document(r) == OpeningText(r) + (ArgumentBlockText(r) + (NodesBlockText(r) + EndText(r)));
    assert OpeningText(r) + CallTail(r, depth, rest)
        == HeaderText(r) + (RootsText(r.rootPath, 1) + CallTail(r, depth, rest));
  }

  lemma ConnectionShape(r: Recipe, depth: nat, rest: string)
    requires Renderable(r)
    ensures ConnectionTail(r, depth, rest)
         == Indent(depth + 1) + (r.nodesField + ([' '] + (['{'] + (['\n']
            + NodesTail(r.selections, depth, ['\n'] + PageTail(r, depth, Brace(depth, rest)))))))
  {
    hide Indent, NodesTail, PageTail, Brace;
  }

  lemma SelectionsNamed(r: Recipe)
    requires ValidRecipe(r, AnyInteger)
    ensures Renderable(r) && NamedPaths(r.selections) && IsName(r.operationName)
    ensures IsName(r.variables[0].name) && IsName(r.variables[1].name)
    ensures forall i :: 0 <= i < |r.rootPath| ==> IsName(r.rootPath[i])
  {
    hide IsName;
  }

  lemma QueryRead(name: string, page: string, cursor: string, path: string, field: Field, s: string)
    requires IsName(name) && IsName(page) && IsName(cursor)
    requires s == "query" + ([' '] + (name + (['('] + DefinitionsTail(page, cursor,
                  [' '] + (['{'] + (['\n'] + path))))))
    requires ParseField(['\n'] + path) == Some(Parsed(field, ClosersFrom(1))) && Token(['\n'] + path, '}').None?
    ensures ParseDocument(s) == Some(Query(name, DefinitionsOf(page, cursor), [field]))
  {
    hide Skip, Token, IsName, ParseName, ParseField, ParseSelections, ParseDefinitions, DefinitionsTail;
    var body := ['\n'] + path;
    var mid := [' '] + (['{'] + body);
    var definitions := DefinitionsTail(page, cursor, mid);
    TypeNames();
    NameStands("query", [' '] + (name + (['('] + definitions)));
    NameRead(s, "query", [' '] + (name + (['('] + definitions)));
    SkipOne(' ', name + (['('] + definitions));
    NameStands(name, ['('] + definitions);
    NameRead([' '] + (name + (['('] + definitions)), name, ['('] + definitions);
    SkipPunctuation('(', definitions);
    TokenRead(['('] + definitions, '(', definitions);
    DefinitionsRead(page, cursor, mid);
    SkipOne(' ', ['{'] + body);
    SkipPunctuation('{', body);
    TokenRead(mid, '{', body);
    LastBrace();
    MoreRead(body, field, ClosersFrom(1), [], "");
    assert [field] + [] == [field];
  }

  lemma LastBrace()
    ensures ParseSelections(ClosersFrom(1)) == Some(Parsed([], "")) && Skip("") == ""
  {
    assert ClosersFrom(1) == ['\n'] + ("}" + "");
    SkipOne('\n', "}");
    EndRead(ClosersFrom(1), "");
  }

  /** The document of a valid recipe is one query, the one the recipe asks for. */
  lemma DocumentIsItsQuery(r: Recipe)
    requires ValidRecipe(r, AnyInteger)
    ensures Renderable(r) && ParseDocument(Document(r)) == Some(QueryOf(r))
  {
    hide Skip, Token, IsName, ParseField, ParseDocument, ValidRecipe, NamedPaths, PathTail, Document, DefinitionsTail,
         ClosersFrom, RootField;
    SelectionsNamed(r);
    DocumentShape(r);
    var path := PathTail(r, r.rootPath, 1);
    SkipOne('\n', path);
    PathRead(['\n'] + path, r, r.rootPath, 1);
    QueryRead(r.operationName, r.variables[0].name, r.variables[1].name, path, RootField(r, r.rootPath), Document(r));
  }

  /** A name is one name token and nothing else, up to 255 characters, that the specification does not reserve. */
  lemma NameIff(s: string)
    ensures IsName(s) <==> ParseName(s) == Some(Parsed(s, "")) && |s| <= 255 && (|s| >= 2 ==> s[..2] != "__")
  {
    if |s| >= 2 {
      assert s[..2] == [s[0], s[1]];
    }
    NameTokenIff(s);
    if s != "" && IsNameStart(s[0]) {
      assert Skip(s) == s && s[..|s|] == s && s[|s|..] == "";
      var n := NameLength(s);
      assert ParseName(s) == Some(Parsed(s[..n], s[n..])) && |s[..n]| == n;
    }
    if ParseName(s) == Some(Parsed(s, "")) {
      WholeToken(s);
    }
  }

  lemma WholeToken(s: string)
    requires ParseName(s) == Some(Parsed(s, ""))
    ensures s != "" && IsNameStart(s[0])
  {
    var t := Skip(s);
    assert t == t[..NameLength(t)] + t[NameLength(t)..];
  }

  lemma {:induction false} NameTokenIff(s: string)
    ensures AllNameChars(s) <==> NameLength(s) == |s|
  {
    if s != "" {
      NameTokenIff(s[1..]);
      assert s == [s[0]] + s[1..];
    }
  }
}

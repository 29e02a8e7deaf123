/** A known answer for the renderers: the repository metrics query the connector writes out in full. */
module GraphqlKnownDocument {
  import opened GraphqlModel
  import opened GraphqlText

  function Enum(value: string): Literal {
    Literal(EnumKind, value, [], [])
  }

  function Ordering(): Literal {
    Literal(ObjectKind, "", [], [ObjectField("field", Enum("UPDATED_AT")), ObjectField("direction", Enum("DESC"))])
  }

  function Affiliations(): Literal {
    Literal(ListKind, "", [Enum("OWNER"), Enum("COLLABORATOR"), Enum("ORGANIZATION_MEMBER")], [])
  }

  const ARGUMENTS: seq<FixedArgument> :=
    [FixedArgument("affiliations", Affiliations()),
     FixedArgument("ownerAffiliations", Affiliations()),
     FixedArgument("orderBy", Ordering())]

  const SELECTIONS: seq<Selection> :=
    [Selection("id", ["id"]),
     Selection("full_name", ["nameWithOwner"]),
     Selection("owner_login", ["owner", "login"]),
     Selection("stars", ["stargazerCount"]),
     Selection("primary_language", ["primaryLanguage", "name"]),
     Selection("private", ["isPrivate"]),
     Selection("archived", ["isArchived"]),
     Selection("updated_at", ["updatedAt"])]

  const CANONICAL: Recipe :=
    Recipe(GithubViewerRepositoryMetricsV1, "DuckdbApiViewerRepositoryMetrics",
           [Variable("pageSize", IntNonNull, PageSizeRole, "first"),
            Variable("cursor", StringNullable, CursorRole, "after")],
           ["viewer", "repositories"], ARGUMENTS, "nodes", SELECTIONS, "pageInfo", "hasNextPage", "endCursor")

  function Column(field: string): string {
    "        " + field + "\n"
  }

  const HEAD: string :=
    "query DuckdbApiViewerRepositoryMetrics" + ("($pageSize: Int!" + (", $cursor: String" + ") {\n"))
  const ROOTS: string := "  viewer {\n" + "    repositories(\n"
  const USES: string := "      first: $pageSize\n" + "      after: $cursor\n"
  const OWNERS: string := "[" + ("OWNER" + (", " + "COLLABORATOR" + (", " + "ORGANIZATION_MEMBER" + ""))) + "]"
  const NEWEST: string := "{" + ("field: UPDATED_AT" + (", " + "direction: DESC" + "")) + "}"
  const FIXED: string :=
    ("      affiliations: " + OWNERS + "\n") + (
    ("      ownerAffiliations: " + OWNERS + "\n") + (
    ("      orderBy: " + NEWEST + "\n") + ""))
  const NODES: string := "    ) {\n" + "      nodes {\n"
  const COLUMNS: string :=
    Column("id") + (
    Column("nameWithOwner") + (
    Column("owner { login }") + (
    Column("stargazerCount") + (
    Column("primaryLanguage { name }") + (
    Column("isPrivate") + (
    Column("isArchived") + (
    Column("updatedAt") + "")))))))
  const PAGE: string := "      }\n" + "      pageInfo" + " { hasNextPage endCursor }\n"
  const CLOSERS: string := "    }\n" + ("  }\n" + "}")

  lemma Indents()
    ensures Indent(1) == "  " && Indent(2) == "    " && Indent(3) == "      " && Indent(4) == "        "
  {
  }

  lemma HeaderParts(r: Recipe)
    requires HasTwoVariables(r)
    ensures HeaderText(r) == ("query " + r.operationName) + (("($" + r.variables[0].name + ": Int!")
            + ((", $" + r.variables[1].name + ": String") + ") {\n"))
  {
    assert ": Int!, $" == ": Int!" + ", $" && ": String) {\n" == ": String" + ") {\n";
  }

  lemma HeaderWords()
    ensures "query " + "DuckdbApiViewerRepositoryMetrics" == "query DuckdbApiViewerRepositoryMetrics"
    ensures "($" + "pageSize" + ": Int!" == "($pageSize: Int!"
    ensures ", $" + "cursor" + ": String" == ", $cursor: String"
  {
  }

  lemma Header()
    ensures HeaderText(CANONICAL) == HEAD
  {
    hide HeaderText;
    HeaderParts(CANONICAL);
    HeaderWords();
  }

  lemma Roots()
    ensures RootsText(["viewer", "repositories"], 1) == ROOTS
  {
    hide Indent;
    Indents();
    assert ["viewer", "repositories"][1..] == ["repositories"];
    assert RootsText(["repositories"], 2) == "    repositories(\n";
    assert "  " + "viewer" + " {\n" == "  viewer {\n";
  }

  lemma Uses()
    ensures VariableText(CANONICAL.variables[0], 2) + VariableText(CANONICAL.variables[1], 2) == USES
  {
    hide Indent;
    Indents();
    assert "      " + "first" + ": $" + "pageSize" + "\n" == "      first: $pageSize\n";
    assert "      " + "after" + ": $" + "cursor" + "\n" == "      after: $cursor\n";
  }

  lemma ListOfThree(a: Literal, b: Literal, c: Literal)
    ensures Rendered(Literal(ListKind, "", [a, b, c], []))
         == "[" + (Rendered(a) + (", " + Rendered(b) + (", " + Rendered(c) + ""))) + "]"
  {
    var items := [a, b, c];
    assert items[1..] == [b, c] && [b, c][1..] == [c];
    assert MoreItems([c]) == ", " + Rendered(c) + "";
    assert MoreItems([b, c]) == ", " + Rendered(b) + MoreItems([c]);
  }

  lemma AffiliationsLiteral()
    ensures Rendered(Affiliations()) == OWNERS
  {
    hide Rendered;
    EnumText("OWNER");
    EnumText("COLLABORATOR");
    EnumText("ORGANIZATION_MEMBER");
    ListOfThree(Enum("OWNER"), Enum("COLLABORATOR"), Enum("ORGANIZATION_MEMBER"));
  }

  lemma EnumText(value: string)
    ensures Rendered(Enum(value)) == value
  {
  }

  lemma ObjectOfTwo(a: ObjectField, b: ObjectField)
    ensures Rendered(Literal(ObjectKind, "", [], [a, b]))
         == "{" + (RenderedField(a) + (", " + RenderedField(b) + "")) + "}"
  {
    var fields := [a, b];
    assert fields[1..] == [b];
    assert MoreFields([b]) == ", " + RenderedField(b) + "";
  }

  lemma OrderingLiteral()
    ensures Rendered(Ordering()) == NEWEST
  {
    hide Rendered;
    EnumText("UPDATED_AT");
    EnumText("DESC");
    assert "field" + ": " + "UPDATED_AT" == "field: UPDATED_AT";
    assert "direction" + ": " + "DESC" == "direction: DESC";
    ObjectOfTwo(ObjectField("field", Enum("UPDATED_AT")), ObjectField("direction", Enum("DESC")));
  }

  lemma ArgumentWords()
    ensures "      " + "affiliations" + ": " == "      affiliations: "
    ensures "      " + "ownerAffiliations" + ": " == "      ownerAffiliations: "
    ensures "      " + "orderBy" + ": " == "      orderBy: "
  {
  }

  lemma Fixed()
    ensures ArgumentsText(ARGUMENTS, 2) == FIXED
  {
    hide Indent, Rendered;
    Indents();
    AffiliationsLiteral();
    OrderingLiteral();
    ArgumentWords();
    assert ARGUMENTS[1..][1..] == ARGUMENTS[2..];
    assert ArgumentsText(ARGUMENTS[3..], 2) == "";
    assert ARGUMENTS[2..][1..] == ARGUMENTS[3..];
  }

  lemma Nodes()
    ensures NodesText(CANONICAL, 2) == NODES
  {
    hide Indent;
    Indents();
    assert "      " + "nodes" + " {\n" == "      nodes {\n";
    assert "    " + ") {\n" == "    ) {\n";
  }

  lemma Leaf(i: nat, field: string, rest: string)
    requires i < |SELECTIONS| && SELECTIONS[i].fieldPath == [field] && SelectionsText(SELECTIONS[i + 1..], 2) == rest
    ensures SelectionsText(SELECTIONS[i..], 2) == Column(field) + rest
  {
    hide Indent;
    Indents();
    assert SELECTIONS[i..][1..] == SELECTIONS[i + 1..];
    assert "        " + field + "" + "\n" == Column(field);
  }

  lemma Nested(i: nat, field: string, inner: string, rest: string)
    requires i < |SELECTIONS| && SELECTIONS[i].fieldPath == [field, inner]
    requires SelectionsText(SELECTIONS[i + 1..], 2) == rest
    ensures SelectionsText(SELECTIONS[i..], 2) == Column(field + " { " + inner + " }") + rest
  {
    hide Indent;
    Indents();
    assert SELECTIONS[i..][1..] == SELECTIONS[i + 1..];
    assert "        " + field + (" { " + inner + " }") + "\n" == Column(field + " { " + inner + " }");
  }

  lemma Groups()
    ensures "owner" + " { " + "login" + " }" == "owner { login }"
    ensures "primaryLanguage" + " { " + "name" + " }" == "primaryLanguage { name }"
  {
  }

  lemma Columns()
    ensures SelectionsText(SELECTIONS, 2) == COLUMNS
  {
    hide SelectionsText, Column;
    Groups();
    NoColumns();
    var seventh := Column("updatedAt") + "";
    var sixth := Column("isArchived") + seventh;
    var fifth := Column("isPrivate") + sixth;
    var fourth := Column("primaryLanguage { name }") + fifth;
    var third := Column("stargazerCount") + fourth;
    var second := Column("owner { login }") + third;
    Leaf(7, "updatedAt", "");
    Leaf(6, "isArchived", seventh);
    Leaf(5, "isPrivate", sixth);
    Nested(4, "primaryLanguage", "name", fifth);
    Leaf(3, "stargazerCount", fourth);
    Nested(2, "owner", "login", third);
    Leaf(1, "nameWithOwner", second);
    Leaf(0, "id", Column("nameWithOwner") + second);
    assert SELECTIONS[0..] == SELECTIONS;
  }

  lemma NoColumns()
    ensures SelectionsText(SELECTIONS[8..], 2) == ""
  {
  }

  lemma Page()
    ensures PageInfoText(CANONICAL, 2) == PAGE
  {
    hide Indent;
    Indents();
    assert "      " + "}\n" == "      }\n";
    PageLine();
  }

  lemma PageLine()
    ensures "      }\n" + "      " + "pageInfo" + (" { " + "hasNextPage" + " " + "endCursor" + " }\n") == PAGE
  {
    assert " { " + "hasNextPage" + " " + "endCursor" + " }\n" == " { hasNextPage endCursor }\n";
    assert "      }\n" + "      " + "pageInfo" == "      }\n" + "      pageInfo";
  }

  lemma Closers()
    ensures ClosersText(2) == CLOSERS
  {
    hide Indent;
    Indents();
    assert "    " + "}\n" == "    }\n";
    assert "  " + "}\n" == "  }\n";
  }

  /** The connector's repository metrics document, line by line. */
  lemma CanonicalDocument()
    ensures Renderable(CANONICAL)
    ensures Document(CANONICAL) == (HEAD + ROOTS) + (USES + FIXED) + (NODES + COLUMNS) + (PAGE + CLOSERS)
  {
    hide HeaderText, RootsText, VariableText, ArgumentsText, NodesText, SelectionsText, PageInfoText, ClosersText;
    Header();
    Roots();
    Uses();
    Fixed();
    Nodes();
    Columns();
    Page();
    Closers();
  }
}

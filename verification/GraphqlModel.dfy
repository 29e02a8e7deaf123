/** GraphQL query recipes and the literals they carry. Text is a string of bytes: each
    character stands for the byte with its code. */
module GraphqlModel {

  datatype LiteralKind = NullKind | BooleanKind | IntegerKind | StringKind | EnumKind | ListKind | ObjectKind

  /** A literal keeps a kind beside all three payloads; only validation makes them agree. */
  datatype Literal = Literal(kind: LiteralKind, scalar: string, items: seq<Literal>, fields: seq<ObjectField>)
  datatype ObjectField = ObjectField(name: string, value: Literal)

  datatype DocumentIdentity = GithubViewerRepositoryMetricsV1 | PackageQueryGeneratorV1
  datatype VariableType = IntNonNull | StringNullable
  datatype VariableRole = PageSizeRole | CursorRole
  datatype Variable = Variable(name: string, variableType: VariableType, role: VariableRole, argumentName: string)
  datatype FixedArgument = FixedArgument(name: string, value: Literal)
  datatype Selection = Selection(columnName: string, fieldPath: seq<string>)

  datatype Recipe = Recipe(
    identity: DocumentIdentity, operationName: string, variables: seq<Variable>, rootPath: seq<string>,
    fixedArguments: seq<FixedArgument>, nodesField: string, selections: seq<Selection>,
    pageInfoField: string, hasNextPageField: string, endCursorField: string)
}

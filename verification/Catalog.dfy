/** The immutable compiled catalog: columns, operations, selectors, predicate mappings,
    relations and package generations. Enumerations with a single value are left out. */
module Catalog {
  import opened Results
  import opened Scalars
  import GraphqlModel

  // ----- Columns and relation inputs

  datatype ColumnShape = ScalarShape | ArrayShape

  datatype Column = Column(
    name: string, shape: ColumnShape, elementType: ScalarType, elementNullable: bool,
    logicalType: string, nullable: bool, extractor: string, extractorSegments: seq<string>)

  datatype RelationInput = RelationInput(
    name: string, inputType: ScalarType, nullable: bool, default: Option<CompiledScalar>)

  // ----- Requests

  datatype UrlScheme = Http | Https
  datatype Origin = Origin(scheme: UrlScheme, host: string, port: nat)
  datatype Header = Header(name: string, value: string)
  datatype QuerySource = FixedValue | RelationInputValue | ConditionalInputValue | PageSizeValue | PageNumberValue

  datatype QueryParameter = QueryParameter(
    name: string, encodedValue: string, source: QuerySource, sourceId: string,
    omitWhenUnbound: bool, omitWhenNull: bool, decodedValue: Option<CompiledScalar>)

  datatype PaginationStrategy = Disabled | LinkHeader | ResponseNextUrl | ShortPage

  datatype Pagination = Pagination(
    strategy: PaginationStrategy, supportsTotal: bool, supportsResume: bool,
    pageSizeParameter: string, pageSize: nat, pageNumberParameter: string,
    firstPage: nat, pageIncrement: nat, maxPagesPerScan: nat, nextUrlPath: string)

  datatype ResponseSource = JsonPathMany | RootArray | RootObject

  datatype RestOperation = RestOperation(
    retryEnabled: bool, pagination: Pagination, origin: Origin, path: string,
    query: seq<QueryParameter>, headers: seq<Header>, responseSource: ResponseSource,
    recordsExtractor: string, recordsExtractorSegments: seq<string>)

  datatype ResultShape = ScalarResult | ArrayResult
  datatype GraphqlVariableSource = FixedPageSize | RuntimeCursor | CallerInput | LogicalSecret
  datatype GraphqlVariable = GraphqlVariable(
    name: string, variableType: GraphqlModel.VariableType, source: GraphqlVariableSource, integerValue: nat)
  datatype GraphqlScalarKind = StringKind | Int64Kind | BooleanKind
  datatype GraphqlResultColumn = GraphqlResultColumn(
    name: string, scalarKind: GraphqlScalarKind, nullable: bool, shape: ResultShape,
    elementNullable: bool, responsePath: seq<string>)
  datatype GraphqlResponse = GraphqlResponse(nodes: seq<string>, errors: seq<string>, pageInfo: seq<string>)
  datatype CursorDependency = SequentialCursor | IndependentCursor
  datatype CursorConsistency = MutableCursor | StableOrdering | StableSnapshot
  datatype GraphqlCursor = GraphqlCursor(
    dependency: CursorDependency, consistency: CursorConsistency, supportsTotal: bool, supportsResume: bool,
    maxConcurrentPages: nat, pageSizeVariable: string, pageSize: nat, cursorVariable: string,
    hasNextPage: seq<string>, endCursor: seq<string>, maxPagesPerScan: nat)

  datatype GraphqlOperation = GraphqlOperation(
    documentIdentity: GraphqlModel.DocumentIdentity, document: string, documentDigest: string,
    endpointOrigin: Origin, endpointPath: string, headers: seq<Header>,
    variables: seq<GraphqlVariable>, resultColumns: seq<GraphqlResultColumn>,
    response: GraphqlResponse, cursor: GraphqlCursor, maxDocumentBytes: nat,
    maxBodyBytesPerRequest: nat, maxBodyBytesPerScan: nat,
    retryEnabled: bool, cacheEnabled: bool, providersEnabled: bool,
    recipe: Option<GraphqlModel.Recipe>)

  datatype ProtocolOperation = Rest(rest: RestOperation) | Graphql(graphql: GraphqlOperation)

  // ----- Operations

  datatype RequiredInputKind = RelationInputReference | ConditionalInputReference
  datatype InputReference = InputReference(kind: RequiredInputKind, id: string)

  /** A v1 selector names its required inputs with their kind; the legacy bridge names
      required, alternative and forbidden conditional inputs and carries a priority. */
  datatype Selector =
    | SelectorV1(references: seq<InputReference>)
    | LegacySelector(
        required: seq<string>, alternatives: seq<seq<string>>, forbidden: seq<string>, priority: int)

  datatype Cardinality = ZeroToMany | ExactlyOneOnSuccess
  datatype ReplayClass = NonReplayable | ReplayableRead | ReplayableWithIdempotency | UnknownReplay
  datatype RetryRecommendation = RetryRecommendation(maxAttempts: nat, maxDelay: nat, maxWaiting: nat)
  datatype RateLimitMode = FailMode | WaitMode | WaitIfDeadlineAllows
  datatype RateLimitScope = CredentialAuthority | SharedScope
  datatype GuidanceFormat = RetryAfter | DeltaSeconds | UnixSeconds
  datatype RateLimitGuidance = RateLimitGuidance(headerName: string, format: GuidanceFormat)
  datatype RateLimitPolicy = RateLimitPolicy(
    declared: bool, mode: RateLimitMode, statuses: seq<nat>, operationFamily: string,
    scope: RateLimitScope, guidance: seq<RateLimitGuidance>, remainingQuotaHeader: string,
    remoteBucketHeader: string, maxAttempts: nat, maxDelay: nat, maxWaiting: nat)

  datatype Operation = Operation(
    name: string, fallback: bool, cardinality: Cardinality, protocol: ProtocolOperation,
    replayClass: ReplayClass, retry: RetryRecommendation, rateLimit: RateLimitPolicy,
    supportsRateLimit: bool, selector: Selector)

  // ----- Predicate mappings

  datatype LiteralForm = VarcharPrivate | PackageTypedLiteral
  datatype Accuracy = Exact | Superset
  datatype ProofIdentity = GithubRepositoryVisibility | ControlledExactVisibility | PackageDeclaredV1
  datatype BaseDomain = GithubRepositoryOccurrences | ControlledDuplicateOccurrences | PackageDeclaredOccurrences
  datatype OccurrenceLaw = PreservesAllMatching | PreservesExactMatching

  /** "`columnName` equals `typedLiteral`" is served by sending `encodedRemoteValue` for
      `remoteInputName` on the operation named `operationName`. */
  datatype PredicateMapping = PredicateMapping(
    name: string, columnName: string, literalForm: LiteralForm, typedLiteral: CompiledScalar,
    operationName: string, remoteInputName: string, encodedRemoteValue: string, accuracy: Accuracy,
    proofIdentity: ProofIdentity, proofIdentityValue: string,
    baseDomain: BaseDomain, baseDomainValue: string,
    matchingFixture: string, falseOrNullFixture: string, duplicatesFixture: string,
    occurrenceLaw: OccurrenceLaw)

  // ----- Relations, connectors and package generations

  datatype Authenticator = NoAuthenticator | Bearer | ApiKey
  datatype CredentialPlacement = NoPlacement | AuthorizationHeader | NamedHeader | NamedQuery
  datatype Authentication = Authentication(
    required: bool, logicalCredential: string, authenticator: Authenticator,
    placement: CredentialPlacement, placementName: string, destinations: seq<Origin>)

  datatype ByteCeilings = ByteCeilings(perPage: nat, perScan: nat)
  datatype ResourceCeilings = ResourceCeilings(
    responseBytes: Option<ByteCeilings>, recordsPerPage: nat, recordsPerScan: nat, extractedStringBytes: nat)

  datatype Relation = Relation(
    name: string, columns: seq<Column>, inputs: seq<RelationInput>, mappings: seq<PredicateMapping>,
    operations: seq<Operation>, authentication: Authentication, ceilings: ResourceCeilings)

  datatype NetworkPolicy = NetworkPolicy(
    allowedSchemes: seq<string>, allowedHosts: seq<string>, redirects: bool, privateAddresses: bool,
    linkLocalAddresses: bool, loopbackAddresses: bool, maxResponseBytes: nat, allowedOrigins: seq<Origin>)

  datatype ConnectorOrigin = NativeProductMetadata | PackageCompiledMetadata
  datatype Connector = Connector(
    origin: ConnectorOrigin, name: string, version: string, relations: seq<Relation>, network: NetworkPolicy)

  datatype PackageIdentity = PackageIdentity(
    specIdentifier: string, connectorId: string, packageVersion: string, packageDigest: string)
  datatype PackageGeneration = PackageGeneration(identity: PackageIdentity, connector: Connector)
}

/** The checks a relation passes before any plan can refer to it. */
module CatalogValidation {
  import opened Results
  import opened Scalars
  import opened Catalog
  import PredicateClassifier
  import Pushdown

  // ----- Mapping constructors

  predicate IsIdentifier(value: string) {
    && value != ""
    && 'a' <= value[0] <= 'z'
    && forall i :: 0 <= i < |value| ==> 'a' <= value[i] <= 'z' || '0' <= value[i] <= '9' || value[i] == '_'
  }

  predicate NamesAreIdentifiers(m: PredicateMapping) {
    && IsIdentifier(m.name) && IsIdentifier(m.columnName)
    && IsIdentifier(m.operationName) && IsIdentifier(m.remoteInputName)
  }

  /** What the package constructor guarantees of the mapping it builds. */
  predicate BuiltAsPackageMapping(m: PredicateMapping) {
    && NamesAreIdentifiers(m)
    && m.literalForm == PackageTypedLiteral && m.typedLiteral.Concrete?
    && m.proofIdentity == PackageDeclaredV1 && m.baseDomain == PackageDeclaredOccurrences
    && m.occurrenceLaw == PredicateClassifier.ExpectedLaw(m.accuracy)
    && m.proofIdentityValue != "" && m.baseDomainValue != ""
    && IsIdentifier(m.matchingFixture) && IsIdentifier(m.falseOrNullFixture) && IsIdentifier(m.duplicatesFixture)
  }

  function ProofIdentityName(p: ProofIdentity): string {
    match p
    case GithubRepositoryVisibility => "github_rest_2022_11_28_repository_visibility"
    case ControlledExactVisibility => "controlled_exact_duplicate_repository_visibility"
    case PackageDeclaredV1 => "package_declared_v1"
  }

  function BaseDomainName(d: BaseDomain): string {
    match d
    case GithubRepositoryOccurrences => "github_authenticated_repository_occurrences"
    case ControlledDuplicateOccurrences => "controlled_duplicate_repository_occurrences"
    case PackageDeclaredOccurrences => "package_declared_occurrence_domain"
  }

  /** What the native constructor guarantees: it chooses the literal and the identity names and leaves the fixtures
      empty. */
  predicate BuiltAsNativeMapping(m: PredicateMapping) {
    && NamesAreIdentifiers(m)
    && m.encodedRemoteValue != ""
    && m.typedLiteral == Concrete(VarcharScalar("private"))
    && m.proofIdentityValue == ProofIdentityName(m.proofIdentity) && m.baseDomainValue == BaseDomainName(m.baseDomain)
    && m.matchingFixture == "" && m.falseOrNullFixture == "" && m.duplicatesFixture == ""
  }

  predicate Built(m: PredicateMapping) {
    BuiltAsPackageMapping(m) || BuiltAsNativeMapping(m)
  }

  // ----- Mapping validation

  function FindColumn(columns: seq<Column>, name: string): Option<Column> {
    if columns == [] then None
    else if columns[0].name == name then Some(columns[0])
    else FindColumn(columns[1..], name)
  }

  function FindOperation(operations: seq<Operation>, name: string): Option<Operation> {
    if operations == [] then None
    else if operations[0].name == name then Some(operations[0])
    else FindOperation(operations[1..], name)
  }

  function FindConditionalBinding(query: seq<QueryParameter>, id: string): Option<QueryParameter> {
    if query == [] then None
    else if query[0].source == ConditionalInputValue && query[0].sourceId == id then Some(query[0])
    else FindConditionalBinding(query[1..], id)
  }

  predicate HasFixedQueryField(query: seq<QueryParameter>, name: string) {
    exists i :: 0 <= i < |query| && query[i].name == name && query[i].source == FixedValue
  }

  predicate IsPackageMapping(m: PredicateMapping) {
    m.proofIdentity == PackageDeclaredV1
  }

  /** The installed GitHub operation, down to its origin, query, headers, pagination and credential. */
  predicate InstalledGithubProfile(r: Relation, op: Operation, m: PredicateMapping) {
    var github := Origin(Https, "api.github.com", 443);
    && r.name == "authenticated_repositories" && op.name == "github_authenticated_repositories"
    && op.fallback && op.cardinality == ZeroToMany && op.protocol.Rest?
    && var rest := op.protocol.rest;
       && !rest.retryEnabled && rest.origin == github && rest.path == "/user/repos"
       && |rest.query| == 2
       && rest.query[0].name == "per_page" && rest.query[0].encodedValue == "100"
       && rest.query[1].name == "page" && rest.query[1].encodedValue == "1"
       && rest.headers == [Header("Accept", "application/vnd.github+json"), Header("User-Agent", "duckdb-api/0.6.0"),
                           Header("X-GitHub-Api-Version", "2022-11-28")]
       && rest.responseSource == RootArray && rest.recordsExtractor == "$"
       && rest.pagination == Pagination(LinkHeader, false, false, "per_page", 100, "page", 1, 1, 32, "")
       && r.authentication.required && r.authentication.logicalCredential == "token"
       && r.authentication.authenticator == Bearer && r.authentication.placement == AuthorizationHeader
       && r.authentication.destinations != [] && r.authentication.destinations[0] == github
       && m.columnName == "visibility" && m.literalForm == VarcharPrivate
       && m.operationName == "github_authenticated_repositories"
       && m.remoteInputName == "visibility" && m.encodedRemoteValue == "private" && m.accuracy == Superset
       && m.baseDomain == GithubRepositoryOccurrences && m.occurrenceLaw == PreservesAllMatching
  }

  /** The selector of a controlled operation asks for nothing when it is the fallback, else for the mapped input. */
  predicate ControlledExactSelector(op: Operation, m: PredicateMapping) {
    match op.selector
    case SelectorV1(references) =>
      if op.fallback then references == []
      else references == [InputReference(ConditionalInputReference, m.remoteInputName)]
    case LegacySelector(required, alternatives, forbidden, priority) =>
      if op.fallback then required == [] && alternatives == [] && forbidden == [] && priority == 0
      else
        && forbidden == []
        && ((required == [m.remoteInputName] && alternatives == [])
            || (required == [] && alternatives == [[m.remoteInputName]]))
  }

  /** The controlled operation of the exactness fixtures. */
  predicate ControlledExactProfile(r: Relation, op: Operation, m: PredicateMapping) {
    && r.name == "controlled_exact_repositories"
    && (op.name == "controlled_exact_repositories" || op.name == "controlled_priority_exact_repositories")
    && op.cardinality == ZeroToMany && op.protocol.Rest?
    && var rest := op.protocol.rest;
       && !rest.retryEnabled && rest.origin == Origin(Https, "predicate-proof.invalid", 443)
       && rest.path == "/fixtures/exact-repositories" && rest.query == []
       && rest.headers == [Header("X-Connector-Fixture", "exact-duplicate-repositories")]
       && rest.responseSource == RootArray && rest.recordsExtractor == "$"
       && rest.pagination.strategy == Disabled
       && !r.authentication.required && r.authentication.logicalCredential == ""
       && r.authentication.authenticator == NoAuthenticator && r.authentication.placement == NoPlacement
       && r.authentication.destinations == []
       && m.columnName == "visibility" && m.literalForm == VarcharPrivate && m.operationName == op.name
       && (m.remoteInputName == "visibility" || m.remoteInputName == "repository_visibility")
       && m.encodedRemoteValue == "private" && m.accuracy == Exact
       && m.baseDomain == ControlledDuplicateOccurrences && m.occurrenceLaw == PreservesExactMatching
       && ControlledExactSelector(op, m)
  }

  /** The accepted proof profile of a mapping on its operation. */
  predicate ProfileAccepted(r: Relation, op: Operation, m: PredicateMapping) {
    match m.proofIdentity
    case PackageDeclaredV1 =>
      && m.literalForm == PackageTypedLiteral && m.baseDomain == PackageDeclaredOccurrences
      && m.proofIdentityValue != "" && m.baseDomainValue != ""
      && m.matchingFixture != "" && m.falseOrNullFixture != "" && m.duplicatesFixture != ""
    case GithubRepositoryVisibility => InstalledGithubProfile(r, op, m)
    case ControlledExactVisibility => ControlledExactProfile(r, op, m)
  }

  predicate CollidesWithPagination(pagination: Pagination, name: string) {
    && !pagination.strategy.Disabled?
    && (name == pagination.pageSizeParameter || name == pagination.pageNumberParameter)
  }

  predicate ColumnAccepted(r: Relation, m: PredicateMapping) {
    var column := FindColumn(r.columns, m.columnName);
    && column.Some?
    && column.value.shape == ScalarShape
    && m.typedLiteral.Type() == column.value.elementType
    && (IsPackageMapping(m)
        || (!column.value.nullable && column.value.logicalType == "VARCHAR"
            && column.value.extractor == "$.visibility"))
  }

  predicate RequestAccepted(r: Relation, m: PredicateMapping) {
    var operation := FindOperation(r.operations, m.operationName);
    && operation.Some?
    && operation.value.protocol.Rest?
    && var rest := operation.value.protocol.rest;
       var binding := FindConditionalBinding(rest.query, m.remoteInputName);
       && (IsPackageMapping(m) ==> binding.Some?)
       && var wireName := if IsPackageMapping(m) && binding.Some? then binding.value.name else m.remoteInputName;
          && !HasFixedQueryField(rest.query, wireName)
          && !CollidesWithPagination(rest.pagination, wireName)
          && !(!IsPackageMapping(m) && m.remoteInputName == "visibility" && HasFixedQueryField(rest.query, "type"))
  }

  predicate MappingAccepted(r: Relation, m: PredicateMapping) {
    && ColumnAccepted(r, m)
    && RequestAccepted(r, m)
    && ProfileAccepted(r, FindOperation(r.operations, m.operationName).value, m)
  }

  /** Two mappings may share an operation only if their inputs cannot be confused. */
  predicate PairAccepted(m: PredicateMapping, other: PredicateMapping) {
    m.operationName == other.operationName ==>
      var bothPackage := IsPackageMapping(m) && IsPackageMapping(other);
      if m.remoteInputName != other.remoteInputName then !bothPackage
      else && bothPackage
           && !SameScalar(m.typedLiteral, other.typedLiteral)
           && m.encodedRemoteValue != other.encodedRemoteValue
  }

  predicate MappingsAccepted(r: Relation) {
    && (forall i :: 0 <= i < |r.mappings| ==> MappingAccepted(r, r.mappings[i]))
    && forall i, j :: 0 <= i < j < |r.mappings| ==> PairAccepted(r.mappings[i], r.mappings[j])
  }

  method ValidatePredicateMappings(r: Relation) returns (accepted: bool)
    ensures accepted <==> MappingsAccepted(r)
  {
    for i := 0 to |r.mappings|
      invariant forall k :: 0 <= k < i ==> MappingAccepted(r, r.mappings[k])
      invariant forall k, l :: 0 <= k < i && k < l < |r.mappings| ==> PairAccepted(r.mappings[k], r.mappings[l])
    {
      var m := r.mappings[i];
      if !ColumnAccepted(r, m) || !RequestAccepted(r, m) {
        return false;
      }
      for other := i + 1 to |r.mappings|
        invariant forall l :: i < l < other ==> PairAccepted(m, r.mappings[l])
      {
        if m.operationName == r.mappings[other].operationName {
          var bothPackage := IsPackageMapping(m) && IsPackageMapping(r.mappings[other]);
          if bothPackage && m.remoteInputName != r.mappings[other].remoteInputName {
            assert !PairAccepted(r.mappings[i], r.mappings[other]);
            return false;
          }
          if m.remoteInputName == r.mappings[other].remoteInputName {
            var distinguishable := bothPackage && !SameScalar(m.typedLiteral, r.mappings[other].typedLiteral)
                                   && m.encodedRemoteValue != r.mappings[other].encodedRemoteValue;
            if !distinguishable {
              assert !PairAccepted(r.mappings[i], r.mappings[other]);
              return false;
            }
          }
        }
      }
      if !ProfileAccepted(r, FindOperation(r.operations, m.operationName).value, m) {
        return false;
      }
    }
    return true;
  }

  // ----- Selectors

  predicate HasRelationInput(r: Relation, id: string) {
    exists i :: 0 <= i < |r.inputs| && r.inputs[i].name == id
  }

  predicate HasConditionalInput(r: Relation, op: Operation, id: string) {
    exists i :: 0 <= i < |r.mappings| && r.mappings[i].operationName == op.name && r.mappings[i].remoteInputName == id
  }

  predicate ReferenceRepresented(r: Relation, op: Operation, reference: InputReference) {
    if reference.kind == RelationInputReference then HasRelationInput(r, reference.id)
    else HasConditionalInput(r, op, reference.id)
  }

  predicate AllRepresentable(r: Relation, op: Operation, ids: seq<string>) {
    forall i :: 0 <= i < |ids| ==> HasRelationInput(r, ids[i]) || HasConditionalInput(r, op, ids[i])
  }

  predicate SelectorAccepted(r: Relation, op: Operation) {
    match op.selector
    case SelectorV1(references) =>
      && |references| <= 128
      && (op.fallback <==> references == [])
      && forall i :: 0 <= i < |references| ==> ReferenceRepresented(r, op, references[i])
    case LegacySelector(required, alternatives, forbidden, _) =>
      && AllRepresentable(r, op, required)
      && (forall i :: 0 <= i < |alternatives| ==> AllRepresentable(r, op, alternatives[i]))
      && AllRepresentable(r, op, forbidden)
  }

  // ----- Accepted relations

  ghost predicate DistinctOperations(r: Relation) {
    forall i, j :: 0 <= i < j < |r.operations| ==> r.operations[i].name != r.operations[j].name
  }

  /** A relation the catalog constructor accepts, as far as planning a predicate depends on it. */
  ghost predicate AcceptedRelation(r: Relation) {
    && Pushdown.DistinctColumns(r)
    && DistinctOperations(r)
    && (forall i :: 0 <= i < |r.mappings| ==> Built(r.mappings[i]))
    && MappingsAccepted(r)
    && forall i :: 0 <= i < |r.operations| ==> SelectorAccepted(r, r.operations[i])
  }

  /** A package generation admits neither legacy selectors nor native mappings. */
  predicate PackageOnly(r: Relation) {
    && (forall i :: 0 <= i < |r.operations| ==> r.operations[i].selector.SelectorV1?)
    && forall i :: 0 <= i < |r.mappings| ==> IsPackageMapping(r.mappings[i])
  }

  ghost predicate AcceptedPackageRelation(r: Relation) {
    AcceptedRelation(r) && PackageOnly(r)
  }

  /** Acceptance gives the two facts matching relies on. */
  lemma AcceptedIsCatalogRelation(r: Relation)
    requires AcceptedRelation(r)
    ensures Pushdown.CatalogRelation(r)
  {
    forall i | 0 <= i < |r.mappings| && r.mappings[i].literalForm == VarcharPrivate
      ensures r.mappings[i].columnName == "visibility"
           && r.mappings[i].typedLiteral == Concrete(VarcharScalar("private"))
    {
      assert MappingAccepted(r, r.mappings[i]) && Built(r.mappings[i]);
    }
  }

  lemma AcceptedMappingFacts(r: Relation, declared: Operation, op: Operation, m: PredicateMapping)
    requires Built(m) && ProfileAccepted(r, declared, m) && m.operationName == op.name
    ensures PredicateClassifier.FactsHold(op, m)
  {
    hide ProofIdentityName, BaseDomainName, ControlledExactSelector;
  }

  /** The facts the classifier re-checks hold of every accepted mapping, so classification of an
      accepted relation never fails on them. */
  lemma AcceptedFactsHold(r: Relation, op: Operation)
    requires AcceptedRelation(r)
    ensures PredicateClassifier.OperationFactsHold(r, op)
  {
    hide ColumnAccepted, Built, ProfileAccepted, PredicateClassifier.FactsHold;
    forall i | 0 <= i < |r.mappings| && r.mappings[i].operationName == op.name
      ensures PredicateClassifier.FactsHold(op, r.mappings[i])
    {
      assert MappingAccepted(r, r.mappings[i]) && Built(r.mappings[i]);
      AcceptedMappingFacts(r, FindOperation(r.operations, op.name).value, op, r.mappings[i]);
    }
  }

  // ----- Package mappings, by what they refer to

  /** A scalar column of the mapping's name and type. */
  ghost predicate HasColumn(r: Relation, m: PredicateMapping) {
    exists i :: 0 <= i < |r.columns| && r.columns[i].name == m.columnName
             && r.columns[i].shape == ScalarShape && r.columns[i].elementType == m.typedLiteral.Type()
  }

  /** The query field at `b` is the first that sends the conditional input, under a name that neither a fixed field nor
      paging uses. */
  predicate SendsInput(rest: RestOperation, input: string, b: nat) {
    && b < |rest.query|
    && rest.query[b].source == ConditionalInputValue && rest.query[b].sourceId == input
    && (forall k :: 0 <= k < b ==> rest.query[k].source != ConditionalInputValue || rest.query[k].sourceId != input)
    && (forall k :: 0 <= k < |rest.query| && rest.query[k].name == rest.query[b].name ==>
          rest.query[k].source != FixedValue)
    && (rest.pagination.strategy.Disabled?
        || rest.query[b].name !in {rest.pagination.pageSizeParameter, rest.pagination.pageNumberParameter})
  }

  /** A REST operation of the mapping's name sends its input. */
  ghost predicate HasInput(r: Relation, m: PredicateMapping) {
    exists j, b: nat :: && 0 <= j < |r.operations| && r.operations[j].name == m.operationName
                        && r.operations[j].protocol.Rest?
                        && SendsInput(r.operations[j].protocol.rest, m.remoteInputName, b)
  }

  lemma {:induction false} ColumnFoundIff(columns: seq<Column>, name: string, i: nat)
    requires i < |columns| && columns[i].name == name
    requires forall k, l :: 0 <= k < l < |columns| ==> columns[k].name != columns[l].name
    ensures FindColumn(columns, name) == Some(columns[i])
  {
    if i > 0 {
      ColumnFoundIff(columns[1..], name, i - 1);
    }
  }

  lemma {:induction false} ColumnAt(columns: seq<Column>, name: string) returns (i: nat)
    requires FindColumn(columns, name).Some?
    ensures i < |columns| && columns[i].name == name && FindColumn(columns, name) == Some(columns[i])
  {
    if columns[0].name == name {
      i := 0;
    } else {
      i := ColumnAt(columns[1..], name);
      i := i + 1;
    }
  }

  lemma {:induction false} OperationFoundIff(operations: seq<Operation>, name: string, i: nat)
    requires i < |operations| && operations[i].name == name
    requires forall k, l :: 0 <= k < l < |operations| ==> operations[k].name != operations[l].name
    ensures FindOperation(operations, name) == Some(operations[i])
  {
    if i > 0 {
      OperationFoundIff(operations[1..], name, i - 1);
    }
  }

  lemma {:induction false} OperationAt(operations: seq<Operation>, name: string) returns (i: nat)
    requires FindOperation(operations, name).Some?
    ensures i < |operations| && operations[i].name == name && FindOperation(operations, name) == Some(operations[i])
  {
    if operations[0].name == name {
      i := 0;
    } else {
      i := OperationAt(operations[1..], name);
      i := i + 1;
    }
  }

  /** The binding found is the first of the input's. */
  lemma {:induction false} BindingFoundIff(query: seq<QueryParameter>, id: string, b: nat)
    requires b < |query| && query[b].source == ConditionalInputValue && query[b].sourceId == id
    requires forall k :: 0 <= k < b ==> query[k].source != ConditionalInputValue || query[k].sourceId != id
    ensures FindConditionalBinding(query, id) == Some(query[b])
  {
    if b > 0 {
      BindingFoundIff(query[1..], id, b - 1);
    }
  }

  lemma {:induction false} BindingAt(query: seq<QueryParameter>, id: string) returns (b: nat)
    requires FindConditionalBinding(query, id).Some?
    ensures b < |query| && query[b].source == ConditionalInputValue && query[b].sourceId == id
    ensures forall k :: 0 <= k < b ==> query[k].source != ConditionalInputValue || query[k].sourceId != id
    ensures FindConditionalBinding(query, id) == Some(query[b])
  {
    if query[0].source == ConditionalInputValue && query[0].sourceId == id {
      b := 0;
    } else {
      b := BindingAt(query[1..], id);
      b := b + 1;
    }
  }

  lemma ColumnAcceptedIff(r: Relation, m: PredicateMapping)
    requires Pushdown.DistinctColumns(r) && IsPackageMapping(m)
    ensures ColumnAccepted(r, m) <==> HasColumn(r, m)
  {
    if ColumnAccepted(r, m) {
      var i := ColumnAt(r.columns, m.columnName);
    }
    if HasColumn(r, m) {
      var i :| 0 <= i < |r.columns| && r.columns[i].name == m.columnName
            && r.columns[i].shape == ScalarShape && r.columns[i].elementType == m.typedLiteral.Type();
      ColumnFoundIff(r.columns, m.columnName, i);
    }
  }

  lemma RequestAcceptedIff(r: Relation, m: PredicateMapping)
    requires DistinctOperations(r) && IsPackageMapping(m)
    ensures RequestAccepted(r, m) <==> HasInput(r, m)
  {
    if RequestAccepted(r, m) {
      var j := OperationAt(r.operations, m.operationName);
      var b := BindingAt(r.operations[j].protocol.rest.query, m.remoteInputName);
      assert SendsInput(r.operations[j].protocol.rest, m.remoteInputName, b);
    }
    if HasInput(r, m) {
      var j, b: nat :| && 0 <= j < |r.operations| && r.operations[j].name == m.operationName
                       && r.operations[j].protocol.Rest?
                       && SendsInput(r.operations[j].protocol.rest, m.remoteInputName, b);
      OperationFoundIff(r.operations, m.operationName, j);
      BindingFoundIff(r.operations[j].protocol.rest.query, m.remoteInputName, b);
    }
  }

  /** A package's mappings are accepted exactly if each finds its column and an operation that sends its input, and the
      mappings of one operation share one input under distinct values and distinct wire texts. */
  lemma PackageAcceptedIff(r: Relation)
    requires Pushdown.DistinctColumns(r) && DistinctOperations(r)
    requires forall i :: 0 <= i < |r.mappings| ==> BuiltAsPackageMapping(r.mappings[i])
    ensures MappingsAccepted(r) <==>
              && (forall i :: 0 <= i < |r.mappings| ==> HasColumn(r, r.mappings[i]) && HasInput(r, r.mappings[i]))
              && forall i, j ::
                   0 <= i < j < |r.mappings| && r.mappings[i].operationName == r.mappings[j].operationName ==>
                   && r.mappings[i].remoteInputName == r.mappings[j].remoteInputName
                   && !SameScalar(r.mappings[i].typedLiteral, r.mappings[j].typedLiteral)
                   && r.mappings[i].encodedRemoteValue != r.mappings[j].encodedRemoteValue
  {
    hide ColumnAccepted, RequestAccepted, HasColumn, HasInput;
    forall i | 0 <= i < |r.mappings|
      ensures MappingAccepted(r, r.mappings[i]) <==> HasColumn(r, r.mappings[i]) && HasInput(r, r.mappings[i])
    {
      ColumnAcceptedIff(r, r.mappings[i]);
      RequestAcceptedIff(r, r.mappings[i]);
    }
  }
}

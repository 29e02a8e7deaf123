/** Classification of a package reload, and what whole runs of reloads keep. */
module PackageReload {
  import opened Results
  import opened Scalars
  import opened Catalog
  import opened PackageVersion
  import opened SelectorNormalization
  import GraphqlModel
  import CatalogValidation
  import opened TransportValidation

  // ----- Structural comparisons

  /** Lists of equal length whose elements compare the same, position by position. */
  predicate SameAll<T>(left: seq<T>, right: seq<T>, same: (T, T) -> bool) {
    |left| == |right| && forall i :: 0 <= i < |left| ==> same(left[i], right[i])
  }

  predicate SameOptional(left: Option<CompiledScalar>, right: Option<CompiledScalar>) {
    left.Some? == right.Some? && (left.Some? ==> SameScalar(left.value, right.value))
  }

  predicate SameParameter(left: QueryParameter, right: QueryParameter) {
    left.(decodedValue := right.decodedValue) == right && SameOptional(left.decodedValue, right.decodedValue)
  }

  /** The body path of a continuation URL is not compared. */
  predicate SamePagination(left: Pagination, right: Pagination) {
    && left.strategy == right.strategy
    && left.supportsTotal == right.supportsTotal && left.supportsResume == right.supportsResume
    && (left.strategy.Disabled? || left.(nextUrlPath := right.nextUrlPath) == right)
  }

  predicate SameRest(left: RestOperation, right: RestOperation) {
    && left.(pagination := right.pagination, query := right.query) == right
    && SamePagination(left.pagination, right.pagination)
    && SameAll(left.query, right.query, SameParameter)
  }

  predicate SameLiteral(left: GraphqlModel.Literal, right: GraphqlModel.Literal) {
    && left.kind == right.kind && left.scalar == right.scalar
    && |left.items| == |right.items| && |left.fields| == |right.fields|
    && (forall i :: 0 <= i < |left.items| ==> SameLiteral(left.items[i], right.items[i]))
    && forall i :: 0 <= i < |left.fields| ==>
         left.fields[i].name == right.fields[i].name && SameLiteral(left.fields[i].value, right.fields[i].value)
  }

  predicate SameArgument(left: GraphqlModel.FixedArgument, right: GraphqlModel.FixedArgument) {
    left.name == right.name && SameLiteral(left.value, right.value)
  }

  predicate SameRecipe(left: Option<GraphqlModel.Recipe>, right: Option<GraphqlModel.Recipe>) {
    if left.None? || right.None? then left.None? && right.None?
    else
      && left.value.(fixedArguments := right.value.fixedArguments) == right.value
      && SameAll(left.value.fixedArguments, right.value.fixedArguments, SameArgument)
  }

  predicate SameGraphql(left: GraphqlOperation, right: GraphqlOperation) {
    left.(recipe := right.recipe) == right && SameRecipe(left.recipe, right.recipe)
  }

  predicate SameProtocol(left: ProtocolOperation, right: ProtocolOperation) {
    match (left, right)
    case (Rest(l), Rest(r)) => SameRest(l, r)
    case (Graphql(l), Graphql(r)) => SameGraphql(l, r)
    case _ => false
  }

  predicate SameOperation(left: Operation, right: Operation) {
    && left.(protocol := right.protocol, selector := right.selector) == right
    && SameSelector(left.selector, right.selector)
    && SameProtocol(left.protocol, right.protocol)
  }

  predicate SameInput(left: RelationInput, right: RelationInput) {
    left.(default := right.default) == right && SameOptional(left.default, right.default)
  }

  /** The logical type text is derived from the compared facts and is not compared itself. */
  predicate SameColumn(left: Column, right: Column) {
    left.(logicalType := right.logicalType) == right
  }

  /** The proof and domain identities are bound to one generation and are not compared. */
  predicate SamePredicate(left: PredicateMapping, right: PredicateMapping) {
    && left.(typedLiteral := right.typedLiteral, proofIdentityValue := right.proofIdentityValue,
             baseDomainValue := right.baseDomainValue) == right
    && SameScalar(left.typedLiteral, right.typedLiteral)
  }

  /** The name of a credential placement is not compared. */
  predicate SameAuthentication(left: Authentication, right: Authentication) {
    left.(placementName := right.placementName) == right
  }

  predicate SameRelation(left: Relation, right: Relation) {
    && left.name == right.name
    && SameAuthentication(left.authentication, right.authentication)
    && left.ceilings == right.ceilings
    && SameAll(left.columns, right.columns, SameColumn)
    && SameAll(left.inputs, right.inputs, SameInput)
    && SameAll(left.mappings, right.mappings, SamePredicate)
    && SameAll(left.operations, right.operations, SameOperation)
  }

  predicate SameDescriptor(left: Connector, right: Connector) {
    && left.origin == right.origin && left.network == right.network
    && SameAll(left.relations, right.relations, SameRelation)
  }

  /** The relations of `left` stand, in order, at the front of `right`. */
  predicate RelationPrefix(left: seq<Relation>, right: seq<Relation>) {
    |left| <= |right| && forall i :: 0 <= i < |left| ==> SameRelation(left[i], right[i])
  }

  predicate IsAppendOnly(active: Connector, candidate: Connector) {
    && active.origin == candidate.origin && active.network == candidate.network
    && |candidate.relations| > |active.relations|
    && RelationPrefix(active.relations, candidate.relations)
  }

  // ----- What the comparisons pass over

  /** The compared part of a pagination: nothing but the strategy and two flags when disabled, else all but the body
      path of the continuation URL. */
  function ComparedPagination(p: Pagination): Pagination {
    if p.strategy.Disabled? then Pagination(Disabled, p.supportsTotal, p.supportsResume, "", 0, "", 0, 0, 0, "")
    else p.(nextUrlPath := "")
  }

  function ComparedOperation(op: Operation): Operation {
    match op.protocol
    case Rest(rest) => op.(protocol := Rest(rest.(pagination := ComparedPagination(rest.pagination))))
    case Graphql(_) => op
  }

  function ComparedColumn(c: Column): Column {
    c.(logicalType := "")
  }

  function ComparedMapping(m: PredicateMapping): PredicateMapping {
    m.(proofIdentityValue := "", baseDomainValue := "")
  }

  /** The compared part of a relation: columns without their type text, mappings without their generation's identities,
      a credential placement without its name, operations without their continuation path. */
  function Compared(r: Relation): Relation {
    r.(columns := seq(|r.columns|, i requires 0 <= i < |r.columns| => ComparedColumn(r.columns[i])),
       mappings := seq(|r.mappings|, i requires 0 <= i < |r.mappings| => ComparedMapping(r.mappings[i])),
       operations := seq(|r.operations|, i requires 0 <= i < |r.operations| => ComparedOperation(r.operations[i])),
       authentication := r.authentication.(placementName := ""))
  }

  // ----- A NaN is not even the same as itself

  predicate NaNFreeOption(value: Option<CompiledScalar>) {
    value.Some? ==> value.value != Concrete(DoubleScalar(NotANumber))
  }

  predicate NaNFreeOperation(op: Operation) {
    op.protocol.Rest? ==>
      var query := op.protocol.rest.query;
      forall i :: 0 <= i < |query| ==> NaNFreeOption(query[i].decodedValue)
  }

  /** No fixed query value, input default or predicate literal is a NaN. */
  predicate NaNFree(r: Relation) {
    && (forall i :: 0 <= i < |r.operations| ==> NaNFreeOperation(r.operations[i]))
    && (forall i :: 0 <= i < |r.inputs| ==> NaNFreeOption(r.inputs[i].default))
    && forall i :: 0 <= i < |r.mappings| ==> r.mappings[i].typedLiteral != Concrete(DoubleScalar(NotANumber))
  }

  // ----- Exactly when two relations compare the same

  lemma SameScalarIff(a: CompiledScalar, b: CompiledScalar)
    ensures SameScalar(a, b) <==> a == b && a != Concrete(DoubleScalar(NotANumber))
  {
  }

  lemma SameSelectorIff(a: Selector, b: Selector)
    ensures SameSelector(a, b) <==> a == b
  {
    if a.SelectorV1? && b.SelectorV1? && SameSelector(a, b) {
      assert a.references == b.references;
    }
  }

  lemma SamePaginationIff(a: Pagination, b: Pagination)
    ensures SamePagination(a, b) <==> ComparedPagination(a) == ComparedPagination(b)
  {
  }

  lemma SameQueryIff(a: seq<QueryParameter>, b: seq<QueryParameter>)
    ensures SameAll(a, b, SameParameter) <==> a == b && forall i :: 0 <= i < |a| ==> NaNFreeOption(a[i].decodedValue)
  {
    forall i | 0 <= i < |a| && i < |b|
      ensures SameParameter(a[i], b[i]) <==> a[i] == b[i] && NaNFreeOption(a[i].decodedValue)
    {
      if a[i].decodedValue.Some? && b[i].decodedValue.Some? {
        SameScalarIff(a[i].decodedValue.value, b[i].decodedValue.value);
      }
    }
    if SameAll(a, b, SameParameter) {
      assert a == b;
    }
  }

  lemma SameOperationIff(a: Operation, b: Operation)
    ensures SameOperation(a, b) <==> ComparedOperation(a) == ComparedOperation(b) && NaNFreeOperation(a)
  {
    hide SameScalar, SameGraphql, SameSelector, SamePagination, ComparedPagination;
    SameSelectorIff(a.selector, b.selector);
    if a.protocol.Rest? && b.protocol.Rest? {
      SamePaginationIff(a.protocol.rest.pagination, b.protocol.rest.pagination);
      SameQueryIff(a.protocol.rest.query, b.protocol.rest.query);
    } else if a.protocol.Graphql? && b.protocol.Graphql? {
      SameGraphqlIsEquality(a.protocol.graphql, b.protocol.graphql);
    }
  }

  lemma SameColumnsIff(a: Relation, b: Relation)
    ensures SameAll(a.columns, b.columns, SameColumn) <==> Compared(a).columns == Compared(b).columns
  {
    var x, y := Compared(a).columns, Compared(b).columns;
    if x == y {
      forall i | 0 <= i < |a.columns| ensures SameColumn(a.columns[i], b.columns[i]) {
        assert x[i] == y[i];
      }
    }
  }

  lemma SameInputsIff(a: Relation, b: Relation)
    ensures SameAll(a.inputs, b.inputs, SameInput) <==>
              a.inputs == b.inputs && forall i :: 0 <= i < |a.inputs| ==> NaNFreeOption(a.inputs[i].default)
  {
    var x, y := a.inputs, b.inputs;
    forall i | 0 <= i < |x| && i < |y| ensures SameInput(x[i], y[i]) <==> x[i] == y[i] && NaNFreeOption(x[i].default) {
      if x[i].default.Some? && y[i].default.Some? {
        SameScalarIff(x[i].default.value, y[i].default.value);
      }
    }
    if SameAll(x, y, SameInput) {
      assert x == y;
    }
  }

  lemma SameMappingsIff(a: Relation, b: Relation)
    ensures SameAll(a.mappings, b.mappings, SamePredicate) <==>
              && Compared(a).mappings == Compared(b).mappings
              && forall i :: 0 <= i < |a.mappings| ==> a.mappings[i].typedLiteral != Concrete(DoubleScalar(NotANumber))
  {
    hide SameScalar;
    var x, y := Compared(a).mappings, Compared(b).mappings;
    forall i | 0 <= i < |x| && i < |y|
      ensures SamePredicate(a.mappings[i], b.mappings[i]) <==>
                x[i] == y[i] && a.mappings[i].typedLiteral != Concrete(DoubleScalar(NotANumber))
    {
      SameScalarIff(a.mappings[i].typedLiteral, b.mappings[i].typedLiteral);
    }
    if SameAll(a.mappings, b.mappings, SamePredicate) {
      assert x == y;
    }
  }

  lemma SameOperationsIff(a: Relation, b: Relation)
    ensures SameAll(a.operations, b.operations, SameOperation) <==>
              && Compared(a).operations == Compared(b).operations
              && forall i :: 0 <= i < |a.operations| ==> NaNFreeOperation(a.operations[i])
  {
    hide SameOperation, ComparedOperation, NaNFreeOperation;
    var x, y := Compared(a).operations, Compared(b).operations;
    forall i | 0 <= i < |x| && i < |y|
      ensures SameOperation(a.operations[i], b.operations[i]) <==> x[i] == y[i] && NaNFreeOperation(a.operations[i])
    {
      SameOperationIff(a.operations[i], b.operations[i]);
    }
    if SameAll(a.operations, b.operations, SameOperation) {
      assert x == y;
    }
  }

  /** Two relations compare the same if and only if their compared parts are equal and hold no NaN. */
  lemma SameRelationIff(a: Relation, b: Relation)
    ensures SameRelation(a, b) <==> Compared(a) == Compared(b) && NaNFree(a)
  {
    hide SameAll, SameColumn, SameInput, SamePredicate, SameOperation;
    SameColumnsIff(a, b);
    SameInputsIff(a, b);
    SameMappingsIff(a, b);
    SameOperationsIff(a, b);
  }

  predicate ConnectorNaNFree(c: Connector) {
    forall i :: 0 <= i < |c.relations| ==> NaNFree(c.relations[i])
  }

  lemma SameDescriptorReflexiveIff(c: Connector)
    ensures SameDescriptor(c, c) <==> ConnectorNaNFree(c)
  {
    hide SameRelation, NaNFree;
    forall i | 0 <= i < |c.relations|
      ensures SameRelation(c.relations[i], c.relations[i]) <==> NaNFree(c.relations[i])
    {
      SameRelationIff(c.relations[i], c.relations[i]);
    }
  }

  // ----- A relation that may change unseen

  /** A relation a package can declare: it follows the continuation URL found at `path` of each response and sends its
      credential in the header called `header`. */
  function ContinuedRelation(path: string, header: string): Relation {
    Relation(
      "items", [Column("id", ScalarShape, Bigint, false, "BIGINT", false, "$.id", ["id"])], [], [],
      [Operation(
         "list_items", true, ZeroToMany,
         Rest(RestOperation(
                false, Pagination(ResponseNextUrl, false, false, "", 0, "page", 1, 1, 10, path),
                Origin(Https, "api.example.com", 443), "/items",
                [QueryParameter("page", "1", PageNumberValue, "", false, false, Some(Concrete(BigintScalar(1))))],
                [], JsonPathMany, "$.items[*]", ["items"])),
         ReplayableRead, RetryRecommendation(0, 0, 0),
         RateLimitPolicy(false, FailMode, [], "", CredentialAuthority, [], "", "", 0, 0, 0), false, SelectorV1([]))],
      Authentication(true, "token", ApiKey, NamedHeader, header, [Origin(Https, "api.example.com", 443)]),
      ResourceCeilings(Some(ByteCeilings(1000, 10000)), 100, 1000, 1000))
  }

  /** The catalog accepts it for any path that names no collection and any header name. */
  lemma ContinuedRelationIsAccepted(path: string, header: string)
    requires IsContinuationPath(path) && header != ""
    ensures CatalogValidation.AcceptedRelation(ContinuedRelation(path, header))
    ensures TransportAccepted(ContinuedRelation(path, header))
  {
    hide IsContinuationPath;
    var r := ContinuedRelation(path, header);
    var rest := r.operations[0].protocol.rest;
    assert IsCompiledQueryName("page");
    assert rest.query[0].source == PageNumberValue;
    assert SoleSource(rest.query, PageNumberValue, "page", 1);
    assert r.authentication.destinations[0] == rest.origin;
  }

  /** Comparing the same is not equality: two accepted relations that differ in their continuation paths or in their
      header names compare the same. */
  lemma SameRelationIsNotEquality(path: string, header: string, path': string, header': string)
    requires IsContinuationPath(path) && IsContinuationPath(path') && header != "" && header' != ""
    requires path != path' || header != header'
    ensures var a, b := ContinuedRelation(path, header), ContinuedRelation(path', header');
            && CatalogValidation.AcceptedRelation(a) && TransportAccepted(a)
            && CatalogValidation.AcceptedRelation(b) && TransportAccepted(b)
            && SameRelation(a, b) && a != b
  {
    hide CatalogValidation.AcceptedRelation, TransportAccepted, IsContinuationPath;
    ContinuedRelationIsAccepted(path, header);
    ContinuedRelationIsAccepted(path', header');
    var a, b := ContinuedRelation(path, header), ContinuedRelation(path', header');
    assert a.operations[0].protocol.rest.pagination.nextUrlPath == path;
    assert b.operations[0].protocol.rest.pagination.nextUrlPath == path';
    assert a.authentication.placementName == header && b.authentication.placementName == header';
    assert SameOperation(a.operations[0], b.operations[0]);
  }

  // ----- The comparisons compose

  lemma {:induction false} SameLiteralIsEquality(a: GraphqlModel.Literal, b: GraphqlModel.Literal)
    ensures SameLiteral(a, b) <==> a == b
  {
    if SameLiteral(a, b) {
      forall i | 0 <= i < |a.items| ensures a.items[i] == b.items[i] {
        SameLiteralIsEquality(a.items[i], b.items[i]);
      }
      forall i | 0 <= i < |a.fields| ensures a.fields[i] == b.fields[i] {
        SameLiteralIsEquality(a.fields[i].value, b.fields[i].value);
      }
      assert a.items == b.items && a.fields == b.fields;
    }
    if a == b {
      forall i | 0 <= i < |a.items| ensures SameLiteral(a.items[i], b.items[i]) {
        SameLiteralIsEquality(a.items[i], b.items[i]);
      }
      forall i | 0 <= i < |a.fields| ensures SameLiteral(a.fields[i].value, b.fields[i].value) {
        SameLiteralIsEquality(a.fields[i].value, b.fields[i].value);
      }
    }
  }

  /** A GraphQL operation is compared in full. */
  lemma SameGraphqlIsEquality(a: GraphqlOperation, b: GraphqlOperation)
    ensures SameGraphql(a, b) <==> a == b
  {
    if a.recipe.Some? && b.recipe.Some? {
      var x, y := a.recipe.value.fixedArguments, b.recipe.value.fixedArguments;
      forall i | 0 <= i < |x| && i < |y| ensures SameArgument(x[i], y[i]) <==> x[i] == y[i] {
        SameLiteralIsEquality(x[i].value, y[i].value);
      }
      assert SameAll(x, y, SameArgument) <==> x == y;
    }
  }

  lemma SameOperationTransitive(a: Operation, b: Operation, c: Operation)
    requires SameOperation(a, b) && SameOperation(b, c)
    ensures SameOperation(a, c)
  {
    SameOperationIff(a, b);
    SameOperationIff(b, c);
    SameOperationIff(a, c);
  }

  lemma SameRelationTransitive(a: Relation, b: Relation, c: Relation)
    requires SameRelation(a, b) && SameRelation(b, c)
    ensures SameRelation(a, c)
  {
    SameRelationIff(a, b);
    SameRelationIff(b, c);
    SameRelationIff(a, c);
  }

  lemma PrefixTransitive(a: seq<Relation>, b: seq<Relation>, c: seq<Relation>)
    requires RelationPrefix(a, b) && RelationPrefix(b, c)
    ensures RelationPrefix(a, c)
  {
    forall i | 0 <= i < |a| ensures SameRelation(a[i], c[i]) {
      SameRelationTransitive(a[i], b[i], c[i]);
    }
  }

  // ----- Classification

  datatype Classification =
    | ExactNoOp | ProvenancePatch | ProvenanceMinor | AppendOnlyMinor | RejectedIdentity | IncompatibleReload

  /** A reload decision; nothing when a version text does not parse. */
  function ClassifyPackageReload(active: PackageGeneration, candidate: PackageGeneration): Option<Classification> {
    if active.identity.specIdentifier != candidate.identity.specIdentifier
       || active.identity.connectorId != candidate.identity.connectorId then Some(IncompatibleReload)
    else
      var old', new' := Parse(active.identity.packageVersion), Parse(candidate.identity.packageVersion);
      if old'.None? || new'.None? then None
      else
        var v, w := old'.value, new'.value;
        var sameDescriptor := SameDescriptor(active.connector, candidate.connector);
        Some(
          if Compare(v, w) == 0 && active.identity.packageDigest == candidate.identity.packageDigest && sameDescriptor
          then ExactNoOp
          else if Compare(w, v) <= 0 then RejectedIdentity
          else if w.major != v.major then IncompatibleReload
          else if sameDescriptor then (if w.minor == v.minor then ProvenancePatch else ProvenanceMinor)
          else if w.minor > v.minor && IsAppendOnly(active.connector, candidate.connector) then AppendOnlyMinor
          else IncompatibleReload)
  }

  predicate Changed(c: Classification) {
    c == ProvenancePatch || c == ProvenanceMinor || c == AppendOnlyMinor
  }

  /** `next` is a later release of the same package that only adds. */
  predicate Extends(g: PackageGeneration, next: PackageGeneration) {
    && next.identity.specIdentifier == g.identity.specIdentifier
    && next.identity.connectorId == g.identity.connectorId
    && next.connector.origin == g.connector.origin && next.connector.network == g.connector.network
    && RelationPrefix(g.connector.relations, next.connector.relations)
    && var v, w := Parse(g.identity.packageVersion), Parse(next.identity.packageVersion);
       && v.Some? && w.Some?
       && w.value.major == v.value.major
       && Compare(w.value, v.value) > 0
       && (w.value.minor == v.value.minor ==> SameDescriptor(g.connector, next.connector))
  }

  /** A reload changes the active generation exactly when the candidate is a later release that only adds, by whole
      relations in a later minor if by anything. */
  lemma ChangedIff(active: PackageGeneration, candidate: PackageGeneration)
    ensures var c := ClassifyPackageReload(active, candidate);
            c.Some? && Changed(c.value) <==> Extends(active, candidate)
  {
    if Extends(active, candidate) && |active.connector.relations| == |candidate.connector.relations| {
      assert SameDescriptor(active.connector, candidate.connector);
    }
  }

  /** So a release that moves the continuation path or renames the credential header, and changes nothing else, is taken
      for a change of provenance alone. */
  lemma MovedContinuationIsProvenance(
    g: PackageGeneration, next: PackageGeneration, path: string, header: string, path': string, header': string)
    requires g.identity.specIdentifier == next.identity.specIdentifier
    requires g.identity.connectorId == next.identity.connectorId
    requires var v, w := Parse(g.identity.packageVersion), Parse(next.identity.packageVersion);
             && v.Some? && w.Some? && v.value.major == w.value.major
             && v.value.minor == w.value.minor && v.value.patch < w.value.patch
    requires g.connector.relations == [ContinuedRelation(path, header)]
    requires next.connector == g.connector.(relations := [ContinuedRelation(path', header')])
    requires IsContinuationPath(path) && IsContinuationPath(path') && header != "" && header' != ""
    requires path != path' || header != header'
    ensures ClassifyPackageReload(g, next) == Some(ProvenancePatch)
  {
    hide SameRelation, Parse, ContinuedRelation, CatalogValidation.AcceptedRelation, TransportAccepted;
    SameRelationIsNotEquality(path, header, path', header');
  }

  /** Both generations are of one package, and their versions parse. */
  predicate Comparable(active: PackageGeneration, candidate: PackageGeneration) {
    && candidate.identity.specIdentifier == active.identity.specIdentifier
    && candidate.identity.connectorId == active.identity.connectorId
    && Parse(active.identity.packageVersion).Some? && Parse(candidate.identity.packageVersion).Some?
  }

  /** A reload is an exact no-op if and only if the identities are equal, digest and version text included, the version
      parses and the descriptors compare the same. */
  lemma NoOpIff(active: PackageGeneration, candidate: PackageGeneration)
    ensures ClassifyPackageReload(active, candidate) == Some(ExactNoOp) <==>
              && active.identity == candidate.identity
              && Parse(active.identity.packageVersion).Some?
              && SameDescriptor(active.connector, candidate.connector)
  {
    hide SameDescriptor, Parse, IsAppendOnly;
    var v, w := Parse(active.identity.packageVersion), Parse(candidate.identity.packageVersion);
    if v.Some? && w.Some? && Compare(v.value, w.value) == 0 {
      ParseIff(active.identity.packageVersion, v.value);
      ParseIff(candidate.identity.packageVersion, w.value);
    }
  }

  /** A descriptor only adds if, cut back to as many relations, it compares the same. */
  lemma AddsIff(active: Connector, candidate: Connector)
    ensures IsAppendOnly(active, candidate) <==>
              && |candidate.relations| > |active.relations|
              && SameDescriptor(active, candidate.(relations := candidate.relations[..|active.relations|]))
  {
    hide SameRelation;
  }

  /** Every other outcome, on the version numbers and the descriptors alone. */
  lemma ClassificationIff(active: PackageGeneration, candidate: PackageGeneration)
    requires Comparable(active, candidate)
    ensures var c := ClassifyPackageReload(active, candidate);
            var v, w := Parse(active.identity.packageVersion).value, Parse(candidate.identity.packageVersion).value;
            var same := SameDescriptor(active.connector, candidate.connector);
            var adds := IsAppendOnly(active.connector, candidate.connector);
            && c.Some?
            && (c == Some(RejectedIdentity) <==>
                  Place(w) <= Place(v) && !(active.identity == candidate.identity && same))
            && (c == Some(ProvenancePatch) <==>
                  w.major == v.major && w.minor == v.minor && w.patch > v.patch && same)
            && (c == Some(ProvenanceMinor) <==> w.major == v.major && w.minor > v.minor && same)
            && (c == Some(AppendOnlyMinor) <==> w.major == v.major && w.minor > v.minor && adds)
            && (c == Some(IncompatibleReload) <==>
                  || w.major > v.major
                  || (w.major == v.major && w.minor > v.minor && !same && !adds)
                  || (w.major == v.major && w.minor == v.minor && w.patch > v.patch && !same))
  {
    hide Parse;
    var v, w := Parse(active.identity.packageVersion).value, Parse(candidate.identity.packageVersion).value;
    ParseIff(active.identity.packageVersion, v);
    ParseIff(candidate.identity.packageVersion, w);
    CompareIff(v, w);
    NoOpIff(active, candidate);
    AddingDiffers(active.connector, candidate.connector);
  }

  lemma AddingDiffers(active: Connector, candidate: Connector)
    ensures !(SameDescriptor(active, candidate) && IsAppendOnly(active, candidate))
  {
  }

  /** Of two packages the candidate is incompatible; of one, a version that does not parse is an error. */
  lemma OtherPackageIff(active: PackageGeneration, candidate: PackageGeneration)
    ensures var a, c := active.identity, candidate.identity;
            var other := a.specIdentifier != c.specIdentifier || a.connectorId != c.connectorId;
            && (other ==> ClassifyPackageReload(active, candidate) == Some(IncompatibleReload))
            && (ClassifyPackageReload(active, candidate) == None <==>
                  !other && (Parse(a.packageVersion).None? || Parse(c.packageVersion).None?))
  {
  }

  /** Reloading the active generation is a no-op exactly when its version parses and its descriptor holds no NaN. */
  lemma ReloadOfActiveIff(g: PackageGeneration)
    ensures ClassifyPackageReload(g, g) == Some(ExactNoOp) <==>
              Parse(g.identity.packageVersion).Some? && ConnectorNaNFree(g.connector)
  {
    hide SameDescriptor, ConnectorNaNFree, Parse, IsAppendOnly;
    SameDescriptorReflexiveIff(g.connector);
  }

  // ----- Runs of reloads

  /** Only a changed compatible candidate replaces the active generation. */
  function Adopt(active: PackageGeneration, candidate: PackageGeneration): PackageGeneration {
    var c := ClassifyPackageReload(active, candidate);
    if c.Some? && Changed(c.value) then candidate else active
  }

  /** The generations active before, between and after the reloads of a run. */
  function Run(start: PackageGeneration, candidates: seq<PackageGeneration>): (states: seq<PackageGeneration>)
    ensures |states| == |candidates| + 1
    decreases |candidates|
  {
    if candidates == [] then [start] else [start] + Run(Adopt(start, candidates[0]), candidates[1..])
  }

  lemma ExtendsTransitive(a: PackageGeneration, b: PackageGeneration, c: PackageGeneration)
    requires Extends(a, b) && Extends(b, c)
    ensures Extends(a, c)
  {
    PrefixTransitive(a.connector.relations, b.connector.relations, c.connector.relations);
  }

  lemma {:induction false} RunFromStart(start: PackageGeneration, candidates: seq<PackageGeneration>, j: nat)
    requires j <= |candidates|
    ensures Run(start, candidates)[j] == start || Extends(start, Run(start, candidates)[j])
    decreases |candidates|
  {
    hide Extends, ClassifyPackageReload;
    if j > 0 {
      var next := Adopt(start, candidates[0]);
      ChangedIff(start, candidates[0]);
      RunFromStart(next, candidates[1..], j - 1);
      var last := Run(next, candidates[1..])[j - 1];
      if next != start && last != next {
        ExtendsTransitive(start, next, last);
      }
    }
  }

  /** Over any run, a later state is the earlier one or a later release that only adds: the specification, connector,
      major version and network policy stay, the version strictly grows at each change, the earlier relations stay a
      prefix, and two different states with one minor version have the same descriptor. */
  lemma {:induction false} RunOnlyExtends(start: PackageGeneration, candidates: seq<PackageGeneration>, i: nat, j: nat)
    requires i <= j <= |candidates|
    ensures var states := Run(start, candidates);
            states[i] == states[j] || Extends(states[i], states[j])
    decreases |candidates|
  {
    hide Extends, ClassifyPackageReload;
    if i == 0 {
      RunFromStart(start, candidates, j);
    } else {
      RunOnlyExtends(Adopt(start, candidates[0]), candidates[1..], i - 1, j - 1);
    }
  }

  /** A run never goes back: two states with one version are one generation. */
  lemma RunVersionsDistinct(start: PackageGeneration, candidates: seq<PackageGeneration>, i: nat, j: nat)
    requires i <= j <= |candidates|
    requires Run(start, candidates)[i].identity.packageVersion == Run(start, candidates)[j].identity.packageVersion
    ensures Run(start, candidates)[i] == Run(start, candidates)[j]
  {
    RunOnlyExtends(start, candidates, i, j);
  }
}

/** What the catalog demands of pagination and credentials. */
module TransportValidation {
  import opened Results
  import opened Scalars
  import opened Catalog
  import Envelope

  predicate IsCompiledQueryName(name: string) {
    && 1 <= |name| <= 63
    && forall i :: 0 <= i < |name| ==>
         var c := name[i];
         'A' <= c <= 'Z' || 'a' <= c <= 'z' || '0' <= c <= '9' || c == '.' || c == '_' || c == '~' || c == '-'
  }

  predicate HoldsCollection(path: string) {
    exists i :: 0 <= i && i + 3 <= |path| && path[i] == '[' && path[i + 1] == '*' && path[i + 2] == ']'
  }

  /** A JSON path that names no collection. */
  predicate IsContinuationPath(path: string) {
    path != "" && path[0] == '$' && !HoldsCollection(path)
  }

  predicate FitsPages(p: Pagination) {
    && p.firstPage > 0 && p.pageIncrement > 0 && p.maxPagesPerScan > 0
    && p.firstPage + (p.maxPagesPerScan - 1) * p.pageIncrement <= Envelope.MAX_INT64
  }

  predicate PageBindingsAccepted(p: Pagination) {
    && IsCompiledQueryName(p.pageNumberParameter) && FitsPages(p)
    && if p.pageSizeParameter == "" then p.pageSize == 0
       else
         && IsCompiledQueryName(p.pageSizeParameter) && p.pageSizeParameter != p.pageNumberParameter
         && 0 < p.pageSize <= Envelope.MAX_INT64
  }

  /** One query field alone has the source, and it carries the name and the first value. */
  predicate SoleSource(query: seq<QueryParameter>, source: QuerySource, name: string, value: int) {
    exists i :: 0 <= i < |query| && query[i].source == source && query[i].name == name
             && query[i].decodedValue == Some(Concrete(BigintScalar(value)))
             && forall j :: 0 <= j < |query| && query[j].source == source ==> j == i
  }

  predicate NoSource(query: seq<QueryParameter>, source: QuerySource) {
    forall j :: 0 <= j < |query| ==> query[j].source != source
  }

  /** The pagination of a REST operation agrees with its strategy, its response and its query fields. */
  predicate PaginationAccepted(op: Operation)
    requires op.protocol.Rest?
  {
    var rest := op.protocol.rest;
    var p := rest.pagination;
    if p.strategy.Disabled? then NoSource(rest.query, PageSizeValue) && NoSource(rest.query, PageNumberValue)
    else
      && (p.strategy.ShortPage? ==> p.pageSizeParameter != "")
      && !p.supportsTotal && !p.supportsResume
      && op.cardinality == ZeroToMany && rest.responseSource != RootObject
      && PageBindingsAccepted(p)
      && (p.strategy.ResponseNextUrl? ==> IsContinuationPath(p.nextUrlPath))
      && SoleSource(rest.query, PageNumberValue, p.pageNumberParameter, p.firstPage)
      && (p.pageSizeParameter != "" ==> SoleSource(rest.query, PageSizeValue, p.pageSizeParameter, p.pageSize))
  }

  /** A credential is absent altogether, or sent in one supported way to distinct HTTPS origins. */
  predicate AuthenticationAccepted(a: Authentication) {
    if !a.required then a == Authentication(false, "", NoAuthenticator, NoPlacement, "", [])
    else
      && a.logicalCredential == "token" && a.destinations != []
      && (|| (a.authenticator == Bearer && a.placement == AuthorizationHeader && a.placementName == "")
          || (a.authenticator == ApiKey && a.placement == NamedHeader && a.placementName != "")
          || (a.authenticator == ApiKey && a.placement == NamedQuery && a.placementName != ""))
      && (forall i :: 0 <= i < |a.destinations| ==> a.destinations[i].scheme == Https && a.destinations[i].port != 0)
      && forall i, j :: 0 <= i < j < |a.destinations| ==> a.destinations[i] != a.destinations[j]
  }

  function OperationOrigin(op: Operation): Origin {
    match op.protocol
    case Rest(rest) => rest.origin
    case Graphql(graphql) => graphql.endpointOrigin
  }

  /** Pagination and credentials of the whole relation; a credential goes to the origin of every operation. */
  predicate TransportAccepted(r: Relation) {
    && (forall i :: 0 <= i < |r.operations| && r.operations[i].protocol.Rest? ==> PaginationAccepted(r.operations[i]))
    && AuthenticationAccepted(r.authentication)
    && (r.authentication.required ==>
          forall i :: 0 <= i < |r.operations| ==> OperationOrigin(r.operations[i]) in r.authentication.destinations)
  }
}

/** Page sequences and resource envelopes: 64-bit checks that must neither overflow nor disagree. `UInt64` values are
    checked, not wrapped, so that each product and difference below is shown to fit. */
module Envelope {
  import opened Results

  const MAX_UINT64: nat := 0xffff_ffff_ffff_ffff
  const MAX_INT64: nat := 0x7fff_ffff_ffff_ffff

  newtype UInt64 = x: int | 0 <= x <= 0xffff_ffff_ffff_ffff

  // ----- Division in place of a product that may not fit

  lemma AtMostQuotient(a: nat, b: nat, limit: nat)
    requires b > 0
    ensures a <= limit / b <==> a * b <= limit
  {
    var q := limit / b;
    assert limit == q * b + limit % b;
    if a <= q {
      Monotone(a, q, b);
    } else {
      Monotone(q + 1, a, b);
      assert (q + 1) * b == q * b + b;
    }
  }

  lemma Monotone(a: nat, b: nat, c: nat)
    requires a <= b
    ensures a * c <= b * c
  {
  }

  // ----- REST page numbers

  /** The number of the page fetched at `step` of a scan. */
  function PageNumber(first: UInt64, increment: UInt64, step: nat): nat {
    first as nat + step * increment as nat
  }

  predicate PositiveBigint(n: nat) {
    0 < n <= MAX_INT64
  }

  /** The check is exact: all three counts are positive and the last page number is a BIGINT. */
  predicate FitsBigintPageSequence(first: UInt64, increment: UInt64, maxPages: UInt64): (fits: bool)
    ensures fits <==> && first > 0 && increment > 0 && maxPages > 0
                      && PageNumber(first, increment, maxPages as nat - 1) <= MAX_INT64
  {
    if first == 0 || increment == 0 || maxPages == 0 then false
    else
      var room := if first as nat <= MAX_INT64 then MAX_INT64 - first as nat else 0;
      AtMostQuotient(maxPages as nat - 1, increment as nat, room);
      first <= MAX_INT64 as UInt64 && maxPages - 1 <= (MAX_INT64 as UInt64 - first) / increment
  }

  /** A scan that passes the check asks for each page once, and every number it asks for is a positive BIGINT. */
  lemma PageSequenceFits(first: UInt64, increment: UInt64, maxPages: UInt64, i: nat, j: nat)
    requires FitsBigintPageSequence(first, increment, maxPages) && i < j < maxPages as nat
    ensures PositiveBigint(PageNumber(first, increment, i)) && PositiveBigint(PageNumber(first, increment, j))
    ensures PageNumber(first, increment, i) < PageNumber(first, increment, j)
  {
    hide PageNumber;
    LaterPage(first, increment, i, j);
    if j < maxPages as nat - 1 {
      LaterPage(first, increment, j, maxPages as nat - 1);
    }
  }

  lemma LaterPage(first: UInt64, increment: UInt64, i: nat, j: nat)
    requires increment > 0 && i < j
    ensures first as nat <= PageNumber(first, increment, i) < PageNumber(first, increment, j)
  {
    LaterProduct(i, j, increment as nat);
  }

  lemma LaterProduct(i: nat, j: nat, n: nat)
    requires i < j && n > 0
    ensures 0 <= i * n < j * n
  {
    Monotone(i + 1, j, n);
    assert (i + 1) * n == i * n + n;
  }

  // ----- Declared envelopes

  datatype Bytes = Bytes(perPage: UInt64, perScan: UInt64)

  datatype Ceilings = Ceilings(
    responseBytes: Option<Bytes>, recordsPerPage: UInt64, recordsPerScan: UInt64, extractedStringBytes: UInt64)

  datatype Paging = Unpaginated | Pages(pageSize: UInt64, maxPages: UInt64)

  datatype GraphqlEnvelope = GraphqlEnvelope(
    pageSize: UInt64, maxPages: UInt64, bodyPerRequest: UInt64, bodyPerScan: UInt64,
    retryAttempts: UInt64, waiting: bool, waitAttempts: UInt64)

  /** How often one step may be sent: a retry recommendation counts above one attempt, a rate-limit policy when it
      waits. */
  function Attempts(e: GraphqlEnvelope): (n: UInt64)
    ensures n >= 1 && n >= e.retryAttempts && (e.waiting ==> n >= e.waitAttempts)
    ensures n == 1 || n == e.retryAttempts || (e.waiting && n == e.waitAttempts)
  {
    var retry := if e.retryAttempts > 1 then e.retryAttempts else 1;
    var wait := if e.waiting then e.waitAttempts else 1;
    if retry > wait then retry else wait
  }

  /** What every amount must meet: one page fits the scan, and the scan fits the pages, in 64 bits. */
  predicate Bounded(page: nat, scan: nat, pages: nat) {
    0 < page <= scan <= page * pages <= MAX_UINT64
  }

  predicate BytesBounded(b: Bytes, pages: nat) {
    Bounded(b.perPage as nat, b.perScan as nat, pages)
  }

  // ----- The connector's checks

  predicate ValidateResourceCeilingsValue(c: Ceilings) {
    && c.recordsPerPage > 0 && c.recordsPerScan > 0 && c.extractedStringBytes > 0
    && c.recordsPerScan >= c.recordsPerPage
    && (c.responseBytes.Some? ==>
          var b := c.responseBytes.value; b.perPage > 0 && b.perScan > 0 && b.perScan >= b.perPage)
  }

  /** Ceilings of an operation whose page count is positive, as its own validation leaves it. */
  predicate ValidateResourceCeilings(paging: Paging, c: Ceilings): (ok: bool)
    requires paging.Pages? ==> paging.maxPages > 0
    ensures paging.Pages? ==>
              (ok <==> && c.responseBytes.Some? && c.extractedStringBytes > 0 && paging.pageSize <= c.recordsPerPage
                       && Bounded(c.recordsPerPage as nat, c.recordsPerScan as nat, paging.maxPages as nat)
                       && BytesBounded(c.responseBytes.value, paging.maxPages as nat))
    ensures paging.Unpaginated? ==>
              (ok <==> && c.recordsPerPage == c.recordsPerScan > 0 && c.extractedStringBytes > 0
                       && (c.responseBytes.Some? ==>
                             c.responseBytes.value.perPage == c.responseBytes.value.perScan > 0))
  {
    if !ValidateResourceCeilingsValue(c) then false
    else match paging
      case Unpaginated =>
        && c.recordsPerScan == c.recordsPerPage
        && (c.responseBytes.Some? ==> c.responseBytes.value.perScan == c.responseBytes.value.perPage)
      case Pages(pageSize, maxPages) =>
        if c.responseBytes.None? || pageSize > c.recordsPerPage then false
        else
          var b := c.responseBytes.value;
          AtMostQuotient(c.recordsPerPage as nat, maxPages as nat, MAX_UINT64);
          AtMostQuotient(b.perPage as nat, maxPages as nat, MAX_UINT64);
          var most := MAX_UINT64 as UInt64 / maxPages;
          if c.recordsPerPage > most || b.perPage > most then false
          else c.recordsPerScan <= c.recordsPerPage * maxPages && b.perScan <= b.perPage * maxPages
  }

  /** The cursor part of the package operation's own validation. */
  predicate ValidateGraphqlEnvelope(e: GraphqlEnvelope) {
    && e.maxPages > 0 && e.bodyPerRequest > 0 && e.bodyPerScan > 0 && e.bodyPerScan >= e.bodyPerRequest
    && e.bodyPerRequest <= MAX_UINT64 as UInt64 / e.maxPages
  }

  /** The request-body scope of pages times attempts. */
  predicate ValidateBodyScope(e: GraphqlEnvelope): (ok: bool)
    requires e.maxPages > 0
    ensures ok <==>
              e.bodyPerScan as nat <= e.bodyPerRequest as nat * e.maxPages as nat * Attempts(e) as nat <= MAX_UINT64
  {
    AtMostQuotient(e.bodyPerRequest as nat, e.maxPages as nat, MAX_UINT64);
    AtMostQuotient(e.bodyPerRequest as nat * e.maxPages as nat, Attempts(e) as nat, MAX_UINT64);
    Monotone(1, Attempts(e) as nat, e.bodyPerRequest as nat * e.maxPages as nat);
    if e.bodyPerRequest > MAX_UINT64 as UInt64 / e.maxPages then false
    else
      var perScan := e.bodyPerRequest * e.maxPages;
      perScan <= MAX_UINT64 as UInt64 / Attempts(e) && e.bodyPerScan <= perScan * Attempts(e)
  }

  predicate ConnectorAccepts(e: GraphqlEnvelope, c: Ceilings) {
    && ValidateGraphqlEnvelope(e)
    && ValidateBodyScope(e)
    && ValidateResourceCeilings(Pages(e.pageSize, e.maxPages), c)
  }

  // ----- The planner's checks

  predicate FitsPageSequence(page: UInt64, scan: UInt64, maxPages: UInt64): (fits: bool)
    ensures fits <==> Bounded(page as nat, scan as nat, maxPages as nat)
  {
    if maxPages > 0 then
      AtMostQuotient(page as nat, maxPages as nat, MAX_UINT64);
      page > 0 && scan >= page && page <= MAX_UINT64 as UInt64 / maxPages && scan <= page * maxPages
    else false
  }

  predicate PlannerAcceptsBody(e: GraphqlEnvelope): (ok: bool)
    ensures ok <==> && Bounded(e.bodyPerRequest as nat, e.bodyPerScan as nat, e.maxPages as nat * Attempts(e) as nat)
  {
    if e.maxPages == 0 || e.bodyPerRequest == 0 || e.bodyPerScan < e.bodyPerRequest then false
    else
      AtMostQuotient(e.bodyPerRequest as nat, e.maxPages as nat, MAX_UINT64);
      AtMostQuotient(e.bodyPerRequest as nat * e.maxPages as nat, Attempts(e) as nat, MAX_UINT64);
      Monotone(1, Attempts(e) as nat, e.bodyPerRequest as nat * e.maxPages as nat);
      Associate(e.bodyPerRequest as nat, e.maxPages as nat, Attempts(e) as nat);
      if e.bodyPerRequest > MAX_UINT64 as UInt64 / e.maxPages then false
      else if e.bodyPerRequest * e.maxPages > MAX_UINT64 as UInt64 / Attempts(e) then false
      else e.bodyPerScan <= e.bodyPerRequest * e.maxPages * Attempts(e)
  }

  lemma Associate(a: nat, b: nat, c: nat)
    ensures a * b * c == a * (b * c)
  {
  }

  predicate PlannerAccepts(e: GraphqlEnvelope, c: Ceilings, maxResponseBytes: UInt64) {
    && PlannerAcceptsBody(e)
    && c.responseBytes.Some?
    && var b := c.responseBytes.value;
       && b.perPage > 0
       && b.perPage <= maxResponseBytes
       && FitsPageSequence(b.perPage, b.perScan, e.maxPages)
       && c.recordsPerPage >= e.pageSize
       && FitsPageSequence(c.recordsPerPage, c.recordsPerScan, e.maxPages)
       && c.extractedStringBytes > 0
  }

  // ----- Agreement

  /** Planner and connector give one verdict, up to the network policy's response limit that only the planner sees. */
  lemma EnvelopesAgree(e: GraphqlEnvelope, c: Ceilings, maxResponseBytes: UInt64)
    ensures PlannerAccepts(e, c, maxResponseBytes) <==>
              ConnectorAccepts(e, c) && c.responseBytes.value.perPage <= maxResponseBytes
  {
  }
}

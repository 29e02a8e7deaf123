/** Classification of an offered predicate against the mappings of one operation. */
module PredicateClassifier {
  import opened Results
  import opened Scalars
  import opened Predicates
  import opened Catalog
  import opened TextOrder

  datatype PlanningError = InvalidContract | OperationSelectionFailed

  datatype RetainedScope = RetainNothing | RetainRequestedPredicate | RetainCompleteFilter
  datatype ScanRequest = ScanRequest(
    predicate': RequestedPredicate, scope: RetainedScope,
    selectivePredicate: bool, retainsPredicate: bool)

  // ----- Matching one comparison with one mapping

  predicate IsPackageProfile(m: PredicateMapping) {
    || m.literalForm == PackageTypedLiteral
    || m.proofIdentity == PackageDeclaredV1
    || m.baseDomain == PackageDeclaredOccurrences
  }

  function ExpectedLaw(accuracy: Accuracy): OccurrenceLaw {
    if accuracy == Exact then PreservesExactMatching else PreservesAllMatching
  }

  /** What `ValidateMappingFacts` lets through. */
  predicate FactsHold(op: Operation, m: PredicateMapping) {
    && m.operationName == op.name
    && m.remoteInputName != ""
    && m.occurrenceLaw == ExpectedLaw(m.accuracy)
    && if IsPackageProfile(m) then
         && m.literalForm == PackageTypedLiteral && m.typedLiteral.Concrete?
         && m.proofIdentity == PackageDeclaredV1 && m.proofIdentityValue != ""
         && m.baseDomain == PackageDeclaredOccurrences && m.baseDomainValue != ""
         && m.matchingFixture != "" && m.falseOrNullFixture != "" && m.duplicatesFixture != ""
       else
         && m.encodedRemoteValue != ""
         && match m.accuracy
            case Exact => m.proofIdentity == ControlledExactVisibility && m.baseDomain == ControlledDuplicateOccurrences
            case Superset =>
              && m.proofIdentity == GithubRepositoryVisibility
              && m.baseDomain == GithubRepositoryOccurrences
  }

  predicate LiteralMatches(m: PredicateMapping, column: Column, literal: ScalarValue) {
    || (m.literalForm == PackageTypedLiteral && m.typedLiteral.Concrete? && SameValue(m.typedLiteral.value, literal))
    || (!column.nullable && m.literalForm == VarcharPrivate && literal == VarcharScalar("private"))
  }

  /** The comparison `c` is the one mapping `m` of operation `op` speaks about. */
  predicate Matches(r: Relation, op: Operation, m: PredicateMapping, c: RequestedPredicate) {
    && c.Comparison?
    && c.column < |r.columns|
    && m.operationName == op.name
    && var column := r.columns[c.column];
       && column.shape == ScalarShape
       && column.name == m.columnName
       && column.elementType == c.columnType
       && LiteralMatches(m, column, c.literal)
  }

  method MappingMatches(r: Relation, op: Operation, m: PredicateMapping, c: RequestedPredicate)
    returns (matched: Result<bool, PlanningError>)
    ensures matched == if Matches(r, op, m, c) && !FactsHold(op, m) then Err(InvalidContract)
                       else Ok(Matches(r, op, m, c))
  {
    if !Matches(r, op, m, c) {
      return Ok(false);
    }
    if !FactsHold(op, m) {
      return Err(InvalidContract);
    }
    return Ok(true);
  }

  // ----- The candidate contract

  predicate BindingsHold(r: Relation, p: RequestedPredicate) {
    match p
    case Comparison(column, columnType, literal) =>
      && column < |r.columns|
      && r.columns[column].shape == ScalarShape
      && r.columns[column].elementType == columnType
      && columnType == literal.Type()
    case Conjunction(children) => forall i :: 0 <= i < |children| ==> BindingsHold(r, children[i])
    case Disjunction(children) => forall i :: 0 <= i < |children| ==> BindingsHold(r, children[i])
    case Negation(child) => BindingsHold(r, child)
    case _ => true
  }

  predicate ContractHolds(r: Relation, request: ScanRequest) {
    && Depth(request.predicate') <= MAX_DEPTH
    && NodeCount(request.predicate') <= MAX_NODES
    && BindingsHold(r, request.predicate')
  }

  // ----- Collecting matches over the conjunctive part of the tree

  datatype Match = Match(mapping: PredicateMapping, candidate: RequestedPredicate)

  /** The matches of one comparison, in declaration order of the mappings. */
  function LeafMatches(r: Relation, op: Operation, ms: seq<PredicateMapping>, c: RequestedPredicate): seq<Match> {
    if ms == [] then []
    else (if Matches(r, op, ms[0], c) then [Match(ms[0], c)] else []) + LeafMatches(r, op, ms[1..], c)
  }

  /** The matches of every comparison reachable from `p` through conjunctions alone. */
  function ConjunctiveMatches(r: Relation, op: Operation, p: RequestedPredicate): seq<Match>
    decreases p, 1
  {
    match p
    case Comparison(_, _, _) => LeafMatches(r, op, r.mappings, p)
    case Conjunction(children) => MatchesOfAll(r, op, children)
    case _ => []
  }

  function MatchesOfAll(r: Relation, op: Operation, ps: seq<RequestedPredicate>): seq<Match>
    decreases ps, 0
  {
    if ps == [] then [] else ConjunctiveMatches(r, op, ps[0]) + MatchesOfAll(r, op, ps[1..])
  }

  /** Some conjunct is not a mapped comparison. */
  predicate HasUnmapped(r: Relation, op: Operation, p: RequestedPredicate) {
    match p
    case Unrestricted => false
    case Comparison(_, _, _) => LeafMatches(r, op, r.mappings, p) == []
    case Conjunction(children) => exists i :: 0 <= i < |children| && HasUnmapped(r, op, children[i])
    case _ => true
  }

  predicate AllFactsHold(op: Operation, matches: seq<Match>) {
    forall i :: 0 <= i < |matches| ==> FactsHold(op, matches[i].mapping)
  }

  lemma LeafMatchesAppend(r: Relation, op: Operation, left: seq<PredicateMapping>, right: seq<PredicateMapping>,
                          c: RequestedPredicate)
    ensures LeafMatches(r, op, left + right, c) == LeafMatches(r, op, left, c) + LeafMatches(r, op, right, c)
  {
    if left == [] {
      assert left + right == right;
    } else {
      assert (left + right)[1..] == left[1..] + right;
      LeafMatchesAppend(r, op, left[1..], right, c);
    }
  }

  lemma MatchesOfAllAppend(r: Relation, op: Operation, left: seq<RequestedPredicate>, right: seq<RequestedPredicate>)
    ensures MatchesOfAll(r, op, left + right) == MatchesOfAll(r, op, left) + MatchesOfAll(r, op, right)
  {
    if left == [] {
      assert left + right == right;
    } else {
      assert (left + right)[1..] == left[1..] + right;
      MatchesOfAllAppend(r, op, left[1..], right);
    }
  }

  datatype Collected = Collected(matches: seq<Match>, unmapped: bool)

  lemma FactsOfConcat(op: Operation, left: seq<Match>, right: seq<Match>)
    ensures AllFactsHold(op, left + right) <==> AllFactsHold(op, left) && AllFactsHold(op, right)
  {
    if AllFactsHold(op, left + right) {
      forall i | 0 <= i < |right| ensures FactsHold(op, right[i].mapping) {
        assert (left + right)[|left| + i] == right[i];
      }
      forall i | 0 <= i < |left| ensures FactsHold(op, left[i].mapping) {
        assert (left + right)[i] == left[i];
      }
    }
  }

  /** One more mapping adds its match, if it is one; the mappings after it add theirs. */
  lemma LeafMatchesStep(r: Relation, op: Operation, ms: seq<PredicateMapping>, i: nat, c: RequestedPredicate)
    requires i < |ms|
    ensures LeafMatches(r, op, ms[..i + 1], c)
         == LeafMatches(r, op, ms[..i], c) + (if Matches(r, op, ms[i], c) then [Match(ms[i], c)] else [])
    ensures LeafMatches(r, op, ms, c) == LeafMatches(r, op, ms[..i + 1], c) + LeafMatches(r, op, ms[i + 1..], c)
  {
    hide Matches;
    SplitAt(ms[..i + 1], i);
    assert ms[..i + 1][..i] == ms[..i] && ms[..i + 1][i..] == [ms[i]];
    LeafMatchesAppend(r, op, ms[..i], [ms[i]], c);
    SplitAt(ms, i + 1);
    LeafMatchesAppend(r, op, ms[..i + 1], ms[i + 1..], c);
  }

  lemma LeafMatchesStart(r: Relation, op: Operation, ms: seq<PredicateMapping>, c: RequestedPredicate)
    ensures LeafMatches(r, op, ms[..0], c) == []
  {
  }

  lemma SplitAt<T>(s: seq<T>, k: nat)
    requires k <= |s|
    ensures s == s[..k] + s[k..]
  {
  }

  /** The comparison case of the tree walk: one pass over the mappings. */
  method CollectLeafMatches(r: Relation, op: Operation, p: RequestedPredicate, sofar: seq<Match>)
    returns (out: Result<(seq<Match>, nat), PlanningError>)
    ensures out == if AllFactsHold(op, LeafMatches(r, op, r.mappings, p))
                   then Ok((sofar + LeafMatches(r, op, r.mappings, p), |LeafMatches(r, op, r.mappings, p)|))
                   else Err(InvalidContract)
  {
    hide Matches, LeafMatches, FactsHold;
    var matches, matched := sofar, 0;
    ghost var ms := r.mappings;
    LeafMatchesStart(r, op, ms, p);
    for i := 0 to |r.mappings|
      invariant AllFactsHold(op, LeafMatches(r, op, ms[..i], p))
      invariant matches == sofar + LeafMatches(r, op, ms[..i], p)
      invariant matched == |LeafMatches(r, op, ms[..i], p)|
    {
      LeafMatchesStep(r, op, ms, i, p);
      FactsOfConcat(op, LeafMatches(r, op, ms[..i], p), [Match(ms[i], p)]);
      var one := MappingMatches(r, op, r.mappings[i], p);
      if one.Err? {
        FactsOfConcat(op, LeafMatches(r, op, ms[..i + 1], p), LeafMatches(r, op, ms[i + 1..], p));
        assert !FactsHold(op, [Match(ms[i], p)][0].mapping);
        return Err(InvalidContract);
      }
      if one.value {
        matches, matched := matches + [Match(r.mappings[i], p)], matched + 1;
      }
    }
    assert ms[..|ms|] == ms;
    return Ok((matches, matched));
  }

  /** The tree walk: it appends to the matches collected so far and raises a flag. */
  method CollectConjunctiveMatches(r: Relation, op: Operation, p: RequestedPredicate, sofar: Collected)
    returns (out: Result<Collected, PlanningError>)
    ensures out == if AllFactsHold(op, ConjunctiveMatches(r, op, p))
                   then Ok(Collected(sofar.matches + ConjunctiveMatches(r, op, p),
                                     sofar.unmapped || HasUnmapped(r, op, p)))
                   else Err(InvalidContract)
    decreases p, 1
  {
    assert sofar.matches + [] == sofar.matches;
    match p {
      case Unrestricted =>
        out := Ok(sofar);
      case Comparison(_, _, _) =>
        var leaf :- CollectLeafMatches(r, op, p, sofar.matches);
        out := Ok(Collected(leaf.0, sofar.unmapped || leaf.1 == 0));
      case Conjunction(children) =>
        out := CollectFromChildren(r, op, p, sofar);
      case Disjunction(_) => out := Ok(Collected(sofar.matches, true));
      case Negation(_) => out := Ok(Collected(sofar.matches, true));
      case Unsupported(_) => out := Ok(Collected(sofar.matches, true));
    }
  }

  /** The conjunction case of the tree walk: one pass over the children. */
  method CollectFromChildren(r: Relation, op: Operation, p: RequestedPredicate, sofar: Collected)
    returns (out: Result<Collected, PlanningError>)
    requires p.Conjunction?
    ensures out == if AllFactsHold(op, ConjunctiveMatches(r, op, p))
                   then Ok(Collected(sofar.matches + ConjunctiveMatches(r, op, p),
                                     sofar.unmapped || HasUnmapped(r, op, p)))
                   else Err(InvalidContract)
    decreases p, 0
  {
    var current := sofar;
    var ps := p.children;
    for i := 0 to |ps|
      invariant AllFactsHold(op, MatchesOfAll(r, op, ps[..i]))
      invariant current.matches == sofar.matches + MatchesOfAll(r, op, ps[..i])
      invariant current.unmapped == (sofar.unmapped || exists j :: 0 <= j < i && HasUnmapped(r, op, ps[j]))
    {
      assert ps[..i + 1] == ps[..i] + [ps[i]];
      MatchesOfAllAppend(r, op, ps[..i], [ps[i]]);
      assert MatchesOfAll(r, op, [ps[i]]) == ConjunctiveMatches(r, op, ps[i]);
      FactsOfConcat(op, MatchesOfAll(r, op, ps[..i]), ConjunctiveMatches(r, op, ps[i]));
      var step := CollectConjunctiveMatches(r, op, ps[i], current);
      if step.Err? {
        assert ps == ps[..i + 1] + ps[i + 1..];
        MatchesOfAllAppend(r, op, ps[..i + 1], ps[i + 1..]);
        FactsOfConcat(op, MatchesOfAll(r, op, ps[..i + 1]), MatchesOfAll(r, op, ps[i + 1..]));
        return Err(InvalidContract);
      }
      current := step.value;
    }
    assert ps[..|ps|] == ps;
    return Ok(current);
  }

  // ----- Conditional input bindings of one operation

  datatype CandidateBinding = CandidateBinding(name: string, encodedValue: string)
  datatype CandidateBindings = CandidateBindings(values: seq<CandidateBinding>, conflicting: bool)

  function BindingOf(m: Match): CandidateBinding {
    CandidateBinding(m.mapping.remoteInputName, m.mapping.encodedRemoteValue)
  }

  /** Two matches ask for different bytes under one input name. */
  predicate Conflict(matches: seq<Match>) {
    exists i, j :: 0 <= i < j < |matches|
                && matches[i].mapping.remoteInputName == matches[j].mapping.remoteInputName
                && matches[i].mapping.encodedRemoteValue != matches[j].mapping.encodedRemoteValue
  }

  predicate SortedByName(values: seq<CandidateBinding>) {
    forall i, j :: 0 <= i < j < |values| ==> Less(values[i].name, values[j].name)
  }

  /** What the bindings of a list of matches must be: nothing but a flag when they conflict,
      otherwise exactly the matched pairs, once each, in name order. */
  ghost predicate AreBindingsOf(matches: seq<Match>, result: CandidateBindings) {
    if Conflict(matches) then result == CandidateBindings([], true)
    else
      && !result.conflicting
      && SortedByName(result.values)
      && forall b :: b in result.values <==> exists i :: 0 <= i < |matches| && b == BindingOf(matches[i])
  }

  /** Insertion keeps a name-ordered list ordered; `std::sort` on distinct names has this one result. */
  method InsertByName(values: seq<CandidateBinding>, b: CandidateBinding) returns (out: seq<CandidateBinding>)
    requires SortedByName(values)
    requires forall v :: v in values ==> v.name != b.name
    ensures SortedByName(out)
    ensures forall v :: v in out <==> v in values || v == b
  {
    var i := 0;
    while i < |values| && Less(values[i].name, b.name)
      invariant 0 <= i <= |values|
      invariant forall k :: 0 <= k < i ==> Less(values[k].name, b.name)
    {
      i := i + 1;
    }
    out := values[..i] + [b] + values[i..];
    forall k | i <= k < |values| ensures Less(b.name, values[k].name) {
      Total(values[i].name, b.name);
      if i < k {
        Transitive(b.name, values[i].name, values[k].name);
      }
    }
    assert values == values[..i] + values[i..];
  }

  method SortBindings(values: seq<CandidateBinding>) returns (out: seq<CandidateBinding>)
    requires forall i, j :: 0 <= i < j < |values| ==> values[i].name != values[j].name
    ensures SortedByName(out)
    ensures forall v :: v in out <==> v in values
  {
    out := [];
    for i := 0 to |values|
      invariant SortedByName(out)
      invariant forall v :: v in out <==> v in values[..i]
    {
      assert values[..i + 1] == values[..i] + [values[i]];
      out := InsertByName(out, values[i]);
    }
    assert values[..|values|] == values;
  }

  /** Matches whose pairs all stand in a list with distinct names do not conflict. */
  lemma NoConflictYet(matches: seq<Match>, values: seq<CandidateBinding>)
    requires forall j :: 0 <= j < |matches| ==> BindingOf(matches[j]) in values
    requires forall k, l :: 0 <= k < l < |values| ==> values[k].name != values[l].name
    ensures !Conflict(matches)
  {
    forall a, b | 0 <= a < b < |matches| && matches[a].mapping.remoteInputName == matches[b].mapping.remoteInputName
      ensures matches[a].mapping.encodedRemoteValue == matches[b].mapping.encodedRemoteValue
    {
      assert BindingOf(matches[a]) in values && BindingOf(matches[b]) in values;
      var ka :| 0 <= ka < |values| && values[ka] == BindingOf(matches[a]);
      var kb :| 0 <= kb < |values| && values[kb] == BindingOf(matches[b]);
      assert ka == kb;
    }
  }

  method BindMatches(matches: seq<Match>) returns (result: CandidateBindings)
    ensures AreBindingsOf(matches, result)
  {
    var values: seq<CandidateBinding> := [];
    ghost var source: seq<nat> := [];
    for i := 0 to |matches|
      invariant |source| == |values|
      invariant forall k :: 0 <= k < |values| ==> source[k] < i && values[k] == BindingOf(matches[source[k]])
      invariant forall j :: 0 <= j < i ==> BindingOf(matches[j]) in values
      invariant forall k, l :: 0 <= k < l < |values| ==> values[k].name != values[l].name
      invariant !Conflict(matches[..i])
    {
      var m := matches[i].mapping;
      var at := 0;
      while at < |values| && values[at].name != m.remoteInputName
        invariant 0 <= at <= |values|
        invariant forall k :: 0 <= k < at ==> values[k].name != m.remoteInputName
      {
        at := at + 1;
      }
      if at == |values| {
        assert values <= values + [CandidateBinding(m.remoteInputName, m.encodedRemoteValue)];
        values := values + [CandidateBinding(m.remoteInputName, m.encodedRemoteValue)];
        source := source + [i];
      } else if values[at].encodedValue != m.encodedRemoteValue {
        assert matches[source[at]].mapping.encodedRemoteValue != matches[i].mapping.encodedRemoteValue;
        return CandidateBindings([], true);
      }
      assert BindingOf(matches[i]) in values;
      NoConflictYet(matches[..i + 1], values);
    }
    assert matches[..|matches|] == matches;
    var sorted := SortBindings(values);
    return CandidateBindings(sorted, false);
  }

  /** The selection evidence is drawn from the tree only when both predicate capabilities are
      present and the root is a comparison or a conjunction. */
  function CandidateMatches(r: Relation, op: Operation, request: ScanRequest): seq<Match> {
    if request.selectivePredicate && request.retainsPredicate
       && (request.predicate'.Comparison? || request.predicate'.Conjunction?)
    then ConjunctiveMatches(r, op, request.predicate')
    else []
  }

  method ResolveCandidateInputBindings(r: Relation, op: Operation, request: ScanRequest)
    returns (out: Result<CandidateBindings, PlanningError>)
    ensures out.Ok? <==> ContractHolds(r, request) && AllFactsHold(op, CandidateMatches(r, op, request))
    ensures out.Ok? ==> AreBindingsOf(CandidateMatches(r, op, request), out.value)
    ensures out.Err? ==> out.error == InvalidContract
  {
    if !ContractHolds(r, request) {
      return Err(InvalidContract);
    }
    if !request.selectivePredicate || !request.retainsPredicate {
      return Ok(CandidateBindings([], false));
    }
    if !request.predicate'.Comparison? && !request.predicate'.Conjunction? {
      return Ok(CandidateBindings([], false));
    }
    var collected :- CollectConjunctiveMatches(r, op, request.predicate', Collected([], false));
    assert collected.matches == ConjunctiveMatches(r, op, request.predicate');
    var result := BindMatches(collected.matches);
    return Ok(result);
  }

  // ----- The decision

  datatype PlannedPredicate = TrueForBaseDomain | TypedEquality | VisibilityEqualsPrivate | CompleteDuckdbFilter
  datatype RemoteAccuracy = RemoteExact | RemoteSuperset | RemoteUnsupported
  datatype ConditionalInput = NoConditionalInput | RestQueryBinding | VisibilityPrivateInput
  datatype Category = CategoryExact | CategorySuperset | CategoryAmbiguous | CategoryUnsupported
  datatype Reason =
    | NoRemoteCandidate | SelectedExactMapping | SelectedSupersetMapping | StructureUnsupported
    | CapabilityUnavailable | MappingUnavailable | DisjunctionEncodingUnavailable
    | ComplementEncodingUnavailable | AmbiguousConditionalInput

  /** The typed atom copied into a plan. */
  datatype EqualityPayload = EqualityPayload(
    columnName: string, value: ScalarValue, conditionalInputId: string,
    proofIdentity: string, baseDomain: string, occurrenceLaw: OccurrenceLaw)

  datatype Decision = Decision(
    remotePredicate: PlannedPredicate, remoteAccuracy: RemoteAccuracy, residual: PlannedPredicate,
    conditionalInput: ConditionalInput, equality: Option<EqualityPayload>, category: Category, reason: Reason)

  function PlanTypedEquality(m: PredicateMapping): Option<EqualityPayload> {
    if m.literalForm == PackageTypedLiteral && m.typedLiteral.Concrete? then
      Some(EqualityPayload(m.columnName, m.typedLiteral.value, m.remoteInputName,
                           m.proofIdentityValue, m.baseDomainValue, m.occurrenceLaw))
    else None
  }

  function ResidualPredicate(r: Relation, op: Operation, request: ScanRequest): PlannedPredicate {
    match request.scope
    case RetainNothing => TrueForBaseDomain
    case RetainCompleteFilter => CompleteDuckdbFilter
    case RetainRequestedPredicate =>
      var p := request.predicate';
      if p.Comparison? && LeafMatches(r, op, r.mappings, p) != [] then
        if LeafMatches(r, op, r.mappings, p)[0].mapping.literalForm == PackageTypedLiteral then TypedEquality
        else VisibilityEqualsPrivate
      else CompleteDuckdbFilter
  }

  function ResidualTypedEquality(r: Relation, op: Operation, request: ScanRequest): Option<EqualityPayload> {
    if ResidualPredicate(r, op, request) == TypedEquality && request.predicate'.Comparison? then
      PlanTypedEquality(LeafMatches(r, op, r.mappings, request.predicate')[0].mapping)
    else None
  }

  function Fallback(r: Relation, op: Operation, request: ScanRequest, category: Category, reason: Reason): Decision {
    Decision(TrueForBaseDomain, RemoteUnsupported, ResidualPredicate(r, op, request),
             NoConditionalInput, ResidualTypedEquality(r, op, request), category, reason)
  }

  predicate SameMappingAndBinding(a: Match, b: Match) {
    && StructurallyEquals(a.candidate, b.candidate)
    && SameScalar(a.mapping.typedLiteral, b.mapping.typedLiteral)
    && a.mapping.(name := b.mapping.name, typedLiteral := b.mapping.typedLiteral) == b.mapping
  }

  predicate AllMatchesEquivalent(matches: seq<Match>) {
    forall i :: 1 <= i < |matches| ==> SameMappingAndBinding(matches[0], matches[i])
  }

  predicate IsEquivalentRepeatedConjunction(p: RequestedPredicate, matches: seq<Match>, unmapped: bool) {
    p.Conjunction? && !unmapped && |p.children| == |matches| && AllMatchesEquivalent(matches)
  }

  /** The decision taken once the matches are known. */
  function DecideFromMatches(r: Relation, op: Operation, request: ScanRequest, matches: seq<Match>,
                             unmapped: bool): Decision {
    if matches == [] then
      Fallback(r, op, request, CategoryUnsupported, if unmapped then MappingUnavailable else StructureUnsupported)
    else if |matches| > 1 && !AllMatchesEquivalent(matches) then
      Fallback(r, op, request, CategoryAmbiguous, AmbiguousConditionalInput)
    else
      var m := matches[0].mapping;
      var p := request.predicate';
      var exact := m.accuracy == Exact && !unmapped
                   && (p.Comparison? || IsEquivalentRepeatedConjunction(p, matches, unmapped));
      var package := m.literalForm == PackageTypedLiteral;
      Decision(if package then TypedEquality else VisibilityEqualsPrivate,
               if exact then RemoteExact else RemoteSuperset,
               ResidualPredicate(r, op, request),
               if package then RestQueryBinding else VisibilityPrivateInput,
               PlanTypedEquality(m),
               if exact then CategoryExact else CategorySuperset,
               if exact then SelectedExactMapping else SelectedSupersetMapping)
  }

  /** The facts of every mapping declared for the operation. */
  predicate OperationFactsHold(r: Relation, op: Operation) {
    forall i :: 0 <= i < |r.mappings| && r.mappings[i].operationName == op.name ==> FactsHold(op, r.mappings[i])
  }

  function Decide(r: Relation, op: Operation, request: ScanRequest): Result<Decision, PlanningError> {
    if !ContractHolds(r, request) || !OperationFactsHold(r, op) then Err(InvalidContract)
    else if request.predicate'.Unrestricted? then
      Ok(Fallback(r, op, request, CategoryUnsupported, NoRemoteCandidate))
    else if !request.selectivePredicate || !request.retainsPredicate then
      Ok(Fallback(r, op, request, CategoryUnsupported, CapabilityUnavailable))
    else if request.predicate'.Disjunction? then
      Ok(Fallback(r, op, request, CategoryUnsupported, DisjunctionEncodingUnavailable))
    else if request.predicate'.Negation? then
      Ok(Fallback(r, op, request, CategoryUnsupported, ComplementEncodingUnavailable))
    else if request.predicate'.Unsupported? then
      Ok(Fallback(r, op, request, CategoryUnsupported, StructureUnsupported))
    else
      Ok(DecideFromMatches(r, op, request, ConjunctiveMatches(r, op, request.predicate'),
                           HasUnmapped(r, op, request.predicate')))
  }

  // ----- Every collected match is a declared mapping of the operation

  lemma LeafMatchesAreMatches(r: Relation, op: Operation, ms: seq<PredicateMapping>, c: RequestedPredicate, k: nat)
    requires k < |LeafMatches(r, op, ms, c)|
    ensures var m := LeafMatches(r, op, ms, c)[k];
            m.mapping in ms && m.candidate == c && Matches(r, op, m.mapping, c)
  {
    if Matches(r, op, ms[0], c) && k == 0 {
    } else {
      LeafMatchesAreMatches(r, op, ms[1..], c, if Matches(r, op, ms[0], c) then k - 1 else k);
    }
  }

  lemma ConjunctiveMatchesAreMatches(r: Relation, op: Operation, p: RequestedPredicate, k: nat)
    requires k < |ConjunctiveMatches(r, op, p)|
    ensures var m := ConjunctiveMatches(r, op, p)[k];
            m.mapping in r.mappings && Matches(r, op, m.mapping, m.candidate)
    decreases p, 1
  {
    match p {
      case Comparison(_, _, _) => LeafMatchesAreMatches(r, op, r.mappings, p, k);
      case Conjunction(children) => MatchesOfAllAreMatches(r, op, children, k);
    }
  }

  lemma MatchesOfAllAreMatches(r: Relation, op: Operation, ps: seq<RequestedPredicate>, k: nat)
    requires k < |MatchesOfAll(r, op, ps)|
    ensures var m := MatchesOfAll(r, op, ps)[k];
            m.mapping in r.mappings && Matches(r, op, m.mapping, m.candidate)
    decreases ps, 0
  {
    var first := |ConjunctiveMatches(r, op, ps[0])|;
    if k < first {
      ConjunctiveMatchesAreMatches(r, op, ps[0], k);
    } else {
      MatchesOfAllAreMatches(r, op, ps[1..], k - first);
    }
  }

  lemma CollectedFactsHold(r: Relation, op: Operation, p: RequestedPredicate)
    requires OperationFactsHold(r, op)
    ensures AllFactsHold(op, ConjunctiveMatches(r, op, p))
  {
    forall k | 0 <= k < |ConjunctiveMatches(r, op, p)|
      ensures FactsHold(op, ConjunctiveMatches(r, op, p)[k].mapping)
    {
      ConjunctiveMatchesAreMatches(r, op, p, k);
    }
  }

  method Classify(r: Relation, op: Operation, request: ScanRequest) returns (out: Result<Decision, PlanningError>)
    ensures out == Decide(r, op, request)
  {
    if !ContractHolds(r, request) {
      return Err(InvalidContract);
    }
    for i := 0 to |r.mappings|
      invariant forall j :: 0 <= j < i && r.mappings[j].operationName == op.name ==> FactsHold(op, r.mappings[j])
    {
      if r.mappings[i].operationName == op.name && !FactsHold(op, r.mappings[i]) {
        return Err(InvalidContract);
      }
    }
    var p := request.predicate';
    if p.Unrestricted? {
      return Ok(Fallback(r, op, request, CategoryUnsupported, NoRemoteCandidate));
    }
    if !request.selectivePredicate || !request.retainsPredicate {
      return Ok(Fallback(r, op, request, CategoryUnsupported, CapabilityUnavailable));
    }
    match p {
      case Disjunction(_) => return Ok(Fallback(r, op, request, CategoryUnsupported, DisjunctionEncodingUnavailable));
      case Negation(_) => return Ok(Fallback(r, op, request, CategoryUnsupported, ComplementEncodingUnavailable));
      case Unsupported(_) => return Ok(Fallback(r, op, request, CategoryUnsupported, StructureUnsupported));
      case _ =>
    }
    CollectedFactsHold(r, op, p);
    var step := CollectConjunctiveMatches(r, op, p, Collected([], false));
    var collected := step.value;
    assert collected.matches == ConjunctiveMatches(r, op, p);
    return Ok(DecideFromMatches(r, op, request, collected.matches, collected.unmapped));
  }
}

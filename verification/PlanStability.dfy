/** Facts relating selection evidence and classification: when bindings conflict, and what does not change when
    conjuncts are reordered. */
module PlanStability {
  import opened Results
  import opened Scalars
  import opened Predicates
  import opened Catalog
  import opened PredicateClassifier
  import opened CatalogValidation
  import TextOrder

  // ----- A match is determined by the binding it asks for

  /** Two mappings of one operation never send the same value for one input, and package mappings share their input. */
  lemma DeclaredApart(r: Relation, i: nat, j: nat)
    requires AcceptedRelation(r) && i < j < |r.mappings| && r.mappings[i].operationName == r.mappings[j].operationName
    ensures var m, n := r.mappings[i], r.mappings[j];
            && !(m.remoteInputName == n.remoteInputName && m.encodedRemoteValue == n.encodedRemoteValue)
            && (PackageOnly(r) ==> m.remoteInputName == n.remoteInputName)
  {
    hide MappingAccepted, Built, SelectorAccepted;
    assert PairAccepted(r.mappings[i], r.mappings[j]);
  }

  lemma MatchDeterminedByBinding(r: Relation, op: Operation, p: RequestedPredicate, a: nat, b: nat)
    requires AcceptedRelation(r)
    requires a < |ConjunctiveMatches(r, op, p)| && b < |ConjunctiveMatches(r, op, p)|
    ensures var ma, mb := ConjunctiveMatches(r, op, p)[a], ConjunctiveMatches(r, op, p)[b];
            && (BindingOf(ma) == BindingOf(mb) ==> ma.mapping == mb.mapping)
            && (PackageOnly(r) ==> ma.mapping.remoteInputName == mb.mapping.remoteInputName)
  {
    hide AcceptedRelation, ConjunctiveMatches, PackageOnly;
    ConjunctiveMatchesAreMatches(r, op, p, a);
    ConjunctiveMatchesAreMatches(r, op, p, b);
    var ma, mb := ConjunctiveMatches(r, op, p)[a].mapping, ConjunctiveMatches(r, op, p)[b].mapping;
    var i :| 0 <= i < |r.mappings| && r.mappings[i] == ma;
    var j :| 0 <= j < |r.mappings| && r.mappings[j] == mb;
    if i < j {
      DeclaredApart(r, i, j);
    } else if j < i {
      DeclaredApart(r, j, i);
    }
  }

  /** Two matches of one mapping are the same comparison. */
  lemma SameMappingSameMatch(r: Relation, op: Operation, p: RequestedPredicate, a: nat, b: nat)
    requires AcceptedRelation(r)
    requires a < |ConjunctiveMatches(r, op, p)| && b < |ConjunctiveMatches(r, op, p)|
    requires ConjunctiveMatches(r, op, p)[a].mapping == ConjunctiveMatches(r, op, p)[b].mapping
    ensures SameMappingAndBinding(ConjunctiveMatches(r, op, p)[a], ConjunctiveMatches(r, op, p)[b])
  {
    hide ProfileAccepted, RequestAccepted;
    ConjunctiveMatchesAreMatches(r, op, p, a);
    ConjunctiveMatchesAreMatches(r, op, p, b);
    var m := ConjunctiveMatches(r, op, p)[a].mapping;
    var i :| 0 <= i < |r.mappings| && r.mappings[i] == m;
    assert Built(r.mappings[i]) && MappingAccepted(r, r.mappings[i]);
    var ca, cb := ConjunctiveMatches(r, op, p)[a].candidate, ConjunctiveMatches(r, op, p)[b].candidate;
    assert r.columns[ca.column].name == r.columns[cb.column].name;
    assert ca.column == cb.column;
  }

  /** Two matches bind different input names. */
  predicate TwoInputs(matches: seq<Match>) {
    exists i, j :: 0 <= i < j < |matches|
                && matches[i].mapping.remoteInputName != matches[j].mapping.remoteInputName
  }

  /** Matches are all equivalent exactly when they ask for one input with one value. */
  lemma EquivalentIffOneBinding(r: Relation, op: Operation, p: RequestedPredicate)
    requires AcceptedRelation(r)
    ensures var matches := ConjunctiveMatches(r, op, p);
            AllMatchesEquivalent(matches) <==> !Conflict(matches) && !TwoInputs(matches)
  {
    var matches := ConjunctiveMatches(r, op, p);
    if !Conflict(matches) && !TwoInputs(matches) {
      forall i | 1 <= i < |matches| ensures SameMappingAndBinding(matches[0], matches[i]) {
        assert matches[0].mapping.remoteInputName == matches[i].mapping.remoteInputName;
        assert matches[0].mapping.encodedRemoteValue == matches[i].mapping.encodedRemoteValue;
        MatchDeterminedByBinding(r, op, p, 0, i);
        SameMappingSameMatch(r, op, p, 0, i);
      }
    }
    if AllMatchesEquivalent(matches) {
      forall i, j | 0 <= i < j < |matches| ensures BindingOf(matches[i]) == BindingOf(matches[j]) {
        assert i == 0 || SameMappingAndBinding(matches[0], matches[i]);
        assert SameMappingAndBinding(matches[0], matches[j]);
      }
    }
  }

  /** With both capabilities and a comparison or conjunction, classification is Ambiguous exactly when the bindings
      conflict or name two inputs. Only native mappings can name two. */
  lemma AmbiguousIff(r: Relation, op: Operation, request: ScanRequest)
    requires AcceptedRelation(r) && ContractHolds(r, request)
    requires request.selectivePredicate && request.retainsPredicate
    requires request.predicate'.Comparison? || request.predicate'.Conjunction?
    ensures Decide(r, op, request).Ok?
    ensures var matches := CandidateMatches(r, op, request);
            && (Decide(r, op, request).value.category == CategoryAmbiguous <==> Conflict(matches) || TwoInputs(matches))
            && (PackageOnly(r) ==> !TwoInputs(matches))
  {
    hide Matches, FactsHold, ConjunctiveMatches, AcceptedRelation, PackageOnly, HasUnmapped, OperationFactsHold;
    AcceptedFactsHold(r, op);
    EquivalentIffOneBinding(r, op, request.predicate');
    var matches := CandidateMatches(r, op, request);
    if PackageOnly(r) {
      forall i, j | 0 <= i < j < |matches|
        ensures matches[i].mapping.remoteInputName == matches[j].mapping.remoteInputName
      {
        MatchDeterminedByBinding(r, op, request.predicate', i, j);
      }
    }
  }

  /** The plan sends exactly the conditional input `id`. */
  predicate CarriesInput(d: Decision, id: string) {
    && (d.category == CategoryExact || d.category == CategorySuperset)
    && d.conditionalInput == RestQueryBinding && d.remotePredicate == TypedEquality
    && d.equality.Some? && d.equality.value.conditionalInputId == id
  }

  /** An input bound without conflict is carried by the plan. */
  lemma BoundInputIsPlanned(r: Relation, op: Operation, request: ScanRequest, id: string)
    requires AcceptedPackageRelation(r) && ContractHolds(r, request)
    requires !Conflict(CandidateMatches(r, op, request))
    requires exists i :: 0 <= i < |CandidateMatches(r, op, request)|
                      && CandidateMatches(r, op, request)[i].mapping.remoteInputName == id
    ensures Decide(r, op, request).Ok?
    ensures CarriesInput(Decide(r, op, request).value, id)
  {
    FirstMatchIsTyped(r, op, request, id);
    AmbiguousIff(r, op, request);
    TypedMatchIsPlanned(r, op, request);
  }

  /** A bound input comes from matches of typed package mappings, all asking for it. */
  lemma FirstMatchIsTyped(r: Relation, op: Operation, request: ScanRequest, id: string)
    requires AcceptedPackageRelation(r)
    requires exists i :: 0 <= i < |CandidateMatches(r, op, request)|
                      && CandidateMatches(r, op, request)[i].mapping.remoteInputName == id
    ensures var matches := CandidateMatches(r, op, request);
            && matches != []
            && PlanTypedEquality(matches[0].mapping).Some?
            && matches[0].mapping.remoteInputName == id
  {
    var matches := CandidateMatches(r, op, request);
    var i :| 0 <= i < |matches| && matches[i].mapping.remoteInputName == id;
    MatchDeterminedByBinding(r, op, request.predicate', 0, i);
    ConjunctiveMatchesAreMatches(r, op, request.predicate', 0);
    var at :| 0 <= at < |r.mappings| && r.mappings[at] == matches[0].mapping;
    assert Built(r.mappings[at]) && IsPackageMapping(r.mappings[at]) && MappingAccepted(r, r.mappings[at]);
  }

  lemma TypedMatchIsPlanned(r: Relation, op: Operation, request: ScanRequest)
    requires Decide(r, op, request).Ok? && Decide(r, op, request).value.category != CategoryAmbiguous
    requires CandidateMatches(r, op, request) != []
    requires PlanTypedEquality(CandidateMatches(r, op, request)[0].mapping).Some?
    ensures var d := Decide(r, op, request).value;
            && (d.category == CategoryExact || d.category == CategorySuperset)
            && d.conditionalInput == RestQueryBinding && d.remotePredicate == TypedEquality
            && d.equality == PlanTypedEquality(CandidateMatches(r, op, request)[0].mapping)
  {
  }

  /** A package operation never has more than one binding. */
  lemma OneBinding(r: Relation, op: Operation, request: ScanRequest, bindings: CandidateBindings, b: CandidateBinding)
    requires AcceptedPackageRelation(r)
    requires AreBindingsOf(CandidateMatches(r, op, request), bindings) && b in bindings.values
    ensures bindings.values == [b]
  {
    var matches := CandidateMatches(r, op, request);
    var p := request.predicate';
    forall k | 0 <= k < |bindings.values| ensures bindings.values[k].name == b.name {
      assert bindings.values[k] in bindings.values;
      var i :| 0 <= i < |matches| && b == BindingOf(matches[i]);
      var j :| 0 <= j < |matches| && bindings.values[k] == BindingOf(matches[j]);
      MatchDeterminedByBinding(r, op, p, i, j);
    }
    if |bindings.values| > 1 {
      var x, y := bindings.values[0].name, bindings.values[1].name;
      TextOrder.Irreflexive(x);
    }
  }

  // ----- Two native inputs on one operation

  function ControlledMapping(name: string, input: string): PredicateMapping {
    PredicateMapping(
      name, "visibility", VarcharPrivate, Concrete(VarcharScalar("private")), "controlled_exact_repositories", input,
      "private", Exact, ControlledExactVisibility, ProofIdentityName(ControlledExactVisibility),
      ControlledDuplicateOccurrences, BaseDomainName(ControlledDuplicateOccurrences), "", "", "",
      PreservesExactMatching)
  }

  function ControlledOperation(): Operation {
    Operation(
      "controlled_exact_repositories", true, ZeroToMany,
      Rest(RestOperation(
             false, Pagination(Disabled, false, false, "", 0, "", 0, 0, 0, ""),
             Origin(Https, "predicate-proof.invalid", 443), "/fixtures/exact-repositories", [],
             [Header("X-Connector-Fixture", "exact-duplicate-repositories")], RootArray, "$", [])),
      ReplayableRead, RetryRecommendation(0, 0, 0),
      RateLimitPolicy(false, FailMode, [], "", CredentialAuthority, [], "", "", 0, 0, 0), false, SelectorV1([]))
  }

  /** The relation of the exactness fixtures with the mappings `ms`. */
  function ControlledRelation(ms: seq<PredicateMapping>): Relation {
    Relation(
      "controlled_exact_repositories",
      [Column("visibility", ScalarShape, Varchar, false, "VARCHAR", false, "$.visibility", ["visibility"])], [],
      ms, [ControlledOperation()],
      Authentication(false, "", NoAuthenticator, NoPlacement, "", []), ResourceCeilings(None, 1, 1, 1))
  }

  const BY_VISIBILITY := ControlledMapping("first", "visibility")
  const BY_REPOSITORY_VISIBILITY := ControlledMapping("second", "repository_visibility")

  lemma ControlledMappingBuilt(name: string, input: string)
    requires IsIdentifier(name) && IsIdentifier(input)
    ensures Built(ControlledMapping(name, input))
  {
    assert IsIdentifier("visibility");
    assert IsIdentifier("controlled_exact_repositories");
  }

  /** The bindings of two native mappings need not conflict for the plan to be Ambiguous: both serve one comparison,
      through different inputs. */
  lemma NativePlanCanBeAmbiguous(request: ScanRequest)
    requires request.selectivePredicate && request.retainsPredicate
    requires request.predicate' == Comparison(0, Varchar, VarcharScalar("private"))
    ensures var r, op := ControlledRelation([BY_VISIBILITY, BY_REPOSITORY_VISIBILITY]), ControlledOperation();
            && AcceptedRelation(r) && ContractHolds(r, request)
            && !Conflict(CandidateMatches(r, op, request))
            && Decide(r, op, request).Ok? && Decide(r, op, request).value.category == CategoryAmbiguous
  {
    hide AcceptedRelation, MappingsAccepted, FactsHold, OperationFactsHold, ProofIdentityName, BaseDomainName;
    var r, op := ControlledRelation([BY_VISIBILITY, BY_REPOSITORY_VISIBILITY]), ControlledOperation();
    var c := request.predicate';
    ControlledIsAccepted();
    var first, second := BY_VISIBILITY, BY_REPOSITORY_VISIBILITY;
    assert r.mappings[1..] == [second] && r.mappings[1..][1..] == [];
    assert LeafMatches(r, op, r.mappings[1..], c) == [Match(second, c)];
    assert LeafMatches(r, op, r.mappings, c) == [Match(first, c), Match(second, c)];
    var matches := CandidateMatches(r, op, request);
    assert |first.remoteInputName| != |second.remoteInputName|;
    assert matches[0].mapping.remoteInputName != matches[1].mapping.remoteInputName;
    AmbiguousIff(r, op, request);
  }

  lemma ControlledMappingAccepted(ms: seq<PredicateMapping>, name: string, input: string)
    requires input == "visibility" || input == "repository_visibility"
    ensures MappingAccepted(ControlledRelation(ms), ControlledMapping(name, input))
  {
    hide ProofIdentityName, BaseDomainName, InstalledGithubProfile;
    var r, m := ControlledRelation(ms), ControlledMapping(name, input);
    assert FindColumn(r.columns, m.columnName) == Some(r.columns[0]);
    assert FindOperation(r.operations, m.operationName) == Some(r.operations[0]);
  }

  lemma ControlledIsAccepted()
    ensures AcceptedRelation(ControlledRelation([BY_VISIBILITY]))
    ensures AcceptedRelation(ControlledRelation([BY_VISIBILITY, BY_REPOSITORY_VISIBILITY]))
  {
    hide IsIdentifier, MappingAccepted, Built, ProofIdentityName, BaseDomainName;
    IdentifiersHold();
    ControlledMappingBuilt("first", "visibility");
    ControlledMappingBuilt("second", "repository_visibility");
    var one, two := [BY_VISIBILITY], [BY_VISIBILITY, BY_REPOSITORY_VISIBILITY];
    ControlledMappingAccepted(one, "first", "visibility");
    ControlledMappingAccepted(two, "first", "visibility");
    ControlledMappingAccepted(two, "second", "repository_visibility");
    assert |two[0].remoteInputName| != |two[1].remoteInputName|;
    assert PairAccepted(two[0], two[1]);
  }

  lemma IdentifiersHold()
    ensures IsIdentifier("first") && IsIdentifier("second")
    ensures IsIdentifier("visibility") && IsIdentifier("repository_visibility")
  {
  }
}

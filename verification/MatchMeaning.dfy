/** Matching and classification said by meaning: which comparisons a mapping serves, and which plan a request gets. */
module MatchMeaning {
  import opened Results
  import opened Scalars
  import opened Predicates
  import opened Catalog
  import opened PredicateClassifier
  import opened CatalogValidation
  import opened PlanStability
  import opened ExactPlans
  import opened Pushdown

  // ----- A comparison is matched exactly when it means the mapped equality

  /** The comparison `c` has the truth of the mapping's equality on every row. */
  ghost predicate MeansMapping(r: Relation, m: PredicateMapping, c: RequestedPredicate) {
    forall row: Row, untranslated: nat -> Truth :: Eval(c, row, untranslated) == MappingTruth(r, m, row)
  }

  lemma {:induction false} FoundColumn(columns: seq<Column>, name: string) returns (k: nat)
    requires FindColumn(columns, name).Some?
    ensures k < |columns| && columns[k] == FindColumn(columns, name).value && columns[k].name == name
  {
    if columns[0].name == name {
      k := 0;
    } else {
      k := FoundColumn(columns[1..], name);
      k := k + 1;
    }
  }

  /** A row that holds `value` in one column and NULL in all others. */
  function RowWith(width: nat, column: nat, value: ScalarValue): (row: Row)
    ensures |row| == width
    ensures forall i :: 0 <= i < width ==> row[i] == if i == column then ScalarCell(value) else NullCell
  {
    seq(width, i => if i == column then ScalarCell(value) else NullCell)
  }

  /** A mapping that speaks of another column or another value disagrees on some row. */
  lemma OtherMeaning(r: Relation, op: Operation, m: PredicateMapping, c: RequestedPredicate)
    requires AcceptedRelation(r) && m in r.mappings && m.operationName == op.name
    requires c.Comparison? && BindingsHold(r, c) && c.literal != DoubleScalar(NotANumber)
    requires !Matches(r, op, m, c)
    ensures !MeansMapping(r, m, c)
  {
    hide Matches, Built, MappingAccepted, BindingsHold, NamedColumnEquals;
    var at :| 0 <= at < |r.mappings| && r.mappings[at] == m;
    assert Built(r.mappings[at]) && MappingAccepted(r, r.mappings[at]);
    AcceptedColumn(r, m);
    var k := FoundColumn(r.columns, m.columnName);
    DifferentValue(r, op, m, c, k);
    var row := RowWith(|r.columns|, c.column, c.literal);
    NamedColumnFound(r.columns, m.columnName, m.typedLiteral.value, row, 0, k);
    assert MappingTruth(r, m, row) == ColumnEquals(row, k, m.typedLiteral.value);
    BoundColumn(r, c);
    var nothing: nat -> Truth := _ => Unknown;
    assert Eval(c, row, nothing) == True;
  }

  lemma AcceptedColumn(r: Relation, m: PredicateMapping)
    requires MappingAccepted(r, m)
    ensures FindColumn(r.columns, m.columnName).Some?
  {
  }

  lemma BoundColumn(r: Relation, c: RequestedPredicate)
    requires c.Comparison? && BindingsHold(r, c)
    ensures c.column < |r.columns|
  {
  }

  lemma DifferentValue(r: Relation, op: Operation, m: PredicateMapping, c: RequestedPredicate, k: nat)
    requires Built(m) && MappingAccepted(r, m) && m.operationName == op.name
    requires DistinctColumns(r) && k < |r.columns| && r.columns[k].name == m.columnName
    requires FindColumn(r.columns, m.columnName) == Some(r.columns[k])
    requires c.Comparison? && BindingsHold(r, c) && c.literal != DoubleScalar(NotANumber)
    requires !Matches(r, op, m, c)
    ensures m.typedLiteral.Concrete? && (k != c.column || m.typedLiteral.value != c.literal)
  {
    hide IsIdentifier, RequestAccepted, ProofIdentityName, BaseDomainName, ControlledExactSelector;
  }

  /** A declared mapping of the operation serves a comparison if and only if the comparison has the mapped equality's
      truth on every row. */
  lemma MatchIff(r: Relation, op: Operation, m: PredicateMapping, c: RequestedPredicate)
    requires AcceptedRelation(r) && m in r.mappings && m.operationName == op.name
    requires c.Comparison? && BindingsHold(r, c) && c.literal != DoubleScalar(NotANumber)
    ensures Matches(r, op, m, c) <==> MeansMapping(r, m, c)
  {
    hide Matches, AcceptedRelation, BindingsHold, Eval, MappingTruth;
    AcceptedIsCatalogRelation(r);
    if Matches(r, op, m, c) {
      forall row: Row, untranslated: nat -> Truth ensures Eval(c, row, untranslated) == MappingTruth(r, m, row) {
        MatchMeansEquality(r, op, m, c, row, untranslated);
      }
    } else {
      OtherMeaning(r, op, m, c);
    }
  }

  // ----- Whole decisions

  /** With both capabilities, a request that means one package mapping of the operation is planned with that mapping's
      accuracy and carries its input and value. */
  lemma MappedComparisonIsPlanned(r: Relation, op: Operation, request: ScanRequest, m: PredicateMapping)
    requires AcceptedPackageRelation(r) && ContractHolds(r, request)
    requires request.selectivePredicate && request.retainsPredicate
    requires m in r.mappings && m.operationName == op.name
    requires request.predicate'.Comparison? && request.predicate'.literal != DoubleScalar(NotANumber)
    requires MeansMapping(r, m, request.predicate')
    ensures Decide(r, op, request).Ok?
    ensures var d := Decide(r, op, request).value;
            && d.category == (if m.accuracy == Exact then CategoryExact else CategorySuperset)
            && d.conditionalInput == RestQueryBinding
            && d.equality.Some? && d.equality.value.conditionalInputId == m.remoteInputName
            && d.equality.value.columnName == m.columnName && Concrete(d.equality.value.value) == m.typedLiteral
  {
    hide Matches, AcceptedRelation, PackageOnly, LeafMatches, OperationFactsHold, Built, MappingAccepted, Eval;
    var c := request.predicate';
    MatchIff(r, op, m, c);
    PackageServesAlone(r, op, m, c);
    AloneHasOneMatch(r, op, m, c);
    AcceptedFactsHold(r, op);
    PackageIsTyped(r, m);
  }

  lemma PackageIsTyped(r: Relation, m: PredicateMapping)
    requires AcceptedPackageRelation(r) && m in r.mappings
    ensures m.literalForm == PackageTypedLiteral && m.typedLiteral.Concrete?
  {
    hide RequestAccepted, ColumnAccepted, IsIdentifier;
    var at :| 0 <= at < |r.mappings| && r.mappings[at] == m;
    assert Built(r.mappings[at]) && MappingAccepted(r, r.mappings[at]) && IsPackageMapping(r.mappings[at]);
  }

  /** Some comparison reachable through conjunctions is served by a mapping of the operation. */
  predicate SomeServed(r: Relation, op: Operation, p: RequestedPredicate) {
    match p
    case Comparison(_, _, _) => exists i :: 0 <= i < |r.mappings| && Matches(r, op, r.mappings[i], p)
    case Conjunction(children) => exists i :: 0 <= i < |children| && SomeServed(r, op, children[i])
    case _ => false
  }

  lemma {:induction false} ServedIsCollected(r: Relation, op: Operation, p: RequestedPredicate)
    ensures SomeServed(r, op, p) <==> ConjunctiveMatches(r, op, p) != []
    decreases p, 1
  {
    hide Matches;
    match p {
      case Comparison(_, _, _) =>
        if i :| 0 <= i < |r.mappings| && Matches(r, op, r.mappings[i], p) {
          MatchIsCollected(r, op, r.mappings, p, i);
        } else {
          NoMatch(r, op, r.mappings, p);
        }
      case Conjunction(children) =>
        ServedChildren(r, op, children);
      case _ =>
    }
  }

  lemma {:induction false} ServedChildren(r: Relation, op: Operation, ps: seq<RequestedPredicate>)
    ensures (exists i :: 0 <= i < |ps| && SomeServed(r, op, ps[i])) <==> MatchesOfAll(r, op, ps) != []
    decreases ps, 0
  {
    hide Matches, SomeServed, ConjunctiveMatches;
    if ps != [] {
      ServedIsCollected(r, op, ps[0]);
      ServedChildren(r, op, ps[1..]);
      if i :| 0 <= i < |ps| && SomeServed(r, op, ps[i]) {
        assert i > 0 ==> SomeServed(r, op, ps[1..][i - 1]);
      }
      if i :| 0 <= i < |ps[1..]| && SomeServed(r, op, ps[1..][i]) {
        assert SomeServed(r, op, ps[i + 1]);
      }
    }
  }

  /** A request is Unsupported if and only if a capability is missing or no comparison it asks for together with others
      is served; and then the whole base domain is read. */
  lemma UnsupportedIff(r: Relation, op: Operation, request: ScanRequest)
    requires AcceptedRelation(r) && ContractHolds(r, request)
    ensures Decide(r, op, request).Ok?
    ensures var d := Decide(r, op, request).value;
            && (d.category == CategoryUnsupported <==>
                  !request.selectivePredicate || !request.retainsPredicate || !SomeServed(r, op, request.predicate'))
            && (d.category == CategoryUnsupported || d.category == CategoryAmbiguous <==>
                  d.remotePredicate == TrueForBaseDomain)
            && (d.remotePredicate == TrueForBaseDomain <==> d.conditionalInput == NoConditionalInput)
            && (d.remotePredicate == TrueForBaseDomain <==> d.remoteAccuracy == RemoteUnsupported)
  {
    hide Matches, AcceptedRelation, LeafMatches, OperationFactsHold, ConjunctiveMatches, HasUnmapped,
         AllMatchesEquivalent, ResidualPredicate, ResidualTypedEquality;
    ServedIsCollected(r, op, request.predicate');
    AcceptedFactsHold(r, op);
  }

  /** A conjunction of nothing but TRUE. */
  predicate OnlyUnrestricted(p: RequestedPredicate) {
    p.Unrestricted? || (p.Conjunction? && forall i :: 0 <= i < |p.children| ==> OnlyUnrestricted(p.children[i]))
  }

  lemma {:induction false} NothingUnmappedIff(r: Relation, op: Operation, p: RequestedPredicate)
    requires ConjunctiveMatches(r, op, p) == []
    ensures !HasUnmapped(r, op, p) <==> OnlyUnrestricted(p)
    decreases p, 1
  {
    hide LeafMatches;
    if p.Conjunction? {
      assert MatchesOfAll(r, op, p.children) == [];
      forall i | 0 <= i < |p.children| ensures !HasUnmapped(r, op, p.children[i]) <==> OnlyUnrestricted(p.children[i]) {
        NoneCollected(r, op, p.children, i);
        NothingUnmappedIff(r, op, p.children[i]);
      }
    }
  }

  lemma {:induction false} NoneCollected(r: Relation, op: Operation, ps: seq<RequestedPredicate>, i: nat)
    requires i < |ps| && MatchesOfAll(r, op, ps) == []
    ensures ConjunctiveMatches(r, op, ps[i]) == []
  {
    hide ConjunctiveMatches;
    assert |MatchesOfAll(r, op, ps)| == |ConjunctiveMatches(r, op, ps[0])| + |MatchesOfAll(r, op, ps[1..])|;
    if i > 0 {
      NoneCollected(r, op, ps[1..], i - 1);
    }
  }

  /** The reason in a plan tells what stood in the way of a remote restriction. */
  lemma ReasonIff(r: Relation, op: Operation, request: ScanRequest)
    requires AcceptedRelation(r) && ContractHolds(r, request)
    ensures Decide(r, op, request).Ok?
    ensures var p, d := request.predicate', Decide(r, op, request).value;
            var able := request.selectivePredicate && request.retainsPredicate;
            && (d.reason == NoRemoteCandidate <==> p.Unrestricted?)
            && (d.reason == CapabilityUnavailable <==> !p.Unrestricted? && !able)
            && (d.reason == DisjunctionEncodingUnavailable <==> p.Disjunction? && able)
            && (d.reason == ComplementEncodingUnavailable <==> p.Negation? && able)
            && (d.reason == StructureUnsupported <==>
                  able && (p.Unsupported? || (p.Conjunction? && OnlyUnrestricted(p))))
            && (d.reason == MappingUnavailable <==>
                  able && (p.Comparison? || p.Conjunction?) && !SomeServed(r, op, p) && !OnlyUnrestricted(p))
            && (d.reason == AmbiguousConditionalInput <==> d.category == CategoryAmbiguous)
            && (d.reason == SelectedExactMapping <==> d.category == CategoryExact)
            && (d.reason == SelectedSupersetMapping <==> d.category == CategorySuperset)
  {
    hide Matches, AcceptedRelation, LeafMatches, OperationFactsHold, ConjunctiveMatches, HasUnmapped, SomeServed,
         OnlyUnrestricted, AllMatchesEquivalent, ResidualPredicate, ResidualTypedEquality;
    var p := request.predicate';
    ServedIsCollected(r, op, p);
    AcceptedFactsHold(r, op);
    OnlyUnrestrictedShape(r, op, p);
    if ConjunctiveMatches(r, op, p) == [] {
      NothingUnmappedIff(r, op, p);
    }
  }

  lemma {:induction false} OnlyUnrestrictedShape(r: Relation, op: Operation, p: RequestedPredicate)
    ensures OnlyUnrestricted(p) ==> !SomeServed(r, op, p) && (p.Unrestricted? || p.Conjunction?)
  {
    if p.Conjunction? {
      forall i | 0 <= i < |p.children| && OnlyUnrestricted(p.children[i]) ensures !SomeServed(r, op, p.children[i]) {
        OnlyUnrestrictedShape(r, op, p.children[i]);
      }
    }
  }

  /** What DuckDB still evaluates: nothing for no filter, the typed equality exactly when the request is one comparison
      that a mapping serves, and its complete filter otherwise. */
  lemma ResidualIff(r: Relation, op: Operation, request: ScanRequest)
    requires AcceptedPackageRelation(r) && ContractHolds(r, request)
    ensures Decide(r, op, request).Ok?
    ensures var p, d := request.predicate', Decide(r, op, request).value;
            && (d.residual == TrueForBaseDomain <==> request.scope == RetainNothing)
            && (d.residual == TypedEquality <==>
                  request.scope == RetainRequestedPredicate && p.Comparison? && SomeServed(r, op, p))
            && d.residual != VisibilityEqualsPrivate
  {
    hide Matches, AcceptedRelation, PackageOnly, OperationFactsHold, HasUnmapped, LeafMatches,
         AllMatchesEquivalent, ResidualTypedEquality;
    AcceptedFactsHold(r, op);
    var p := request.predicate';
    if p.Comparison? {
      ServedIsCollected(r, op, p);
      if LeafMatches(r, op, r.mappings, p) != [] {
        LeafMatchesAreMatches(r, op, r.mappings, p, 0);
        PackageIsTyped(r, LeafMatches(r, op, r.mappings, p)[0].mapping);
      }
    }
  }

  // ----- What a plan lets the remote service answer

  /** The answers a plan allows, row by row: a selective plan keeps every row on which the first match's equality is
      TRUE; of the others it keeps none if the mapping is declared Exact, a native one in an Exact plan only; a plan
      without restriction keeps everything. */
  lemma AllowedIff(r: Relation, op: Operation, request: ScanRequest, d: Decision, base: multiset<Row>,
                   response: multiset<Row>)
    requires CatalogRelation(r) && Decide(r, op, request) == Ok(d)
    ensures d.category == CategoryUnsupported || d.category == CategoryAmbiguous ==>
              (AllowedResponse(r, d, base, response) <==> forall row :: response[row] == base[row])
    ensures d.category == CategoryExact || d.category == CategorySuperset ==>
              ConjunctiveMatches(r, op, request.predicate') != []
    ensures d.category == CategoryExact || d.category == CategorySuperset ==>
              var m := ConjunctiveMatches(r, op, request.predicate')[0].mapping;
              var precise := if m.literalForm == PackageTypedLiteral then m.accuracy == Exact
                             else d.category == CategoryExact;
              (AllowedResponse(r, d, base, response) <==>
                 forall row ::
                   if MappingTruth(r, m, row) == True then response[row] == base[row]
                   else response[row] <= (if precise then 0 else base[row]))
  {
    hide Matches, CatalogRelation, LeafMatches, ConjunctiveMatches, MappingTruth, ContractHolds, OperationFactsHold,
         RemoteTruth, ResidualPredicate, ResidualTypedEquality, AllMatchesEquivalent, HasUnmapped,
         NativeMappingsAreVisibility;
    if d.category == CategoryExact || d.category == CategorySuperset {
      forall row: Row ensures
        var matches := ConjunctiveMatches(r, op, request.predicate');
        matches != [] && RemoteTruth(r, d, row) == MappingTruth(r, matches[0].mapping, row)
      {
        RemoteTruthIsFirstMatch(r, op, request, d, row);
      }
      RemoteTruthIsFirstMatch(r, op, request, d, []);
      var matching := Selected(base, row => RemoteTruth(r, d, row) == True);
      LawIs(r, op, request, d);
      BagsByRow(matching, response, base);
    } else {
      BagsByRow(base, response, base);
    }
  }

  lemma LawIs(r: Relation, op: Operation, request: ScanRequest, d: Decision)
    requires CatalogRelation(r) && Decide(r, op, request) == Ok(d)
    requires d.category == CategoryExact || d.category == CategorySuperset
    ensures ConjunctiveMatches(r, op, request.predicate') != [] && d.remotePredicate != TrueForBaseDomain
    ensures var m := ConjunctiveMatches(r, op, request.predicate')[0].mapping;
            PlannedLaw(d) == PreservesExactMatching <==>
              if m.literalForm == PackageTypedLiteral then m.accuracy == Exact else d.category == CategoryExact
  {
    RemoteTruthIsFirstMatch(r, op, request, d, []);
  }

  lemma BagsByRow(a: multiset<Row>, b: multiset<Row>, c: multiset<Row>)
    ensures a == b <==> forall row :: a[row] == b[row]
    ensures a <= b <= c <==> forall row :: a[row] <= b[row] <= c[row]
  {
  }

  // ----- Which requests fail

  /** `c` is a node of the tree `p`. */
  predicate Occurs(c: RequestedPredicate, p: RequestedPredicate) {
    || c == p
    || (p.Conjunction? && exists i :: 0 <= i < |p.children| && Occurs(c, p.children[i]))
    || (p.Disjunction? && exists i :: 0 <= i < |p.children| && Occurs(c, p.children[i]))
    || (p.Negation? && Occurs(c, p.child))
  }

  /** The column of a comparison is a scalar column of the comparison's and the literal's type. */
  predicate WellBound(r: Relation, c: RequestedPredicate)
    requires c.Comparison?
  {
    && c.column < |r.columns| && r.columns[c.column].shape == ScalarShape
    && r.columns[c.column].elementType == c.columnType == c.literal.Type()
  }

  lemma {:induction false} BindingsHoldIff(r: Relation, p: RequestedPredicate)
    ensures BindingsHold(r, p) <==> forall c :: Occurs(c, p) && c.Comparison? ==> WellBound(r, c)
  {
    if p.Conjunction? || p.Disjunction? {
      forall i | 0 <= i < |p.children|
        ensures BindingsHold(r, p.children[i])
           <==> forall c :: Occurs(c, p.children[i]) && c.Comparison? ==> WellBound(r, c)
      {
        BindingsHoldIff(r, p.children[i]);
      }
      if !BindingsHold(r, p) {
        var i :| 0 <= i < |p.children| && !BindingsHold(r, p.children[i]);
        var c :| Occurs(c, p.children[i]) && c.Comparison? && !WellBound(r, c);
        assert Occurs(c, p);
      }
    } else if p.Negation? {
      BindingsHoldIff(r, p.child);
      if !BindingsHold(r, p) {
        var c :| Occurs(c, p.child) && c.Comparison? && !WellBound(r, c);
        assert Occurs(c, p);
      }
    } else {
      assert Occurs(p, p);
    }
  }

  /** Against an accepted relation a request fails exactly on its own faults: too deep, too large or ill bound. */
  lemma FailsIff(r: Relation, op: Operation, request: ScanRequest)
    requires AcceptedRelation(r)
    ensures var p := request.predicate';
            Decide(r, op, request).Err? <==>
              || Depth(p) > 16 || NodeCount(p) > 64
              || exists c :: Occurs(c, p) && c.Comparison? && !WellBound(r, c)
  {
    hide AcceptedRelation, OperationFactsHold, BindingsHold, Occurs, WellBound, DecideFromMatches, Fallback;
    AcceptedFactsHold(r, op);
    BindingsHoldIff(r, request.predicate');
  }

  /** Of a mapping built for a package, the classifier's own checks ask no more than the operation's name. */
  lemma PackageFactsIff(op: Operation, m: PredicateMapping)
    requires BuiltAsPackageMapping(m)
    ensures FactsHold(op, m) <==> m.operationName == op.name
  {
  }

  // ----- The limits of a request

  /** `n` untranslated positions side by side. */
  function Flat(n: nat): RequestedPredicate {
    Conjunction(seq(n, (i: nat) => Unsupported(i)))
  }

  /** A comparison under `n` negations. */
  function Negated(n: nat, p: RequestedPredicate): RequestedPredicate {
    if n == 0 then p else Negation(Negated(n - 1, p))
  }

  lemma {:induction false} LeafSizes(ps: seq<RequestedPredicate>)
    requires forall i :: 0 <= i < |ps| ==> ps[i].Unsupported?
    ensures NodeCountOfAll(ps) == |ps| && DepthOfAll(ps) == if ps == [] then 0 else 1
  {
    if ps != [] {
      LeafSizes(ps[1..]);
    }
  }

  lemma {:induction false} NegatedSizes(n: nat, p: RequestedPredicate)
    requires p.Unsupported?
    ensures NodeCount(Negated(n, p)) == Depth(Negated(n, p)) == n + 1 && WellFormed(Negated(n, p))
  {
    if n > 0 {
      NegatedSizes(n - 1, p);
    }
  }

  /** The ceilings are exact: sixty-four nodes and sixteen levels. */
  lemma LimitsAreExact(n: nat)
    ensures Buildable(Flat(n)) <==> 2 <= n <= 63
    ensures Buildable(Negated(n, Unsupported(0))) <==> n <= 15
  {
    var leaves := Flat(n).children;
    LeafSizes(leaves);
    var flat := Flat(n);
    assert flat.Conjunction? && flat.children == leaves && |leaves| == n;
    assert NodeCount(flat) == 1 + NodeCountOfAll(flat.children);
    assert Depth(flat) == Max(1, DepthOfAll(flat.children) + 1);
    forall i | 0 <= i < n ensures WellFormed(leaves[i]) {
      assert leaves[i].Unsupported?;
    }
    assert WellFormed(flat) <==> n >= 2;
    NegatedSizes(n, Unsupported(0));
  }
}

/** Exactly when a plan is Exact, said of the requested tree alone. */
module ExactPlans {
  import opened Results
  import opened Scalars
  import opened Predicates
  import opened Catalog
  import opened PredicateClassifier
  import opened CatalogValidation
  import opened PlanStability
  import Pushdown

  /** Among the mappings of the relation, `m` alone serves the comparison `c`. */
  predicate ServedAlone(r: Relation, op: Operation, m: PredicateMapping, c: RequestedPredicate) {
    && Matches(r, op, m, c)
    && forall i :: 0 <= i < |r.mappings| && Matches(r, op, r.mappings[i], c) ==> r.mappings[i] == m
  }

  /** Through conjunctions, `p` consists of comparisons that `m` alone serves and of nothing else. */
  predicate Repeats(r: Relation, op: Operation, m: PredicateMapping, p: RequestedPredicate) {
    match p
    case Unrestricted => true
    case Comparison(_, _, _) => ServedAlone(r, op, m, p)
    case Conjunction(children) => forall i :: 0 <= i < |children| ==> Repeats(r, op, m, children[i])
    case _ => false
  }

  /** The number of comparisons reachable through conjunctions. */
  function Comparisons(p: RequestedPredicate): nat
    decreases p, 1
  {
    match p
    case Comparison(_, _, _) => 1
    case Conjunction(children) => ComparisonsOfAll(children)
    case _ => 0
  }

  function ComparisonsOfAll(ps: seq<RequestedPredicate>): nat
    decreases ps, 0
  {
    if ps == [] then 0 else Comparisons(ps[0]) + ComparisonsOfAll(ps[1..])
  }

  /** One Exact mapping serves the whole tree: a comparison, or a conjunction with as many comparisons as children. */
  predicate ServedExactly(r: Relation, op: Operation, m: PredicateMapping, p: RequestedPredicate) {
    && m.accuracy == Exact
    && Repeats(r, op, m, p)
    && (p.Comparison? || (p.Conjunction? && Comparisons(p) == |p.children| > 0))
  }

  // ----- Declared mappings of one operation differ

  lemma MappingsDiffer(r: Relation, op: Operation, c: RequestedPredicate, i: nat, j: nat)
    requires AcceptedRelation(r) && i < j < |r.mappings|
    requires Matches(r, op, r.mappings[i], c) && Matches(r, op, r.mappings[j], c)
    ensures r.mappings[i].remoteInputName != r.mappings[j].remoteInputName
    ensures !PackageOnly(r)
  {
    assert PairAccepted(r.mappings[i], r.mappings[j]);
    assert MappingAccepted(r, r.mappings[i]) && MappingAccepted(r, r.mappings[j]);
  }

  /** In a package relation a mapping that serves a comparison serves it alone. */
  lemma PackageServesAlone(r: Relation, op: Operation, m: PredicateMapping, c: RequestedPredicate)
    requires AcceptedPackageRelation(r) && m in r.mappings && Matches(r, op, m, c)
    ensures ServedAlone(r, op, m, c)
  {
    hide Matches, AcceptedRelation, PackageOnly;
    var k :| 0 <= k < |r.mappings| && r.mappings[k] == m;
    forall i | 0 <= i < |r.mappings| && Matches(r, op, r.mappings[i], c) ensures r.mappings[i] == m {
      if i < k {
        MappingsDiffer(r, op, c, i, k);
      } else if k < i {
        MappingsDiffer(r, op, c, k, i);
      }
    }
  }

  lemma {:induction false} NoMatch(r: Relation, op: Operation, ms: seq<PredicateMapping>, c: RequestedPredicate)
    requires forall i :: 0 <= i < |ms| ==> !Matches(r, op, ms[i], c)
    ensures LeafMatches(r, op, ms, c) == []
  {
    hide Matches;
    if ms != [] {
      NoMatch(r, op, ms[1..], c);
    }
  }

  lemma {:induction false} OneMatch(r: Relation, op: Operation, ms: seq<PredicateMapping>, c: RequestedPredicate,
                                    k: nat)
    requires k < |ms| && Matches(r, op, ms[k], c)
    requires forall i :: 0 <= i < |ms| && i != k ==> !Matches(r, op, ms[i], c)
    ensures LeafMatches(r, op, ms, c) == [Match(ms[k], c)]
  {
    hide Matches;
    if k > 0 {
      OneMatch(r, op, ms[1..], c, k - 1);
    } else {
      NoMatch(r, op, ms[1..], c);
    }
  }

  /** A comparison that one mapping serves alone has that one match. */
  lemma AloneHasOneMatch(r: Relation, op: Operation, m: PredicateMapping, c: RequestedPredicate)
    requires AcceptedRelation(r) && m in r.mappings && ServedAlone(r, op, m, c)
    ensures LeafMatches(r, op, r.mappings, c) == [Match(m, c)]
  {
    hide Matches, AcceptedRelation, LeafMatches, PackageOnly;
    var k :| 0 <= k < |r.mappings| && r.mappings[k] == m;
    forall i | 0 <= i < |r.mappings| && i != k ensures !Matches(r, op, r.mappings[i], c) {
      if Matches(r, op, r.mappings[i], c) {
        assert r.mappings[i] == m;
        if i < k {
          MappingsDiffer(r, op, c, i, k);
        } else {
          MappingsDiffer(r, op, c, k, i);
        }
      }
    }
    OneMatch(r, op, r.mappings, c, k);
  }

  // ----- A repeated comparison, seen by the walk

  lemma {:induction false} RepeatsCollects(r: Relation, op: Operation, m: PredicateMapping, p: RequestedPredicate)
    requires AcceptedRelation(r) && m in r.mappings && Repeats(r, op, m, p)
    ensures !HasUnmapped(r, op, p) && |ConjunctiveMatches(r, op, p)| == Comparisons(p)
    ensures forall k :: 0 <= k < |ConjunctiveMatches(r, op, p)| ==> ConjunctiveMatches(r, op, p)[k].mapping == m
    decreases p, 1
  {
    hide ServedAlone, AcceptedRelation, LeafMatches;
    match p {
      case Unrestricted =>
      case Comparison(_, _, _) => AloneHasOneMatch(r, op, m, p);
      case Conjunction(children) => RepeatsCollectsAll(r, op, m, children);
    }
  }

  lemma {:induction false} RepeatsCollectsAll(r: Relation, op: Operation, m: PredicateMapping,
                                              ps: seq<RequestedPredicate>)
    requires AcceptedRelation(r) && m in r.mappings && forall i :: 0 <= i < |ps| ==> Repeats(r, op, m, ps[i])
    ensures forall i :: 0 <= i < |ps| ==> !HasUnmapped(r, op, ps[i])
    ensures |MatchesOfAll(r, op, ps)| == ComparisonsOfAll(ps)
    ensures forall k :: 0 <= k < |MatchesOfAll(r, op, ps)| ==> MatchesOfAll(r, op, ps)[k].mapping == m
    decreases ps, 0
  {
    hide AcceptedRelation, LeafMatches, Repeats, HasUnmapped, ConjunctiveMatches, Comparisons;
    if ps != [] {
      RepeatsCollects(r, op, m, ps[0]);
      RepeatsCollectsAll(r, op, m, ps[1..]);
      forall i | 0 <= i < |ps| ensures !HasUnmapped(r, op, ps[i]) {
        assert i > 0 ==> ps[i] == ps[1..][i - 1];
      }
    }
  }

  lemma {:induction false} MatchIsCollected(r: Relation, op: Operation, ms: seq<PredicateMapping>,
                                            c: RequestedPredicate, k: nat)
    requires k < |ms| && Matches(r, op, ms[k], c)
    ensures Match(ms[k], c) in LeafMatches(r, op, ms, c)
  {
    hide Matches;
    if k > 0 {
      MatchIsCollected(r, op, ms[1..], c, k - 1);
    }
  }

  lemma {:induction false} CollectedRepeats(r: Relation, op: Operation, m: PredicateMapping, p: RequestedPredicate)
    requires !HasUnmapped(r, op, p)
    requires forall k :: 0 <= k < |ConjunctiveMatches(r, op, p)| ==> ConjunctiveMatches(r, op, p)[k].mapping == m
    ensures Repeats(r, op, m, p)
    decreases p, 1
  {
    hide Matches;
    match p {
      case Unrestricted =>
      case Comparison(_, _, _) =>
        LeafMatchesAreMatches(r, op, r.mappings, p, 0);
        assert ConjunctiveMatches(r, op, p)[0].mapping == m;
        forall i | 0 <= i < |r.mappings| && Matches(r, op, r.mappings[i], p) ensures r.mappings[i] == m {
          MatchIsCollected(r, op, r.mappings, p, i);
        }
      case Conjunction(children) =>
        assert ConjunctiveMatches(r, op, p) == MatchesOfAll(r, op, children);
        CollectedRepeatsAll(r, op, m, children);
    }
  }

  lemma {:induction false} CollectedRepeatsAll(r: Relation, op: Operation, m: PredicateMapping,
                                               ps: seq<RequestedPredicate>)
    requires forall i :: 0 <= i < |ps| ==> !HasUnmapped(r, op, ps[i])
    requires forall k :: 0 <= k < |MatchesOfAll(r, op, ps)| ==> MatchesOfAll(r, op, ps)[k].mapping == m
    ensures forall i :: 0 <= i < |ps| ==> Repeats(r, op, m, ps[i])
    decreases ps, 0
  {
    hide Matches, LeafMatches, Repeats, HasUnmapped, ConjunctiveMatches;
    if ps != [] {
      var first, rest := ConjunctiveMatches(r, op, ps[0]), MatchesOfAll(r, op, ps[1..]);
      var all := MatchesOfAll(r, op, ps);
      assert forall k :: 0 <= k < |first| ==> all[k] == first[k];
      assert forall k :: 0 <= k < |rest| ==> all[|first| + k] == rest[k];
      CollectedRepeats(r, op, m, ps[0]);
      CollectedRepeatsAll(r, op, m, ps[1..]);
      forall i | 0 <= i < |ps| ensures Repeats(r, op, m, ps[i]) {
        assert i > 0 ==> ps[i] == ps[1..][i - 1];
      }
    }
  }

  // ----- Exact decisions

  lemma ServedIsExact(r: Relation, op: Operation, request: ScanRequest, m: PredicateMapping)
    requires AcceptedRelation(r) && ContractHolds(r, request)
    requires request.selectivePredicate && request.retainsPredicate
    requires m in r.mappings && ServedExactly(r, op, m, request.predicate')
    ensures Decide(r, op, request).Ok? && Decide(r, op, request).value.category == CategoryExact
  {
    hide Matches, AcceptedRelation, LeafMatches, Repeats, HasUnmapped, ConjunctiveMatches, OperationFactsHold;
    var p := request.predicate';
    var matches := ConjunctiveMatches(r, op, p);
    AcceptedFactsHold(r, op);
    RepeatsCollects(r, op, m, p);
    forall i | 1 <= i < |matches| ensures SameMappingAndBinding(matches[0], matches[i]) {
      SameMappingSameMatch(r, op, p, 0, i);
    }
  }

  lemma ExactIsServed(r: Relation, op: Operation, request: ScanRequest)
    requires AcceptedRelation(r) && Decide(r, op, request).Ok?
    requires Decide(r, op, request).value.category == CategoryExact
    ensures var matches := ConjunctiveMatches(r, op, request.predicate');
            && matches != [] && matches[0].mapping in r.mappings
            && ServedExactly(r, op, matches[0].mapping, request.predicate')
  {
    hide Matches, AcceptedRelation, LeafMatches, Repeats, HasUnmapped, ConjunctiveMatches, OperationFactsHold;
    var p := request.predicate';
    var matches := ConjunctiveMatches(r, op, p);
    var m := matches[0].mapping;
    ConjunctiveMatchesAreMatches(r, op, p, 0);
    forall k | 0 <= k < |matches| ensures matches[k].mapping == m {
      assert k == 0 || SameMappingAndBinding(matches[0], matches[k]);
      MatchDeterminedByBinding(r, op, p, 0, k);
    }
    CollectedRepeats(r, op, m, p);
    RepeatsCollects(r, op, m, p);
  }

  /** With both capabilities, the plan of any accepted relation is Exact if and only if one Exact mapping serves the
      whole tree alone. */
  lemma ExactIff(r: Relation, op: Operation, request: ScanRequest)
    requires AcceptedRelation(r) && ContractHolds(r, request)
    requires request.selectivePredicate && request.retainsPredicate
    ensures Decide(r, op, request).Ok?
    ensures Decide(r, op, request).value.category == CategoryExact <==>
              exists m :: m in r.mappings && ServedExactly(r, op, m, request.predicate')
  {
    hide *;
    OperationDecides(r, op, request);
    if exists m :: m in r.mappings && ServedExactly(r, op, m, request.predicate') {
      var m :| m in r.mappings && ServedExactly(r, op, m, request.predicate');
      ServedIsExact(r, op, request, m);
    }
    if Decide(r, op, request).value.category == CategoryExact {
      ExactIsServed(r, op, request);
    }
  }

  lemma OperationDecides(r: Relation, op: Operation, request: ScanRequest)
    requires AcceptedRelation(r) && ContractHolds(r, request)
    ensures Decide(r, op, request).Ok?
  {
    hide OperationFactsHold, ConjunctiveMatches, HasUnmapped, MappingsAccepted;
    AcceptedFactsHold(r, op);
  }

  // ----- Equivalent and not Exact

  /** A comparison repeated beside and below a nested conjunction: three comparisons under two children. */
  function Nested(c: RequestedPredicate): RequestedPredicate {
    Conjunction([c, Conjunction([c, c])])
  }

  lemma NestedIsBuildable(c: RequestedPredicate)
    requires c.Comparison? && WellFormed(c)
    ensures Buildable(Nested(c))
  {
    var twice := [c, c];
    assert twice[1..] == [c] && twice[1..][1..] == [];
    assert DepthOfAll(twice[1..]) == 1 && NodeCountOfAll(twice[1..]) == 1;
    assert DepthOfAll(twice) == 1 && NodeCountOfAll(twice) == 2;
    var outer := [c, Conjunction(twice)];
    assert outer[1..] == [Conjunction(twice)] && outer[1..][1..] == [];
    assert Depth(Conjunction(twice)) == 2 && NodeCount(Conjunction(twice)) == 3;
    assert DepthOfAll([Conjunction(twice)]) == 2 && NodeCountOfAll([Conjunction(twice)]) == 3;
    assert DepthOfAll(outer[1..]) == 2 && NodeCountOfAll(outer[1..]) == 3;
    assert DepthOfAll(outer) == 2 && NodeCountOfAll(outer) == 4;
  }

  lemma NestedMeansItsComparison(r: Relation, op: Operation, m: PredicateMapping, c: RequestedPredicate, row: Row,
                                 untranslated: nat -> Truth)
    requires c.Comparison? && ServedAlone(r, op, m, c)
    ensures Repeats(r, op, m, Nested(c)) && Comparisons(Nested(c)) == 3
    ensures Eval(Nested(c), row, untranslated) == Eval(c, row, untranslated)
  {
    hide ServedAlone, ColumnEquals;
    var twice := [c, c];
    assert twice[1..] == [c] && twice[1..][1..] == [];
    assert ComparisonsOfAll(twice) == Comparisons(c) + ComparisonsOfAll(twice[1..]);
    assert EvalAll(twice[1..], row, untranslated) == And(Eval(c, row, untranslated), EvalAll([], row, untranslated));
    assert EvalAll(twice, row, untranslated) == Eval(c, row, untranslated);
    var inner := Conjunction(twice);
    var outer := [c, inner];
    assert outer[1..] == [inner] && outer[1..][1..] == [];
    assert ComparisonsOfAll(outer) == Comparisons(c) + ComparisonsOfAll(outer[1..]);
    assert ComparisonsOfAll(outer[1..]) == Comparisons(inner);
    assert EvalAll(outer[1..], row, untranslated)
        == And(Eval(inner, row, untranslated), EvalAll([], row, untranslated));
    assert EvalAll(outer, row, untranslated) == And(Eval(c, row, untranslated), EvalAll(outer[1..], row, untranslated));
    assert Repeats(r, op, m, c) && Repeats(r, op, m, inner);
  }

  /** Equivalence is not enough for Exact: although one Exact mapping serves every comparison of this tree, which a
      query can build, and the tree has the truth of the mapped equality on every row, its plan is a Superset, because
      comparisons and children are counted. */
  lemma NestedRepeatIsSuperset(r: Relation, op: Operation, request: ScanRequest, m: PredicateMapping,
                               c: RequestedPredicate, row: Row, untranslated: nat -> Truth)
    requires AcceptedRelation(r) && ContractHolds(r, request)
    requires request.selectivePredicate && request.retainsPredicate
    requires m in r.mappings && m.accuracy == Exact && ServedAlone(r, op, m, c) && request.predicate' == Nested(c)
    ensures Buildable(request.predicate')
    ensures Decide(r, op, request).Ok? && Decide(r, op, request).value.category == CategorySuperset
    ensures Eval(request.predicate', row, untranslated) == Pushdown.RemoteTruth(r, Decide(r, op, request).value, row)
  {
    hide Matches, AcceptedRelation, LeafMatches, OperationFactsHold, ConjunctiveMatches, HasUnmapped, Eval,
         Comparisons, Repeats, Buildable, Pushdown.RemoteTruth, Pushdown.MappingTruth, Pushdown.CatalogRelation;
    var p := request.predicate';
    var matches := ConjunctiveMatches(r, op, p);
    AcceptedFactsHold(r, op);
    AcceptedIsCatalogRelation(r);
    ComparisonOf(r, op, m, c);
    assert BindingsHold(r, p.children[0]);
    NestedIsBuildable(c);
    NestedMeansItsComparison(r, op, m, c, row, untranslated);
    RepeatsCollects(r, op, m, p);
    SameMappingSameMatch(r, op, p, 0, 1);
    SameMappingSameMatch(r, op, p, 0, 2);
    var d := Decide(r, op, request).value;
    Pushdown.RemoteTruthIsFirstMatch(r, op, request, d, row);
    Pushdown.MatchMeansEquality(r, op, m, c, row, untranslated);
  }

  /** The relation of the exactness fixtures is such a case. */
  lemma ControlledNestedIsSuperset(request: ScanRequest, row: Row, untranslated: nat -> Truth)
    requires request.selectivePredicate && request.retainsPredicate
    requires request.predicate' == Nested(Comparison(0, Varchar, VarcharScalar("private")))
    ensures var r, op := ControlledRelation([BY_VISIBILITY]), ControlledOperation();
            && AcceptedRelation(r) && ContractHolds(r, request) && Buildable(request.predicate')
            && Decide(r, op, request).Ok? && Decide(r, op, request).value.category == CategorySuperset
            && Eval(request.predicate', row, untranslated) == Pushdown.RemoteTruth(r, Decide(r, op, request).value, row)
  {
    hide AcceptedRelation, Decide, Eval, Pushdown.RemoteTruth, ProofIdentityName, BaseDomainName, Depth, NodeCount;
    var r, op := ControlledRelation([BY_VISIBILITY]), ControlledOperation();
    var c := Comparison(0, Varchar, VarcharScalar("private"));
    ControlledIsAccepted();
    NestedIsBuildable(c);
    assert BindingsHold(r, c);
    assert BindingsHold(r, Conjunction([c, c]));
    assert Matches(r, op, BY_VISIBILITY, c);
    NestedRepeatIsSuperset(r, op, request, BY_VISIBILITY, c, row, untranslated);
  }

  lemma ComparisonOf(r: Relation, op: Operation, m: PredicateMapping, c: RequestedPredicate)
    requires Matches(r, op, m, c)
    ensures c.Comparison?
  {
  }
}

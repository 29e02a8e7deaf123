/** What a remote restriction means for the rows of a query. A response is any bag of base rows
    that the occurrence law of the chosen mapping allows. */
module Pushdown {
  import opened Results
  import opened Scalars
  import opened Predicates
  import opened Catalog
  import opened PredicateClassifier

  // ----- Relations the catalog accepts, as far as matching depends on them

  ghost predicate DistinctColumns(r: Relation) {
    forall i, j :: 0 <= i < j < |r.columns| ==> r.columns[i].name != r.columns[j].name
  }

  /** A native mapping is always `visibility = 'private'`: its constructor fixes the literal and
      both accepted proof profiles fix the column. */
  predicate NativeMappingsAreVisibility(r: Relation) {
    forall i :: 0 <= i < |r.mappings| && r.mappings[i].literalForm == VarcharPrivate ==>
      && r.mappings[i].columnName == "visibility"
      && r.mappings[i].typedLiteral == Concrete(VarcharScalar("private"))
  }

  ghost predicate CatalogRelation(r: Relation) {
    DistinctColumns(r) && NativeMappingsAreVisibility(r)
  }

  // ----- Meaning of a decision

  /** SQL equality of the column called `name` with `value`. */
  function NamedColumnEquals(columns: seq<Column>, name: string, value: ScalarValue, row: Row, at: nat := 0): Truth
    decreases |columns|
  {
    if columns == [] then Unknown
    else if columns[0].name == name then ColumnEquals(row, at, value)
    else NamedColumnEquals(columns[1..], name, value, row, at + 1)
  }

  /** The restriction the remote service is asked for, read off the plan alone. */
  function RemoteTruth(r: Relation, d: Decision, row: Row): Truth {
    match d.remotePredicate
    case TypedEquality =>
      if d.equality.Some? then NamedColumnEquals(r.columns, d.equality.value.columnName, d.equality.value.value, row)
      else Unknown
    case VisibilityEqualsPrivate => NamedColumnEquals(r.columns, "visibility", VarcharScalar("private"), row)
    case _ => True
  }

  /** The law the response obeys, read off the plan alone. */
  function PlannedLaw(d: Decision): OccurrenceLaw {
    if d.remotePredicate == TypedEquality && d.equality.Some? then d.equality.value.occurrenceLaw
    else if d.remoteAccuracy == RemoteExact then PreservesExactMatching
    else PreservesAllMatching
  }

  /** The rows of a bag on which `keep` holds, with their multiplicities. */
  ghost function Selected(bag: multiset<Row>, keep: Row -> bool): (kept: multiset<Row>)
    ensures forall row :: kept[row] == if keep(row) then bag[row] else 0
    decreases |bag|
  {
    if bag == multiset{} then multiset{}
    else
      var row :| row in bag;
      Selected(bag[row := 0], keep) + (if keep(row) then multiset{}[row := bag[row]] else multiset{})
  }

  /** The bags a remote service may return for a plan over a base domain. */
  ghost predicate AllowedResponse(r: Relation, d: Decision, base: multiset<Row>, response: multiset<Row>) {
    var matching := Selected(base, row => RemoteTruth(r, d, row) == True);
    if d.remotePredicate == TrueForBaseDomain then response == base
    else if PlannedLaw(d) == PreservesExactMatching then response == matching
    else matching <= response <= base
  }

  // ----- A match speaks about its candidate

  lemma NamedColumnFound(columns: seq<Column>, name: string, value: ScalarValue, row: Row, at: nat, k: nat)
    requires k < |columns| && columns[k].name == name
    requires forall i, j :: 0 <= i < j < |columns| ==> columns[i].name != columns[j].name
    ensures NamedColumnEquals(columns, name, value, row, at) == ColumnEquals(row, at + k, value)
    decreases k
  {
    if k > 0 {
      NamedColumnFound(columns[1..], name, value, row, at + 1, k - 1);
    }
  }

  /** The equality a mapping stands for. */
  function MappingTruth(r: Relation, m: PredicateMapping, row: Row): Truth {
    if m.typedLiteral.Concrete? then NamedColumnEquals(r.columns, m.columnName, m.typedLiteral.value, row) else Unknown
  }

  lemma MatchMeansEquality(r: Relation, op: Operation, m: PredicateMapping, c: RequestedPredicate, row: Row,
                           untranslated: nat -> Truth)
    requires CatalogRelation(r) && m in r.mappings && Matches(r, op, m, c)
    ensures Eval(c, row, untranslated) == MappingTruth(r, m, row)
  {
    NamedColumnFound(r.columns, m.columnName, c.literal, row, 0, c.column);
  }

  // ----- A true conjunction makes every collected candidate true

  lemma TrueTreeMakesMatchesTrue(r: Relation, op: Operation, p: RequestedPredicate, row: Row,
                                 untranslated: nat -> Truth, k: nat)
    requires k < |ConjunctiveMatches(r, op, p)|
    requires Eval(p, row, untranslated) == True
    ensures Eval(ConjunctiveMatches(r, op, p)[k].candidate, row, untranslated) == True
    decreases p, 1
  {
    match p {
      case Comparison(_, _, _) => LeafMatchesAreMatches(r, op, r.mappings, p, k);
      case Conjunction(children) => TrueChildrenMakeMatchesTrue(r, op, children, row, untranslated, k);
    }
  }

  lemma TrueChildrenMakeMatchesTrue(r: Relation, op: Operation, ps: seq<RequestedPredicate>, row: Row,
                                    untranslated: nat -> Truth, k: nat)
    requires k < |MatchesOfAll(r, op, ps)|
    requires EvalAll(ps, row, untranslated) == True
    ensures Eval(MatchesOfAll(r, op, ps)[k].candidate, row, untranslated) == True
    decreases ps, 0
  {
    var first := |ConjunctiveMatches(r, op, ps[0])|;
    if k < first {
      TrueTreeMakesMatchesTrue(r, op, ps[0], row, untranslated, k);
    } else {
      TrueChildrenMakeMatchesTrue(r, op, ps[1..], row, untranslated, k - first);
    }
  }

  /** The remote restriction of a selective decision is the equality of its first match. */
  lemma RemoteTruthIsFirstMatch(r: Relation, op: Operation, request: ScanRequest, d: Decision, row: Row)
    requires CatalogRelation(r) && Decide(r, op, request) == Ok(d)
    requires d.category == CategoryExact || d.category == CategorySuperset
    ensures var matches := ConjunctiveMatches(r, op, request.predicate');
            && matches != []
            && RemoteTruth(r, d, row) == MappingTruth(r, matches[0].mapping, row)
            && FactsHold(op, matches[0].mapping)
  {
    ConjunctiveMatchesAreMatches(r, op, request.predicate', 0);
  }

  /** Every decision restricts the scan to rows the requested predicate could still accept: a row on which
      the predicate is TRUE satisfies the restriction. */
  lemma RestrictionKeepsTrueRows(r: Relation, op: Operation, request: ScanRequest, d: Decision, row: Row,
                                 untranslated: nat -> Truth)
    requires CatalogRelation(r) && Decide(r, op, request) == Ok(d)
    requires Eval(request.predicate', row, untranslated) == True
    ensures RemoteTruth(r, d, row) == True
  {
    if d.category == CategoryExact || d.category == CategorySuperset {
      RemoteTruthIsFirstMatch(r, op, request, d, row);
      var m := ConjunctiveMatches(r, op, request.predicate')[0];
      ConjunctiveMatchesAreMatches(r, op, request.predicate', 0);
      TrueTreeMakesMatchesTrue(r, op, request.predicate', row, untranslated, 0);
      MatchMeansEquality(r, op, m.mapping, m.candidate, row, untranslated);
    }
  }

  /** Pushdown preserves meaning: whatever bag the remote service may return for the plan, a DuckDB filter that
      implies the requested predicate keeps from it exactly the rows it keeps from the whole base domain. */
  lemma PushdownPreservesMeaning(r: Relation, op: Operation, request: ScanRequest, d: Decision,
                                 base: multiset<Row>, response: multiset<Row>,
                                 filter: Row -> Truth, untranslated: Row -> nat -> Truth)
    requires CatalogRelation(r) && Decide(r, op, request) == Ok(d)
    requires AllowedResponse(r, d, base, response)
    requires forall row :: filter(row) == True ==> Eval(request.predicate', row, untranslated(row)) == True
    ensures Selected(response, row => filter(row) == True) == Selected(base, row => filter(row) == True)
  {
    var keep := row => filter(row) == True;
    forall row ensures Selected(response, keep)[row] == Selected(base, keep)[row] {
      if keep(row) {
        RestrictionKeepsTrueRows(r, op, request, d, row, untranslated(row));
        assert Selected(base, x => RemoteTruth(r, d, x) == True)[row] == base[row];
        assert response[row] == base[row];
      }
    }
  }

  // ----- Exact decisions

  /** Every conjunct is unrestricted or a comparison with the truth of `candidate`. */
  lemma EquivalentMatchesDecideTree(r: Relation, op: Operation, p: RequestedPredicate, row: Row,
                                    untranslated: nat -> Truth, truth: Truth)
    requires !HasUnmapped(r, op, p)
    requires forall k :: 0 <= k < |ConjunctiveMatches(r, op, p)| ==>
               Eval(ConjunctiveMatches(r, op, p)[k].candidate, row, untranslated) == truth
    ensures Eval(p, row, untranslated) == if ConjunctiveMatches(r, op, p) == [] then True else truth
    decreases p, 1
  {
    match p {
      case Unrestricted =>
      case Comparison(_, _, _) => LeafMatchesAreMatches(r, op, r.mappings, p, 0);
      case Conjunction(children) =>
        assert ConjunctiveMatches(r, op, p) == MatchesOfAll(r, op, children);
        EquivalentMatchesDecideChildren(r, op, children, row, untranslated, truth);
    }
  }

  lemma EquivalentMatchesDecideChildren(r: Relation, op: Operation, ps: seq<RequestedPredicate>, row: Row,
                                        untranslated: nat -> Truth, truth: Truth)
    requires forall i :: 0 <= i < |ps| ==> !HasUnmapped(r, op, ps[i])
    requires forall k :: 0 <= k < |MatchesOfAll(r, op, ps)| ==>
               Eval(MatchesOfAll(r, op, ps)[k].candidate, row, untranslated) == truth
    ensures EvalAll(ps, row, untranslated) == if MatchesOfAll(r, op, ps) == [] then True else truth
    decreases ps, 0
  {
    if ps != [] {
      var first, rest := ConjunctiveMatches(r, op, ps[0]), MatchesOfAll(r, op, ps[1..]);
      var all := MatchesOfAll(r, op, ps);
      assert forall k :: 0 <= k < |first| ==> all[k] == first[k];
      assert forall k :: 0 <= k < |rest| ==> all[|first| + k] == rest[k];
      EquivalentMatchesDecideTree(r, op, ps[0], row, untranslated, truth);
      EquivalentMatchesDecideChildren(r, op, ps[1..], row, untranslated, truth);
    }
  }

  /** Exact means equivalent: the whole requested tree has, on every row, the three-valued truth of the one mapped
      equality. */
  lemma ExactMeansEquivalent(r: Relation, op: Operation, request: ScanRequest, d: Decision, row: Row,
                             untranslated: nat -> Truth)
    requires CatalogRelation(r) && Decide(r, op, request) == Ok(d) && d.category == CategoryExact
    ensures Eval(request.predicate', row, untranslated) == RemoteTruth(r, d, row)
  {
    var p := request.predicate';
    var matches := ConjunctiveMatches(r, op, p);
    RemoteTruthIsFirstMatch(r, op, request, d, row);
    ConjunctiveMatchesAreMatches(r, op, p, 0);
    MatchMeansEquality(r, op, matches[0].mapping, matches[0].candidate, row, untranslated);
    forall k | 0 <= k < |matches|
      ensures Eval(matches[k].candidate, row, untranslated) == RemoteTruth(r, d, row)
    {
      ConjunctiveMatchesAreMatches(r, op, p, k);
      assert k == 0 || SameMappingAndBinding(matches[0], matches[k]);
    }
    EquivalentMatchesDecideTree(r, op, p, row, untranslated, RemoteTruth(r, d, row));
  }

  lemma ExactPlanHasExactLaw(r: Relation, op: Operation, request: ScanRequest, d: Decision)
    requires CatalogRelation(r) && Decide(r, op, request) == Ok(d) && d.category == CategoryExact
    ensures d.remotePredicate != TrueForBaseDomain && PlannedLaw(d) == PreservesExactMatching
  {
    RemoteTruthIsFirstMatch(r, op, request, d, []);
  }

  /** An Exact plan needs no residual: the only response it allows is the requested selection of the base. */
  lemma ExactResponseIsTheAnswer(r: Relation, op: Operation, request: ScanRequest, d: Decision,
                                 base: multiset<Row>, response: multiset<Row>, untranslated: Row -> nat -> Truth)
    requires CatalogRelation(r) && Decide(r, op, request) == Ok(d) && d.category == CategoryExact
    requires AllowedResponse(r, d, base, response)
    ensures response == Selected(base, row => Eval(request.predicate', row, untranslated(row)) == True)
  {
    hide Eval, RemoteTruth, Decide, CatalogRelation, PlannedLaw;
    var p := request.predicate';
    var asked := row => Eval(p, row, untranslated(row)) == True;
    ExactPlanHasExactLaw(r, op, request, d);
    forall row ensures response[row] == Selected(base, asked)[row] {
      ExactMeansEquivalent(r, op, request, d, row, untranslated(row));
    }
  }

  // ----- The whole plan: remote restriction and residual

  /** The requests the planner admits agree on whether there is a predicate at all. */
  predicate ScopeAgrees(request: ScanRequest) {
    && (request.predicate'.Unrestricted? ==> request.scope != RetainRequestedPredicate)
    && (!request.predicate'.Unrestricted? ==> request.scope != RetainNothing)
  }

  /** Some position of the tree is one the query could not translate. */
  predicate ContainsOpaquePosition(p: RequestedPredicate) {
    match p
    case Unsupported(_) => true
    case Conjunction(children) => exists i :: 0 <= i < |children| && ContainsOpaquePosition(children[i])
    case Disjunction(children) => exists i :: 0 <= i < |children| && ContainsOpaquePosition(children[i])
    case Negation(child) => ContainsOpaquePosition(child)
    case _ => false
  }

  /** The planner's admission rules for predicate and scope: besides, a filter of which the request is only a part must
      have left a mark in the request. */
  predicate Admitted(request: ScanRequest) {
    && ScopeAgrees(request)
    && (!request.predicate'.Unrestricted? && request.scope == RetainCompleteFilter ==>
          ContainsOpaquePosition(request.predicate'))
  }

  lemma {:induction false} OpaqueIsUnmapped(r: Relation, op: Operation, p: RequestedPredicate)
    requires ContainsOpaquePosition(p)
    ensures HasUnmapped(r, op, p)
  {
    if p.Conjunction? {
      var i :| 0 <= i < |p.children| && ContainsOpaquePosition(p.children[i]);
      OpaqueIsUnmapped(r, op, p.children[i]);
    }
  }

  /** An admitted request that is only a part of DuckDB's filter is never planned Exact. */
  lemma PartialRequestIsNotExact(r: Relation, op: Operation, request: ScanRequest, d: Decision)
    requires Admitted(request) && request.scope == RetainCompleteFilter && Decide(r, op, request) == Ok(d)
    ensures d.category != CategoryExact && d.residual == CompleteDuckdbFilter
  {
    if !request.predicate'.Unrestricted? {
      OpaqueIsUnmapped(r, op, request.predicate');
    }
  }

  /** DuckDB's own filter on a row, for the scope of a request: nothing, the requested predicate, or a filter of which
      the request is only a necessary part. */
  ghost predicate FilterTruth(request: ScanRequest, row: Row, untranslated: nat -> Truth, filter: Truth) {
    match request.scope
    case RetainNothing => filter == True
    case RetainRequestedPredicate => filter == Eval(request.predicate', row, untranslated)
    case RetainCompleteFilter => filter == True ==> Eval(request.predicate', row, untranslated) == True
  }

  /** What DuckDB evaluates on the returned rows, read off the plan. */
  function ResidualTruth(r: Relation, d: Decision, row: Row, filter: Truth): Truth {
    match d.residual
    case TrueForBaseDomain => True
    case CompleteDuckdbFilter => filter
    case TypedEquality =>
      if d.equality.Some? then NamedColumnEquals(r.columns, d.equality.value.columnName, d.equality.value.value, row)
      else Unknown
    case VisibilityEqualsPrivate => NamedColumnEquals(r.columns, "visibility", VarcharScalar("private"), row)
  }

  /** The planned residual is DuckDB's filter, row by row and in all three truth values. */
  lemma ResidualIsFilter(r: Relation, op: Operation, request: ScanRequest, d: Decision, row: Row,
                         untranslated: nat -> Truth, filter: Truth)
    requires CatalogRelation(r) && Decide(r, op, request) == Ok(d)
    requires FilterTruth(request, row, untranslated, filter)
    ensures ResidualTruth(r, d, row, filter) == filter
  {
    if d.residual == TypedEquality || d.residual == VisibilityEqualsPrivate {
      var p := request.predicate';
      var m := LeafMatches(r, op, r.mappings, p)[0];
      LeafMatchesAreMatches(r, op, r.mappings, p, 0);
      MatchMeansEquality(r, op, m.mapping, p, row, untranslated);
    }
  }

  /** A plan answers its query: the residual keeps from any response the service may give exactly the rows, with their
      multiplicities, that DuckDB's filter keeps from the base domain. */
  lemma PlanAnswersQuery(r: Relation, op: Operation, request: ScanRequest, d: Decision,
                         base: multiset<Row>, response: multiset<Row>,
                         filter: Row -> Truth, untranslated: Row -> nat -> Truth)
    requires CatalogRelation(r) && Decide(r, op, request) == Ok(d) && ScopeAgrees(request)
    requires AllowedResponse(r, d, base, response)
    requires forall row :: FilterTruth(request, row, untranslated(row), filter(row))
    ensures Selected(response, row => ResidualTruth(r, d, row, filter(row)) == True)
         == Selected(base, row => filter(row) == True)
  {
    hide Decide, CatalogRelation, AllowedResponse, ResidualTruth;
    forall row ensures filter(row) == True ==> Eval(request.predicate', row, untranslated(row)) == True {
      assert FilterTruth(request, row, untranslated(row), filter(row));
    }
    PushdownPreservesMeaning(r, op, request, d, base, response, filter, untranslated);
    var residual := row => ResidualTruth(r, d, row, filter(row)) == True;
    forall row ensures Selected(response, residual)[row] == Selected(response, x => filter(x) == True)[row] {
      ResidualIsFilter(r, op, request, d, row, untranslated(row), filter(row));
    }
  }
}

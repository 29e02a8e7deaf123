/** Selection of the base operation of a scan. */
module OperationSelection {
  import opened Results
  import opened Predicates
  import opened Catalog
  import opened PredicateClassifier
  import opened CatalogValidation
  import opened PlanStability
  import opened Bags

  datatype InputState = BoundValue | BoundNull | Unbound
  datatype ResolvedInput = ResolvedInput(name: string, state: InputState)

  function FindInput(inputs: seq<ResolvedInput>, id: string): Option<ResolvedInput> {
    if inputs == [] then None
    else if inputs[0].name == id then Some(inputs[0])
    else FindInput(inputs[1..], id)
  }

  /** More required inputs first, then the larger priority. */
  datatype Rank = Rank(specificity: nat, priority: int)

  predicate HigherRank(left: Rank, right: Rank) {
    left.specificity > right.specificity || (left.specificity == right.specificity && left.priority > right.priority)
  }

  // ----- Eligibility, stated on the matches of the requested predicate

  predicate BoundBy(matches: seq<Match>, id: string) {
    exists i :: 0 <= i < |matches| && matches[i].mapping.remoteInputName == id
  }

  predicate ReferenceSatisfied(reference: InputReference, inputs: seq<ResolvedInput>, matches: seq<Match>) {
    match reference.kind
    case RelationInputReference =>
      FindInput(inputs, reference.id).Some? && FindInput(inputs, reference.id).value.state == BoundValue
    case ConditionalInputReference => BoundBy(matches, reference.id)
  }

  predicate AllBound(matches: seq<Match>, ids: seq<string>) {
    forall i :: 0 <= i < |ids| ==> BoundBy(matches, ids[i])
  }

  predicate NoneBound(matches: seq<Match>, ids: seq<string>) {
    forall i :: 0 <= i < |ids| ==> !BoundBy(matches, ids[i])
  }

  /** The largest satisfied alternative, if any is satisfied. */
  function LargestSatisfied(alternatives: seq<seq<string>>, matches: seq<Match>): Option<nat> {
    if alternatives == [] then None
    else
      var before := LargestSatisfied(alternatives[..|alternatives| - 1], matches);
      var last := alternatives[|alternatives| - 1];
      if !AllBound(matches, last) then before
      else Some(if before.Some? && before.value > |last| then before.value else |last|)
  }

  /** The rank of an operation if its inputs make it eligible. */
  function EligibleRank(selector: Selector, inputs: seq<ResolvedInput>, matches: seq<Match>): Option<Rank> {
    if Conflict(matches) then None
    else
      match selector
      case SelectorV1(references) =>
        if forall i :: 0 <= i < |references| ==> ReferenceSatisfied(references[i], inputs, matches)
        then Some(Rank(|references|, 0)) else None
      case LegacySelector(required, alternatives, forbidden, priority) =>
        if !AllBound(matches, required) || !NoneBound(matches, forbidden) then None
        else if alternatives == [] then Some(Rank(|required|, priority))
        else
          var largest := LargestSatisfied(alternatives, matches);
          if largest.None? then None else Some(Rank(|required| + largest.value, priority))
  }

  /** Evaluating an operation raises no contract error. */
  predicate EvaluationDefined(r: Relation, op: Operation, request: ScanRequest) {
    ContractHolds(r, request) && AllFactsHold(op, CandidateMatches(r, op, request))
  }

  function OperationRank(r: Relation, op: Operation, request: ScanRequest, inputs: seq<ResolvedInput>): Option<Rank> {
    EligibleRank(op.selector, inputs, CandidateMatches(r, op, request))
  }

  // ----- Evaluation from the bindings

  method HasConditionalBinding(bindings: CandidateBindings, id: string, ghost matches: seq<Match>) returns (found: bool)
    requires AreBindingsOf(matches, bindings) && !bindings.conflicting
    ensures found <==> BoundBy(matches, id)
  {
    for i := 0 to |bindings.values|
      invariant forall k :: 0 <= k < i ==> bindings.values[k].name != id
    {
      if bindings.values[i].name == id {
        assert bindings.values[i] in bindings.values;
        return true;
      }
    }
    forall k | 0 <= k < |matches| ensures matches[k].mapping.remoteInputName != id {
      assert BindingOf(matches[k]) in bindings.values;
    }
    return false;
  }

  method HasEveryBinding(bindings: CandidateBindings, ids: seq<string>, ghost matches: seq<Match>) returns (all: bool)
    requires AreBindingsOf(matches, bindings) && !bindings.conflicting
    ensures all <==> AllBound(matches, ids)
  {
    for i := 0 to |ids|
      invariant forall k :: 0 <= k < i ==> BoundBy(matches, ids[k])
    {
      var found := HasConditionalBinding(bindings, ids[i], matches);
      if !found {
        return false;
      }
    }
    return true;
  }

  method EvaluateV1(selector: Selector, inputs: seq<ResolvedInput>, bindings: CandidateBindings,
                    ghost matches: seq<Match>)
    returns (rank: Option<Rank>)
    requires selector.SelectorV1? && AreBindingsOf(matches, bindings)
    ensures rank == EligibleRank(selector, inputs, matches)
  {
    if bindings.conflicting {
      return None;
    }
    for i := 0 to |selector.references|
      invariant forall k :: 0 <= k < i ==> ReferenceSatisfied(selector.references[k], inputs, matches)
    {
      var reference := selector.references[i];
      var satisfied;
      match reference.kind {
        case RelationInputReference =>
          var input := FindInput(inputs, reference.id);
          satisfied := input.Some? && input.value.state == BoundValue;
        case ConditionalInputReference =>
          satisfied := HasConditionalBinding(bindings, reference.id, matches);
      }
      if !satisfied {
        return None;
      }
    }
    return Some(Rank(|selector.references|, 0));
  }

  method EvaluateLegacy(selector: Selector, bindings: CandidateBindings, ghost inputs: seq<ResolvedInput>,
                        ghost matches: seq<Match>)
    returns (rank: Option<Rank>)
    requires selector.LegacySelector? && AreBindingsOf(matches, bindings)
    ensures rank == EligibleRank(selector, inputs, matches)
  {
    if bindings.conflicting {
      return None;
    }
    var allRequired := HasEveryBinding(bindings, selector.required, matches);
    if !allRequired {
      return None;
    }
    for i := 0 to |selector.forbidden|
      invariant forall k :: 0 <= k < i ==> !BoundBy(matches, selector.forbidden[k])
    {
      var found := HasConditionalBinding(bindings, selector.forbidden[i], matches);
      if found {
        return None;
      }
    }
    var largest := 0;
    var alternatives := selector.alternatives;
    if alternatives != [] {
      var satisfiedOne := false;
      for i := 0 to |alternatives|
        invariant LargestSatisfied(alternatives[..i], matches) == if satisfiedOne then Some(largest) else None
        invariant !satisfiedOne ==> largest == 0
      {
        assert alternatives[..i + 1][..i] == alternatives[..i];
        var satisfied := HasEveryBinding(bindings, alternatives[i], matches);
        if satisfied {
          satisfiedOne := true;
          largest := if largest > |alternatives[i]| then largest else |alternatives[i]|;
        }
      }
      assert alternatives[..|alternatives|] == alternatives;
      if !satisfiedOne {
        return None;
      }
    }
    return Some(Rank(|selector.required| + largest, selector.priority));
  }

  method Evaluate(r: Relation, op: Operation, request: ScanRequest, inputs: seq<ResolvedInput>)
    returns (out: Result<Option<Rank>, PlanningError>)
    ensures out == if EvaluationDefined(r, op, request) then Ok(OperationRank(r, op, request, inputs))
                   else Err(InvalidContract)
  {
    var bindings :- ResolveCandidateInputBindings(r, op, request);
    var rank;
    if op.selector.LegacySelector? {
      rank := EvaluateLegacy(op.selector, bindings, inputs, CandidateMatches(r, op, request));
    } else {
      rank := EvaluateV1(op.selector, inputs, bindings, CandidateMatches(r, op, request));
    }
    return Ok(rank);
  }

  // ----- The choice

  /** The rank with which a position takes part in the contest; a fallback takes no part. */
  function RankAt(r: Relation, ops: seq<Operation>, i: nat, request: ScanRequest,
                  inputs: seq<ResolvedInput>): Option<Rank>
    requires i < |ops|
  {
    if ops[i].fallback then None else OperationRank(r, ops[i], request, inputs)
  }

  ghost predicate AtMostOneFallback(ops: seq<Operation>) {
    forall i, j :: 0 <= i < j < |ops| ==> !(ops[i].fallback && ops[j].fallback)
  }

  ghost predicate ContestDefined(r: Relation, ops: seq<Operation>, request: ScanRequest) {
    forall i :: 0 <= i < |ops| && !ops[i].fallback ==> EvaluationDefined(r, ops[i], request)
  }

  /** Position `w` is eligible and outranks every other eligible position. */
  ghost predicate SoleWinner(r: Relation, ops: seq<Operation>, w: nat, request: ScanRequest,
                             inputs: seq<ResolvedInput>) {
    && w < |ops|
    && RankAt(r, ops, w, request, inputs).Some?
    && forall j :: 0 <= j < |ops| && j != w && RankAt(r, ops, j, request, inputs).Some? ==>
         HigherRank(RankAt(r, ops, w, request, inputs).value, RankAt(r, ops, j, request, inputs).value)
  }

  ghost predicate NoneEligible(r: Relation, ops: seq<Operation>, request: ScanRequest, inputs: seq<ResolvedInput>) {
    forall j :: 0 <= j < |ops| ==> RankAt(r, ops, j, request, inputs).None?
  }

  ghost predicate FallbackChosen(r: Relation, ops: seq<Operation>, f: nat, request: ScanRequest,
                                 inputs: seq<ResolvedInput>) {
    && f < |ops| && ops[f].fallback
    && NoneEligible(r, ops, request, inputs)
    && EvaluationDefined(r, ops[f], request)
    && OperationRank(r, ops[f], request, inputs).Some?
  }

  /** `op` is what selection over `ops` must return. */
  ghost predicate IsChoice(r: Relation, ops: seq<Operation>, request: ScanRequest, inputs: seq<ResolvedInput>,
                           op: Operation) {
    && AtMostOneFallback(ops)
    && ContestDefined(r, ops, request)
    && exists w :: 0 <= w < |ops| && ops[w] == op
               && (SoleWinner(r, ops, w, request, inputs) || FallbackChosen(r, ops, w, request, inputs))
  }

  /** `w` leads the first `n` positions, and the flag says whether another position has its rank. */
  ghost predicate Leads(r: Relation, ops: seq<Operation>, n: nat, w: nat, tied: bool, request: ScanRequest,
                        inputs: seq<ResolvedInput>)
    requires n <= |ops|
  {
    && w < n
    && RankAt(r, ops, w, request, inputs).Some?
    && (forall j :: 0 <= j < n && RankAt(r, ops, j, request, inputs).Some? ==>
          !HigherRank(RankAt(r, ops, j, request, inputs).value, RankAt(r, ops, w, request, inputs).value))
    && (tied <==>
          exists j :: 0 <= j < n && j != w && RankAt(r, ops, j, request, inputs) == RankAt(r, ops, w, request, inputs))
  }

  method SelectOperation(r: Relation, request: ScanRequest, inputs: seq<ResolvedInput>)
    returns (out: Result<Operation, PlanningError>)
    ensures out.Ok? ==> IsChoice(r, r.operations, request, inputs, out.value)
    ensures out.Err? ==> forall op :: !IsChoice(r, r.operations, request, inputs, op)
  {
    hide OperationRank, EvaluationDefined;
    var ops := r.operations;
    var winner: Option<nat>, winnerRank, tied, fallback: Option<nat> := None, Rank(0, 0), false, None;
    for i := 0 to |ops|
      invariant fallback.Some? ==> fallback.value < i && ops[fallback.value].fallback
      invariant forall k :: 0 <= k < i && ops[k].fallback ==> fallback == Some(k)
      invariant forall k :: 0 <= k < i && !ops[k].fallback ==> EvaluationDefined(r, ops[k], request)
      invariant winner.None? ==> !tied && forall k :: 0 <= k < i ==> RankAt(r, ops, k, request, inputs).None?
      invariant winner.Some? ==> && Leads(r, ops, i, winner.value, tied, request, inputs)
                                 && winnerRank == RankAt(r, ops, winner.value, request, inputs).value
    {
      if ops[i].fallback {
        if fallback.Some? {
          assert !AtMostOneFallback(ops);
          return Err(OperationSelectionFailed);
        }
        fallback := Some(i);
      } else {
        var candidate := Evaluate(r, ops[i], request, inputs);
        if candidate.Err? {
          return Err(candidate.error);
        }
        if candidate.value.Some? {
          var rank := candidate.value.value;
          assert RankAt(r, ops, i, request, inputs) == Some(rank);
          if winner.None? || HigherRank(rank, winnerRank) {
            winner, winnerRank, tied := Some(i), rank, false;
          } else if rank == winnerRank {
            tied := true;
          }
        }
      }
    }
    if winner.Some? {
      if tied {
        TiedHasNoChoice(r, ops, winner.value, request, inputs);
        return Err(OperationSelectionFailed);
      }
      assert SoleWinner(r, ops, winner.value, request, inputs);
      return Ok(ops[winner.value]);
    }
    if fallback.Some? {
      var last := Evaluate(r, ops[fallback.value], request, inputs);
      if last.Err? {
        return Err(last.error);
      }
      if last.value.Some? {
        assert FallbackChosen(r, ops, fallback.value, request, inputs);
        return Ok(ops[fallback.value]);
      }
    }
    return Err(OperationSelectionFailed);
  }

  lemma TiedHasNoChoice(r: Relation, ops: seq<Operation>, w: nat, request: ScanRequest, inputs: seq<ResolvedInput>)
    requires Leads(r, ops, |ops|, w, true, request, inputs)
    ensures forall op :: !IsChoice(r, ops, request, inputs, op)
  {
    forall v | 0 <= v < |ops| ensures !SoleWinner(r, ops, v, request, inputs) {
      var j :| 0 <= j < |ops| && j != w && RankAt(r, ops, j, request, inputs) == RankAt(r, ops, w, request, inputs);
      var other := if v == w then j else w;
      assert other != v && RankAt(r, ops, other, request, inputs).Some?;
    }
  }

  /** Selection has at most one answer. */
  lemma ChoiceUnique(r: Relation, ops: seq<Operation>, request: ScanRequest, inputs: seq<ResolvedInput>, a: Operation,
                     b: Operation)
    requires IsChoice(r, ops, request, inputs, a) && IsChoice(r, ops, request, inputs, b)
    ensures a == b
  {
    var v :| 0 <= v < |ops| && ops[v] == a
          && (SoleWinner(r, ops, v, request, inputs) || FallbackChosen(r, ops, v, request, inputs));
    var w :| 0 <= w < |ops| && ops[w] == b
          && (SoleWinner(r, ops, w, request, inputs) || FallbackChosen(r, ops, w, request, inputs));
  }

  // ----- Declaration order

  /** The evidence for an operation does not depend on the other operations. */
  lemma {:induction false} LeafEvidence(r: Relation, s: Relation, op: Operation, ms: seq<PredicateMapping>,
                                        c: RequestedPredicate)
    requires r.columns == s.columns
    ensures LeafMatches(r, op, ms, c) == LeafMatches(s, op, ms, c)
  {
    if ms != [] {
      LeafEvidence(r, s, op, ms[1..], c);
    }
  }

  lemma {:induction false} TreeEvidence(r: Relation, s: Relation, op: Operation, p: RequestedPredicate)
    requires r.columns == s.columns && r.mappings == s.mappings
    ensures ConjunctiveMatches(r, op, p) == ConjunctiveMatches(s, op, p)
    ensures BindingsHold(r, p) <==> BindingsHold(s, p)
    decreases p, 1
  {
    match p {
      case Comparison(_, _, _) => LeafEvidence(r, s, op, r.mappings, p);
      case Conjunction(children) => ChildrenEvidence(r, s, op, children);
      case Disjunction(children) => ChildrenEvidence(r, s, op, children);
      case Negation(child) => TreeEvidence(r, s, op, child);
      case _ =>
    }
  }

  lemma {:induction false} ChildrenEvidence(r: Relation, s: Relation, op: Operation, ps: seq<RequestedPredicate>)
    requires r.columns == s.columns && r.mappings == s.mappings
    ensures MatchesOfAll(r, op, ps) == MatchesOfAll(s, op, ps)
    ensures forall i :: 0 <= i < |ps| ==> (BindingsHold(r, ps[i]) <==> BindingsHold(s, ps[i]))
    decreases ps, 0
  {
    if ps != [] {
      TreeEvidence(r, s, op, ps[0]);
      ChildrenEvidence(r, s, op, ps[1..]);
      assert forall i :: 1 <= i < |ps| ==> ps[i] == ps[1..][i - 1];
    }
  }

  lemma RanksTransfer(r: Relation, s: Relation, ops: seq<Operation>, k: nat, more: seq<Operation>, i: nat,
                      request: ScanRequest, inputs: seq<ResolvedInput>)
    requires r.columns == s.columns && r.mappings == s.mappings
    requires k < |ops| && i < |more| && ops[k] == more[i]
    ensures RankAt(r, ops, k, request, inputs) == RankAt(s, more, i, request, inputs)
    ensures OperationRank(r, ops[k], request, inputs) == OperationRank(s, more[i], request, inputs)
    ensures EvaluationDefined(r, ops[k], request) <==> EvaluationDefined(s, more[i], request)
  {
    TreeEvidence(r, s, ops[k], request.predicate');
  }

  lemma WinnerTransfers(r: Relation, s: Relation, w: nat, v: nat, request: ScanRequest, inputs: seq<ResolvedInput>)
    requires s == r.(operations := s.operations) && multiset(r.operations) == multiset(s.operations)
    requires w < |r.operations| && v < |s.operations| && r.operations[w] == s.operations[v]
    requires SoleWinner(r, r.operations, w, request, inputs)
    ensures SoleWinner(s, s.operations, v, request, inputs)
  {
    var a, b := r.operations, s.operations;
    RanksTransfer(r, s, a, w, b, v, request, inputs);
    forall j | 0 <= j < |b| && j != v && RankAt(s, b, j, request, inputs).Some?
      ensures HigherRank(RankAt(s, b, v, request, inputs).value, RankAt(s, b, j, request, inputs).value)
    {
      var k, l := PositionsTransfer(a, b, v, j);
      RanksTransfer(r, s, a, k, b, v, request, inputs);
      RanksTransfer(r, s, a, l, b, j, request, inputs);
      assert l != w || k != w;
    }
  }

  lemma FallbackTransfers(r: Relation, s: Relation, w: nat, v: nat, request: ScanRequest, inputs: seq<ResolvedInput>)
    requires s == r.(operations := s.operations) && multiset(r.operations) == multiset(s.operations)
    requires w < |r.operations| && v < |s.operations| && r.operations[w] == s.operations[v]
    requires FallbackChosen(r, r.operations, w, request, inputs)
    ensures FallbackChosen(s, s.operations, v, request, inputs)
  {
    var a, b := r.operations, s.operations;
    RanksTransfer(r, s, a, w, b, v, request, inputs);
    forall j | 0 <= j < |b| ensures RankAt(s, b, j, request, inputs).None? {
      var k := PositionTransfers(a, b, j);
      RanksTransfer(r, s, a, k, b, j, request, inputs);
    }
  }

  /** Success, and the operation returned, do not depend on the order operations are declared in. */
  lemma ChoiceIgnoresOrder(r: Relation, s: Relation, request: ScanRequest, inputs: seq<ResolvedInput>, op: Operation)
    requires s == r.(operations := s.operations) && multiset(r.operations) == multiset(s.operations)
    requires IsChoice(r, r.operations, request, inputs, op)
    ensures IsChoice(s, s.operations, request, inputs, op)
  {
    var a, b := r.operations, s.operations;
    forall i, j | 0 <= i < j < |b| ensures !(b[i].fallback && b[j].fallback) {
      var k, l := PositionsTransfer(a, b, i, j);
      assert k < l ==> !(a[k].fallback && a[l].fallback);
      assert l < k ==> !(a[l].fallback && a[k].fallback);
    }
    forall i | 0 <= i < |b| && !b[i].fallback ensures EvaluationDefined(s, b[i], request) {
      var k := PositionTransfers(a, b, i);
      RanksTransfer(r, s, a, k, b, i, request, inputs);
    }
    var w :| 0 <= w < |a| && a[w] == op
          && (SoleWinner(r, a, w, request, inputs) || FallbackChosen(r, a, w, request, inputs));
    var v := PositionTransfers(b, a, w);
    if SoleWinner(r, a, w, request, inputs) {
      WinnerTransfers(r, s, w, v, request, inputs);
    } else {
      FallbackTransfers(r, s, w, v, request, inputs);
    }
  }

  // ----- Eligible implies executable

  /** In an accepted package relation, whatever operation selection chooses, each conditional input the operation
      requires is exactly the one classification puts into the plan: never Ambiguous, never Unsupported. */
  lemma SelectedInputIsPlanned(r: Relation, request: ScanRequest, inputs: seq<ResolvedInput>, op: Operation, k: nat)
    requires AcceptedPackageRelation(r)
    requires IsChoice(r, r.operations, request, inputs, op)
    requires op.selector.SelectorV1? && k < |op.selector.references|
    requires op.selector.references[k].kind == ConditionalInputReference
    ensures Decide(r, op, request).Ok?
    ensures CarriesInput(Decide(r, op, request).value, op.selector.references[k].id)
  {
    assert OperationRank(r, op, request, inputs).Some?;
    assert ReferenceSatisfied(op.selector.references[k], inputs, CandidateMatches(r, op, request));
    BoundInputIsPlanned(r, op, request, op.selector.references[k].id);
  }
}

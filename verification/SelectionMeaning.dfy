/** Selection said in numbers: how many inputs each ready operation uses, and which count wins. */
module SelectionMeaning {
  import opened Results
  import opened Catalog
  import opened PredicateClassifier
  import opened OperationSelection

  // ----- Ready operations

  /** The first resolved input called `id` is bound to a value. */
  predicate InputGiven(inputs: seq<ResolvedInput>, id: string) {
    exists i :: 0 <= i < |inputs| && inputs[i].name == id && inputs[i].state == BoundValue
             && forall j :: 0 <= j < i ==> inputs[j].name != id
  }

  /** Some mapping of the operation matches the request and asks for the conditional input `id`. */
  predicate InputAsked(matches: seq<Match>, id: string) {
    exists k :: 0 <= k < |matches| && matches[k].mapping.remoteInputName == id
  }

  /** No conditional input is asked for with two values. */
  ghost predicate OneValueEach(matches: seq<Match>) {
    forall i, j :: 0 <= i < |matches| && 0 <= j < |matches| ==>
      var a, b := matches[i].mapping, matches[j].mapping;
      a.remoteInputName == b.remoteInputName ==> a.encodedRemoteValue == b.encodedRemoteValue
  }

  predicate AllAsked(matches: seq<Match>, ids: seq<string>) {
    forall i :: 0 <= i < |ids| ==> InputAsked(matches, ids[i])
  }

  /** The operation is ready, and `n` inputs make it so: all a v1 selector requires; all a legacy selector requires and
      those of one of its alternatives, if it has any. */
  ghost predicate ReadyWith(selector: Selector, inputs: seq<ResolvedInput>, matches: seq<Match>, n: nat) {
    && OneValueEach(matches)
    && match selector
       case SelectorV1(references) =>
         && n == |references|
         && (forall i :: 0 <= i < |references| && references[i].kind == RelationInputReference ==>
               InputGiven(inputs, references[i].id))
         && (forall i :: 0 <= i < |references| && references[i].kind == ConditionalInputReference ==>
               InputAsked(matches, references[i].id))
       case LegacySelector(required, alternatives, forbidden, _) =>
         && AllAsked(matches, required)
         && (forall i :: 0 <= i < |forbidden| ==> !InputAsked(matches, forbidden[i]))
         && if alternatives == [] then n == |required|
            else exists a :: 0 <= a < |alternatives| && AllAsked(matches, alternatives[a])
                          && n == |required| + |alternatives[a]|
  }

  function Priority(selector: Selector): int {
    if selector.SelectorV1? then 0 else selector.priority
  }

  // ----- The rank of an operation

  lemma FindInputIff(inputs: seq<ResolvedInput>, id: string)
    ensures FindInput(inputs, id).Some? && FindInput(inputs, id).value.state == BoundValue <==> InputGiven(inputs, id)
  {
    if inputs != [] {
      var rest := inputs[1..];
      FindInputIff(rest, id);
      if inputs[0].name != id {
        if InputGiven(rest, id) {
          var i :| 0 <= i < |rest| && rest[i].name == id && rest[i].state == BoundValue
                && forall j :: 0 <= j < i ==> rest[j].name != id;
          assert inputs[i + 1] == rest[i];
          forall j | 0 <= j < i + 1 ensures inputs[j].name != id {
            assert j > 0 ==> inputs[j] == rest[j - 1];
          }
        }
        if InputGiven(inputs, id) {
          var i :| 0 <= i < |inputs| && inputs[i].name == id && inputs[i].state == BoundValue
                && forall j :: 0 <= j < i ==> inputs[j].name != id;
          assert rest[i - 1] == inputs[i];
          forall j | 0 <= j < i - 1 ensures rest[j].name != id {
            assert rest[j] == inputs[j + 1];
          }
        }
      }
    }
  }

  lemma ConflictIff(matches: seq<Match>)
    ensures Conflict(matches) <==> !OneValueEach(matches)
  {
  }

  /** The largest satisfied alternative is one of them and no smaller than any. */
  lemma {:induction false} LargestIs(alternatives: seq<seq<string>>, matches: seq<Match>)
    ensures var largest := LargestSatisfied(alternatives, matches);
            && (largest.None? ==> forall a :: 0 <= a < |alternatives| ==> !AllBound(matches, alternatives[a]))
            && (largest.Some? ==>
                  && (exists a :: 0 <= a < |alternatives| && AllBound(matches, alternatives[a])
                               && |alternatives[a]| == largest.value)
                  && forall a :: 0 <= a < |alternatives| && AllBound(matches, alternatives[a]) ==>
                       |alternatives[a]| <= largest.value)
  {
    hide AllBound;
    if alternatives != [] {
      var n := |alternatives| - 1;
      var front := alternatives[..n];
      LargestIs(front, matches);
      assert forall a :: 0 <= a < n ==> alternatives[a] == front[a];
      var before, largest := LargestSatisfied(front, matches), LargestSatisfied(alternatives, matches);
      if largest.Some? {
        if AllBound(matches, alternatives[n]) && largest.value == |alternatives[n]| {
          assert AllBound(matches, alternatives[n]);
        } else {
          var a :| 0 <= a < |front| && AllBound(matches, front[a]) && |front[a]| == before.value;
          assert alternatives[a] == front[a];
        }
      }
    }
  }

  lemma BoundIsAsked(matches: seq<Match>, ids: seq<string>)
    ensures AllBound(matches, ids) <==> AllAsked(matches, ids)
    ensures NoneBound(matches, ids) <==> forall i :: 0 <= i < |ids| ==> !InputAsked(matches, ids[i])
  {
    forall id ensures BoundBy(matches, id) <==> InputAsked(matches, id) {
    }
  }

  lemma ReferencesIff(references: seq<InputReference>, inputs: seq<ResolvedInput>, matches: seq<Match>)
    ensures (forall i :: 0 <= i < |references| ==> ReferenceSatisfied(references[i], inputs, matches)) <==>
              && (forall i :: 0 <= i < |references| && references[i].kind == RelationInputReference ==>
                    InputGiven(inputs, references[i].id))
              && (forall i :: 0 <= i < |references| && references[i].kind == ConditionalInputReference ==>
                    InputAsked(matches, references[i].id))
  {
    hide InputGiven, FindInput;
    forall i | 0 <= i < |references|
      ensures ReferenceSatisfied(references[i], inputs, matches) <==>
                if references[i].kind == RelationInputReference then InputGiven(inputs, references[i].id)
                else InputAsked(matches, references[i].id)
    {
      FindInputIff(inputs, references[i].id);
    }
  }

  /** The rank of a selector is the largest count it is ready with, and its priority. */
  lemma RankIff(selector: Selector, inputs: seq<ResolvedInput>, matches: seq<Match>)
    ensures var rank := EligibleRank(selector, inputs, matches);
            && (rank.None? ==> forall n: nat :: !ReadyWith(selector, inputs, matches, n))
            && (rank.Some? ==>
                  && ReadyWith(selector, inputs, matches, rank.value.specificity)
                  && rank.value.priority == Priority(selector)
                  && forall n: nat :: ReadyWith(selector, inputs, matches, n) ==> n <= rank.value.specificity)
  {
    hide OneValueEach, Conflict, InputGiven, InputAsked, BoundBy, AllBound, AllAsked, NoneBound, LargestSatisfied,
         ReferenceSatisfied;
    ConflictIff(matches);
    match selector {
      case SelectorV1(references) => ReferencesIff(references, inputs, matches);
      case LegacySelector(required, alternatives, forbidden, _) =>
        BoundIsAsked(matches, required);
        BoundIsAsked(matches, forbidden);
        LargestIs(alternatives, matches);
        forall a | 0 <= a < |alternatives|
          ensures AllBound(matches, alternatives[a]) <==> AllAsked(matches, alternatives[a])
        {
          BoundIsAsked(matches, alternatives[a]);
        }
    }
  }

  // ----- The choice

  /** The operation at position `i` takes part and is ready with `n` inputs; the fallback takes no part. */
  ghost predicate Contends(r: Relation, ops: seq<Operation>, i: nat, request: ScanRequest, inputs: seq<ResolvedInput>,
                           n: nat)
    requires i < |ops|
  {
    !ops[i].fallback && ReadyWith(ops[i].selector, inputs, CandidateMatches(r, ops[i], request), n)
  }

  /** Position `w` is ready with more inputs than every other contender, or with as many and a larger priority. */
  ghost predicate UsesMost(r: Relation, ops: seq<Operation>, w: nat, request: ScanRequest, inputs: seq<ResolvedInput>)
    requires w < |ops|
  {
    exists m: nat ::
      && Contends(r, ops, w, request, inputs, m)
      && forall j: nat, n: nat :: j < |ops| && j != w && Contends(r, ops, j, request, inputs, n) ==>
           m > n || (m == n && Priority(ops[w].selector) > Priority(ops[j].selector))
  }

  lemma ContendsIff(r: Relation, ops: seq<Operation>, i: nat, request: ScanRequest, inputs: seq<ResolvedInput>)
    requires i < |ops|
    ensures var rank := RankAt(r, ops, i, request, inputs);
            && (rank.None? ==> forall n: nat :: !Contends(r, ops, i, request, inputs, n))
            && (rank.Some? ==>
                  && Contends(r, ops, i, request, inputs, rank.value.specificity)
                  && rank.value.priority == Priority(ops[i].selector)
                  && forall n: nat :: Contends(r, ops, i, request, inputs, n) ==> n <= rank.value.specificity)
  {
    hide EligibleRank, ReadyWith;
    RankIff(ops[i].selector, inputs, CandidateMatches(r, ops[i], request));
  }

  lemma WinnerIff(r: Relation, ops: seq<Operation>, w: nat, request: ScanRequest, inputs: seq<ResolvedInput>)
    requires w < |ops|
    ensures SoleWinner(r, ops, w, request, inputs) <==> UsesMost(r, ops, w, request, inputs)
  {
    hide RankAt, Contends;
    forall j | 0 <= j < |ops|
      ensures var rank := RankAt(r, ops, j, request, inputs);
              && (rank.None? ==> forall n: nat :: !Contends(r, ops, j, request, inputs, n))
              && (rank.Some? ==>
                    && Contends(r, ops, j, request, inputs, rank.value.specificity)
                    && rank.value.priority == Priority(ops[j].selector)
                    && forall n: nat :: Contends(r, ops, j, request, inputs, n) ==> n <= rank.value.specificity)
    {
      ContendsIff(r, ops, j, request, inputs);
    }
    if SoleWinner(r, ops, w, request, inputs) {
      var m := RankAt(r, ops, w, request, inputs).value.specificity;
      forall j: nat, n: nat | j < |ops| && j != w && Contends(r, ops, j, request, inputs, n)
        ensures m > n || (m == n && Priority(ops[w].selector) > Priority(ops[j].selector))
      {
        assert RankAt(r, ops, j, request, inputs).Some?;
      }
    }
  }

  /** Selection returns an operation if and only if its evaluation meets no contract error, at most one fallback is
      declared, and the operation is ready with more inputs than every other contender, or with as many and a larger
      priority; or it is the ready fallback and there is no contender. */
  lemma ChoiceIff(r: Relation, ops: seq<Operation>, request: ScanRequest, inputs: seq<ResolvedInput>, op: Operation)
    ensures IsChoice(r, ops, request, inputs, op) <==>
              && AtMostOneFallback(ops)
              && ContestDefined(r, ops, request)
              && exists w :: 0 <= w < |ops| && ops[w] == op
                   && if op.fallback then
                        && EvaluationDefined(r, op, request)
                        && (exists n: nat :: ReadyWith(op.selector, inputs, CandidateMatches(r, op, request), n))
                        && forall j: nat, n: nat :: j < |ops| ==> !Contends(r, ops, j, request, inputs, n)
                      else UsesMost(r, ops, w, request, inputs)
  {
    hide EligibleRank, ReadyWith, UsesMost, SoleWinner;
    forall w | 0 <= w < |ops| && ops[w] == op
      ensures SoleWinner(r, ops, w, request, inputs) <==> UsesMost(r, ops, w, request, inputs)
      ensures FallbackChosen(r, ops, w, request, inputs) <==>
                && op.fallback && EvaluationDefined(r, op, request)
                && (exists n: nat :: ReadyWith(op.selector, inputs, CandidateMatches(r, op, request), n))
                && forall j: nat, n: nat :: j < |ops| ==> !Contends(r, ops, j, request, inputs, n)
      ensures SoleWinner(r, ops, w, request, inputs) ==> !op.fallback
    {
      WinnerIff(r, ops, w, request, inputs);
      FallbackIff(r, ops, w, request, inputs);
      WinnerIsNoFallback(r, ops, w, request, inputs);
    }
  }

  lemma WinnerIsNoFallback(r: Relation, ops: seq<Operation>, w: nat, request: ScanRequest, inputs: seq<ResolvedInput>)
    requires w < |ops|
    ensures SoleWinner(r, ops, w, request, inputs) ==> !ops[w].fallback
  {
  }

  lemma FallbackIff(r: Relation, ops: seq<Operation>, w: nat, request: ScanRequest, inputs: seq<ResolvedInput>)
    requires w < |ops|
    ensures FallbackChosen(r, ops, w, request, inputs) <==>
              && ops[w].fallback && EvaluationDefined(r, ops[w], request)
              && (exists n: nat :: ReadyWith(ops[w].selector, inputs, CandidateMatches(r, ops[w], request), n))
              && forall j: nat, n: nat :: j < |ops| ==> !Contends(r, ops, j, request, inputs, n)
  {
    hide EligibleRank, ReadyWith, Contends, RankAt;
    var matches := CandidateMatches(r, ops[w], request);
    RankIff(ops[w].selector, inputs, matches);
    assert OperationRank(r, ops[w], request, inputs).Some? <==>
             exists n: nat :: ReadyWith(ops[w].selector, inputs, matches, n);
    forall j | 0 <= j < |ops|
      ensures RankAt(r, ops, j, request, inputs).None? <==> forall n: nat :: !Contends(r, ops, j, request, inputs, n)
    {
      ContendsIff(r, ops, j, request, inputs);
    }
    if NoneEligible(r, ops, request, inputs) {
      forall j: nat, n: nat | j < |ops| ensures !Contends(r, ops, j, request, inputs, n) {
        assert RankAt(r, ops, j, request, inputs).None?;
      }
    }
    if forall j: nat, n: nat :: j < |ops| ==> !Contends(r, ops, j, request, inputs, n) {
      assert NoneEligible(r, ops, request, inputs);
    }
  }

  /** A v1 operation that takes part and is ready. */
  ghost predicate ReadyV1(r: Relation, op: Operation, request: ScanRequest, inputs: seq<ResolvedInput>) {
    && !op.fallback && op.selector.SelectorV1?
    && ReadyWith(op.selector, inputs, CandidateMatches(r, op, request), |op.selector.references|)
  }

  /** Among v1 operations the chosen one requires more inputs than every other that is ready. */
  lemma ChosenRequiresMost(r: Relation, ops: seq<Operation>, request: ScanRequest, inputs: seq<ResolvedInput>,
                           op: Operation)
    requires IsChoice(r, ops, request, inputs, op) && !op.fallback && op.selector.SelectorV1?
    ensures ReadyV1(r, op, request, inputs)
    ensures exists w :: 0 <= w < |ops| && ops[w] == op
              && forall j: nat :: j < |ops| && j != w && ReadyV1(r, ops[j], request, inputs) ==>
                   |ops[j].selector.references| < |op.selector.references|
  {
    hide SoleWinner, FallbackChosen;
    ChoiceIff(r, ops, request, inputs, op);
    var w :| 0 <= w < |ops| && ops[w] == op && UsesMost(r, ops, w, request, inputs);
    forall j: nat | j < |ops| && j != w && ReadyV1(r, ops[j], request, inputs)
      ensures |ops[j].selector.references| < |op.selector.references|
    {
      assert Contends(r, ops, j, request, inputs, |ops[j].selector.references|);
    }
  }
}

/** Canonical form of the required inputs of a v1 operation selector. */
module SelectorNormalization {
  import opened Results
  import opened Catalog
  import opened Bags
  import TextOrder

  const MAX_REFERENCES := 128

  function KindOrder(kind: RequiredInputKind): nat {
    match kind
    case RelationInputReference => 0
    case ConditionalInputReference => 1
  }

  predicate ReferenceLess(left: InputReference, right: InputReference) {
    if left.kind != right.kind then KindOrder(left.kind) < KindOrder(right.kind)
    else TextOrder.Less(left.id, right.id)
  }

  lemma LessAsymmetric(a: InputReference, b: InputReference)
    requires ReferenceLess(a, b)
    ensures !ReferenceLess(b, a) && a != b
  {
    if a.kind == b.kind {
      TextOrder.Asymmetric(a.id, b.id);
    }
  }

  /** Not being less is a total preorder. */
  lemma NotLessTransitive(a: InputReference, b: InputReference, c: InputReference)
    requires !ReferenceLess(b, a) && !ReferenceLess(c, b)
    ensures !ReferenceLess(c, a)
    ensures a == b || ReferenceLess(a, b)
    ensures a == c ==> a == b
  {
    TextOrder.Total(a.id, b.id);
    TextOrder.Total(b.id, c.id);
    if ReferenceLess(a, b) && ReferenceLess(b, c) {
      if a.kind == b.kind == c.kind {
        TextOrder.Transitive(a.id, b.id, c.id);
      }
      LessAsymmetric(a, c);
    }
  }

  /** The first of the least references not yet emitted. */
  method SelectLeast(references: seq<InputReference>, emitted: array<bool>) returns (selected: nat)
    requires emitted.Length == |references|
    requires exists i :: 0 <= i < |references| && !emitted[i]
    ensures selected < |references| && !emitted[selected]
    ensures forall i :: 0 <= i < |references| && !emitted[i] ==> !ReferenceLess(references[i], references[selected])
  {
    selected := |references|;
    for index := 0 to |references|
      invariant selected <= |references|
      invariant selected == |references| ==> forall i :: 0 <= i < index ==> emitted[i]
      invariant selected < |references| ==> !emitted[selected]
      invariant selected < |references| ==>
                  forall i :: 0 <= i < index && !emitted[i] ==> !ReferenceLess(references[i], references[selected])
    {
      if !emitted[index] && (selected == |references| || ReferenceLess(references[index], references[selected])) {
        if selected < |references| {
          LessAsymmetric(references[index], references[selected]);
          forall i | 0 <= i < index && !emitted[i] ensures !ReferenceLess(references[i], references[index]) {
            NotLessTransitive(references[index], references[selected], references[i]);
          }
        }
        TextOrder.Irreflexive(references[index].id);
        selected := index;
      }
    }
  }

  /** The references emitted so far: where they came from, in strict order, none above a remaining one. */
  ghost predicate Emitting(references: seq<InputReference>, order: seq<nat>, normalized: seq<InputReference>) {
    && |order| == |normalized|
    && (forall i :: 0 <= i < |order| ==> order[i] < |references| && normalized[i] == references[order[i]])
    && AllDistinct(order)
    && StrictlySorted(normalized, ReferenceLess)
    && forall x, i :: 0 <= x < |references| && x !in order && 0 <= i < |normalized| ==>
         !ReferenceLess(references[x], normalized[i])
  }

  lemma EmitNext(references: seq<InputReference>, order: seq<nat>, normalized: seq<InputReference>, selected: nat)
    requires Emitting(references, order, normalized)
    requires selected < |references| && selected !in order
    requires normalized != [] ==> normalized[|normalized| - 1] != references[selected]
    requires forall x :: 0 <= x < |references| && x !in order ==> !ReferenceLess(references[x], references[selected])
    ensures Emitting(references, order + [selected], normalized + [references[selected]])
  {
    var next := normalized + [references[selected]];
    forall i | 0 <= i < |normalized| ensures ReferenceLess(next[i], references[selected]) {
      var last := normalized[|normalized| - 1];
      if i < |normalized| - 1 {
        LessAsymmetric(normalized[i], last);
      }
      TextOrder.Irreflexive(last.id);
      NotLessTransitive(normalized[i], last, references[selected]);
      NotLessTransitive(normalized[i], references[selected], references[selected]) by {
        TextOrder.Irreflexive(references[selected].id);
      }
    }
  }

  method NormalizeRequiredReferences(references: seq<InputReference>) returns (out: Option<seq<InputReference>>)
    ensures out.Some? <==> |references| <= MAX_REFERENCES && AllDistinct(references)
    ensures out.Some? ==> && StrictlySorted(out.value, ReferenceLess)
                          && multiset(out.value) == multiset(references)
  {
    if |references| > MAX_REFERENCES {
      return None;
    }
    var normalized: seq<InputReference> := [];
    var emitted := new bool[|references|](_ => false);
    ghost var order: seq<nat> := [];
    for output := 0 to |references|
      invariant |order| == output
      invariant Emitting(references, order, normalized)
      invariant forall i :: 0 <= i < |references| ==> (emitted[i] <==> i in order)
    {
      Pigeonhole(order, |references|);
      var selected := SelectLeast(references, emitted);
      if normalized != [] && normalized[|normalized| - 1] == references[selected] {
        assert order[|order| - 1] != selected;
        assert !AllDistinct(references);
        return None;
      }
      EmitNext(references, order, normalized, selected);
      normalized := normalized + [references[selected]];
      order := order + [selected];
      emitted[selected] := true;
    }
    Pigeonhole(order, |references|);
    EmittedAll(references, order, normalized);
    return Some(normalized);
  }

  lemma EmittedAll(references: seq<InputReference>, order: seq<nat>, normalized: seq<InputReference>)
    requires Emitting(references, order, normalized)
    requires forall x: nat :: x < |references| ==> x in order
    ensures AllDistinct(references) && multiset(normalized) == multiset(references)
  {
    forall i, j | 0 <= i < j < |references| ensures references[i] != references[j] {
      assert i in order && j in order;
      var k :| 0 <= k < |order| && order[k] == i;
      var l :| 0 <= l < |order| && order[l] == j;
      LessAsymmetric(normalized[if k < l then k else l], normalized[if k < l then l else k]);
    }
    forall i, j | 0 <= i < j < |normalized| ensures normalized[i] != normalized[j] {
      LessAsymmetric(normalized[i], normalized[j]);
    }
    forall x ensures x in normalized <==> x in references {
      if x in references {
        var i: nat :| i < |references| && references[i] == x;
        assert i in order;
        var k :| 0 <= k < |order| && order[k] == i;
        assert normalized[k] == x;
      }
    }
    DistinctSameElements(normalized, references);
  }

  /** What the loops of `SameOperationSelectorStructure` decide. */
  predicate SameSelector(left: Selector, right: Selector) {
    match (left, right)
    case (SelectorV1(a), SelectorV1(b)) =>
      |a| == |b| && forall i :: 0 <= i < |a| ==> a[i].kind == b[i].kind && a[i].id == b[i].id
    case (LegacySelector(_, _, _, _), LegacySelector(_, _, _, _)) => left == right
    case _ => false
  }

  /** Two v1 selectors compare the same exactly when they require the same inputs, however these were written. */
  lemma SelectorsCompareAsSets(a: seq<InputReference>, b: seq<InputReference>,
                               x: seq<InputReference>, y: seq<InputReference>)
    requires StrictlySorted(x, ReferenceLess) && multiset(x) == multiset(a)
    requires StrictlySorted(y, ReferenceLess) && multiset(y) == multiset(b)
    ensures SameSelector(SelectorV1(x), SelectorV1(y)) <==> Elements(a) == Elements(b)
  {
    forall v ensures (v in x <==> v in a) && (v in y <==> v in b) {
      assert v in x <==> v in multiset(x);
      assert v in a <==> v in multiset(a);
      assert v in y <==> v in multiset(y);
      assert v in b <==> v in multiset(b);
    }
    if SameSelector(SelectorV1(x), SelectorV1(y)) {
      assert x == y;
      assert Elements(a) == Elements(x) == Elements(b);
    }
    if Elements(a) == Elements(b) {
      forall v ensures v in x <==> v in y {
        assert v in a <==> v in Elements(a);
        assert v in b <==> v in Elements(b);
      }
      forall p, q | ReferenceLess(p, q) ensures !ReferenceLess(q, p) {
        LessAsymmetric(p, q);
      }
      StrictlySortedUnique(x, y, ReferenceLess);
    }
  }

  /** The normal form lists the relation inputs before the conditional inputs, each group by rising id. */
  lemma SortedIff(references: seq<InputReference>)
    ensures StrictlySorted(references, ReferenceLess) <==>
              forall i, j :: 0 <= i < j < |references| ==>
                || (references[i].kind == RelationInputReference && references[j].kind == ConditionalInputReference)
                || (references[i].kind == references[j].kind && TextOrder.Less(references[i].id, references[j].id))
  {
    forall a: InputReference, b: InputReference
      ensures ReferenceLess(a, b) <==>
                || (a.kind == RelationInputReference && b.kind == ConditionalInputReference)
                || (a.kind == b.kind && TextOrder.Less(a.id, b.id))
    {
    }
  }
}

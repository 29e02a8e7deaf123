/** A plan does not depend on the order in which a query writes its conjuncts. */
module ConjunctOrder {
  import opened Results
  import opened Scalars
  import opened Predicates
  import opened Catalog
  import opened PredicateClassifier
  import TextOrder
  import opened Bags

  function Without<T>(s: seq<T>, j: nat): seq<T>
    requires j < |s|
  {
    s[..j] + s[j + 1..]
  }

  /** `q` is `p` with the children of conjunctions permuted, at any depth. */
  ghost predicate Reordered(p: RequestedPredicate, q: RequestedPredicate)
    decreases p, 1
  {
    match p
    case Conjunction(children) => q.Conjunction? && ReorderedChildren(children, q.children)
    case Disjunction(children) =>
      && q.Disjunction? && |children| == |q.children|
      && forall i :: 0 <= i < |children| ==> Reordered(children[i], q.children[i])
    case Negation(child) => q.Negation? && Reordered(child, q.child)
    case _ => p == q
  }

  ghost predicate ReorderedChildren(ps: seq<RequestedPredicate>, qs: seq<RequestedPredicate>)
    decreases ps, 0
  {
    if ps == [] then qs == []
    else exists j :: 0 <= j < |qs| && Reordered(ps[0], qs[j]) && ReorderedChildren(ps[1..], Without(qs, j))
  }

  // ----- Taking one child out of a list

  lemma TakeOutMatches(r: Relation, op: Operation, qs: seq<RequestedPredicate>, j: nat)
    requires j < |qs|
    ensures multiset(MatchesOfAll(r, op, qs))
         == multiset(ConjunctiveMatches(r, op, qs[j])) + multiset(MatchesOfAll(r, op, Without(qs, j)))
  {
    assert qs == qs[..j] + ([qs[j]] + qs[j + 1..]);
    MatchesOfAllAppend(r, op, qs[..j], [qs[j]] + qs[j + 1..]);
    MatchesOfAllAppend(r, op, qs[..j], qs[j + 1..]);
    assert ([qs[j]] + qs[j + 1..])[1..] == qs[j + 1..];
  }

  lemma {:induction false} TakeOutSizes(qs: seq<RequestedPredicate>, j: nat)
    requires j < |qs|
    ensures DepthOfAll(qs) == Max(Depth(qs[j]), DepthOfAll(Without(qs, j)))
    ensures NodeCountOfAll(qs) == NodeCount(qs[j]) + NodeCountOfAll(Without(qs, j))
  {
    hide Depth, NodeCount;
    if j == 0 {
      assert Without(qs, 0) == qs[1..];
    } else {
      TakeOutSizes(qs[1..], j - 1);
      assert Without(qs, j)[1..] == Without(qs[1..], j - 1);
    }
  }

  // ----- What reordering keeps

  lemma {:induction false} ReorderingKeepsMatches(r: Relation, op: Operation, p: RequestedPredicate,
                                                  q: RequestedPredicate)
    requires Reordered(p, q)
    ensures multiset(ConjunctiveMatches(r, op, p)) == multiset(ConjunctiveMatches(r, op, q))
    decreases p, 1
  {
    if p.Conjunction? {
      ReorderingKeepsMatchesOfAll(r, op, p.children, q.children);
    }
  }

  lemma {:induction false} ReorderingKeepsMatchesOfAll(r: Relation, op: Operation, ps: seq<RequestedPredicate>,
                                                       qs: seq<RequestedPredicate>)
    requires ReorderedChildren(ps, qs)
    ensures |ps| == |qs|
    ensures multiset(MatchesOfAll(r, op, ps)) == multiset(MatchesOfAll(r, op, qs))
    decreases ps, 0
  {
    if ps != [] {
      var j :| 0 <= j < |qs| && Reordered(ps[0], qs[j]) && ReorderedChildren(ps[1..], Without(qs, j));
      ReorderingKeepsMatches(r, op, ps[0], qs[j]);
      ReorderingKeepsMatchesOfAll(r, op, ps[1..], Without(qs, j));
      TakeOutMatches(r, op, qs, j);
    }
  }

  /** Each child has a reordered counterpart on the other side. */
  lemma {:induction false} Counterpart(ps: seq<RequestedPredicate>, qs: seq<RequestedPredicate>, i: nat)
    returns (k: nat)
    requires ReorderedChildren(ps, qs) && i < |ps|
    ensures k < |qs| && Reordered(ps[i], qs[k])
    decreases ps
  {
    var j :| 0 <= j < |qs| && Reordered(ps[0], qs[j]) && ReorderedChildren(ps[1..], Without(qs, j));
    if i == 0 {
      k := j;
    } else {
      k := Counterpart(ps[1..], Without(qs, j), i - 1);
      k := if k < j then k else k + 1;
    }
  }

  lemma {:induction false} CounterpartBack(ps: seq<RequestedPredicate>, qs: seq<RequestedPredicate>, k: nat)
    returns (i: nat)
    requires ReorderedChildren(ps, qs) && k < |qs|
    ensures i < |ps| && Reordered(ps[i], qs[k])
    decreases ps
  {
    var j :| 0 <= j < |qs| && Reordered(ps[0], qs[j]) && ReorderedChildren(ps[1..], Without(qs, j));
    if k == j {
      i := 0;
    } else {
      i := CounterpartBack(ps[1..], Without(qs, j), if k < j then k else k - 1);
      i := i + 1;
    }
  }

  lemma {:induction false} ReorderingKeepsUnmapped(r: Relation, op: Operation, p: RequestedPredicate,
                                                   q: RequestedPredicate)
    requires Reordered(p, q)
    ensures HasUnmapped(r, op, p) <==> HasUnmapped(r, op, q)
    decreases p
  {
    if p.Conjunction? {
      if HasUnmapped(r, op, p) {
        var i :| 0 <= i < |p.children| && HasUnmapped(r, op, p.children[i]);
        var k := Counterpart(p.children, q.children, i);
        ReorderingKeepsUnmapped(r, op, p.children[i], q.children[k]);
      }
      if HasUnmapped(r, op, q) {
        var k :| 0 <= k < |q.children| && HasUnmapped(r, op, q.children[k]);
        var i := CounterpartBack(p.children, q.children, k);
        ReorderingKeepsUnmapped(r, op, p.children[i], q.children[k]);
      }
    }
  }

  lemma {:induction false} ReorderingKeepsBindings(r: Relation, p: RequestedPredicate, q: RequestedPredicate)
    requires Reordered(p, q)
    ensures BindingsHold(r, p) <==> BindingsHold(r, q)
    decreases p
  {
    match p {
      case Conjunction(ps) =>
        if !BindingsHold(r, p) {
          var i :| 0 <= i < |ps| && !BindingsHold(r, ps[i]);
          var k := Counterpart(ps, q.children, i);
          ReorderingKeepsBindings(r, ps[i], q.children[k]);
        }
        if !BindingsHold(r, q) {
          var k :| 0 <= k < |q.children| && !BindingsHold(r, q.children[k]);
          var i := CounterpartBack(ps, q.children, k);
          ReorderingKeepsBindings(r, ps[i], q.children[k]);
        }
      case Disjunction(ps) =>
        forall i | 0 <= i < |ps| ensures BindingsHold(r, ps[i]) <==> BindingsHold(r, q.children[i]) {
          ReorderingKeepsBindings(r, ps[i], q.children[i]);
        }
      case Negation(child) => ReorderingKeepsBindings(r, child, q.child);
      case _ =>
    }
  }

  lemma {:induction false} ReorderingKeepsSizes(p: RequestedPredicate, q: RequestedPredicate)
    requires Reordered(p, q)
    ensures Depth(p) == Depth(q) && NodeCount(p) == NodeCount(q)
    decreases p, 1
  {
    match p {
      case Conjunction(children) => ReorderingKeepsSizesOfAll(children, q.children);
      case Disjunction(children) => PairwiseKeepsSizes(children, q.children);
      case Negation(child) => ReorderingKeepsSizes(child, q.child);
      case _ =>
    }
  }

  lemma {:induction false} PairwiseKeepsSizes(ps: seq<RequestedPredicate>, qs: seq<RequestedPredicate>)
    requires |ps| == |qs| && forall i :: 0 <= i < |ps| ==> Reordered(ps[i], qs[i])
    ensures DepthOfAll(ps) == DepthOfAll(qs) && NodeCountOfAll(ps) == NodeCountOfAll(qs)
    decreases ps, 0
  {
    if ps != [] {
      ReorderingKeepsSizes(ps[0], qs[0]);
      PairwiseKeepsSizes(ps[1..], qs[1..]);
    }
  }

  lemma {:induction false} ReorderingKeepsSizesOfAll(ps: seq<RequestedPredicate>, qs: seq<RequestedPredicate>)
    requires ReorderedChildren(ps, qs)
    ensures DepthOfAll(ps) == DepthOfAll(qs) && NodeCountOfAll(ps) == NodeCountOfAll(qs)
    decreases ps, 0
  {
    if ps != [] {
      var j :| 0 <= j < |qs| && Reordered(ps[0], qs[j]) && ReorderedChildren(ps[1..], Without(qs, j));
      ReorderingKeepsSizes(ps[0], qs[j]);
      ReorderingKeepsSizesOfAll(ps[1..], Without(qs, j));
      TakeOutSizes(qs, j);
    }
  }

  // ----- Structural equality is symmetric and transitive, though not reflexive on a NaN

  lemma {:induction false} StructurallySymmetric(p: RequestedPredicate, q: RequestedPredicate)
    requires StructurallyEquals(p, q)
    ensures StructurallyEquals(q, p)
  {
    match p {
      case Negation(child) => StructurallySymmetric(child, q.child);
      case Conjunction(children) =>
        forall i | 0 <= i < |children| ensures StructurallyEquals(q.children[i], children[i]) {
          StructurallySymmetric(children[i], q.children[i]);
        }
      case Disjunction(children) =>
        forall i | 0 <= i < |children| ensures StructurallyEquals(q.children[i], children[i]) {
          StructurallySymmetric(children[i], q.children[i]);
        }
      case _ =>
    }
  }

  lemma {:induction false} StructurallyTransitive(p: RequestedPredicate, q: RequestedPredicate, s: RequestedPredicate)
    requires StructurallyEquals(p, q) && StructurallyEquals(q, s)
    ensures StructurallyEquals(p, s)
  {
    match p {
      case Negation(child) => StructurallyTransitive(child, q.child, s.child);
      case Conjunction(children) =>
        forall i | 0 <= i < |children| ensures StructurallyEquals(children[i], s.children[i]) {
          StructurallyTransitive(children[i], q.children[i], s.children[i]);
        }
      case Disjunction(children) =>
        forall i | 0 <= i < |children| ensures StructurallyEquals(children[i], s.children[i]) {
          StructurallyTransitive(children[i], q.children[i], s.children[i]);
        }
      case _ =>
    }
  }

  /** Two matches equivalent to a third are equivalent. */
  lemma EquivalentToBoth(a: Match, b: Match, c: Match)
    requires SameMappingAndBinding(a, b) && SameMappingAndBinding(a, c)
    ensures SameMappingAndBinding(b, c) && SameMappingAndBinding(a, a)
  {
    StructurallySymmetric(a.candidate, b.candidate);
    StructurallyTransitive(b.candidate, a.candidate, c.candidate);
    StructurallyTransitive(a.candidate, b.candidate, a.candidate);
  }

  // ----- What a bag of matches determines

  lemma SameBagSameLength(a: seq<Match>, b: seq<Match>)
    requires multiset(a) == multiset(b)
    ensures |a| == |b|
  {
    assert |multiset(a)| == |a| && |multiset(b)| == |b|;
  }

  predicate SamePlan(m: PredicateMapping, n: PredicateMapping) {
    PlanTypedEquality(m) == PlanTypedEquality(n) && m.accuracy == n.accuracy && m.literalForm == n.literalForm
  }

  lemma EquivalenceIgnoresOrder(a: seq<Match>, b: seq<Match>)
    requires multiset(a) == multiset(b) && AllMatchesEquivalent(a)
    ensures AllMatchesEquivalent(b)
    ensures a != [] ==> SamePlan(a[0].mapping, b[0].mapping)
  {
    SameBagSameLength(a, b);
    if a != [] {
      var first := PositionTransfers(a, b, 0);
      assert first == 0 || SameMappingAndBinding(a[0], a[first]);
      forall i | 1 <= i < |b| ensures SameMappingAndBinding(b[0], b[i]) {
        var other := PositionTransfers(a, b, i);
        assert SameMappingAndBinding(a[0], a[1]);
        EquivalentToBoth(a[0], a[1], a[1]);
        assert SameMappingAndBinding(a[0], a[other]);
        EquivalentToBoth(a[0], a[first], a[other]);
      }
    }
  }

  lemma ConflictIgnoresOrder(a: seq<Match>, b: seq<Match>)
    requires multiset(a) == multiset(b) && Conflict(a)
    ensures Conflict(b)
  {
    var i, j :| 0 <= i < j < |a|
             && a[i].mapping.remoteInputName == a[j].mapping.remoteInputName
             && a[i].mapping.encodedRemoteValue != a[j].mapping.encodedRemoteValue;
    var k := PositionTransfers(b, a, i);
    var l := PositionTransfers(b, a, j);
    if l < k {
      assert b[l].mapping.encodedRemoteValue != b[k].mapping.encodedRemoteValue;
    }
  }

  /** A name-ordered list of bindings is determined by its elements. */
  lemma SortedBindingsUnique(a: seq<CandidateBinding>, b: seq<CandidateBinding>)
    requires SortedByName(a) && SortedByName(b)
    requires forall v :: v in a <==> v in b
    ensures a == b
  {
    var byName := (x: CandidateBinding, y: CandidateBinding) => TextOrder.Less(x.name, y.name);
    forall x, y | byName(x, y) ensures !byName(y, x) {
      TextOrder.Asymmetric(x.name, y.name);
    }
    StrictlySortedUnique(a, b, byName);
  }

  lemma BindingsIgnoreOrder(a: seq<Match>, b: seq<Match>, x: CandidateBindings, y: CandidateBindings)
    requires multiset(a) == multiset(b) && AreBindingsOf(a, x) && AreBindingsOf(b, y)
    ensures x == y
  {
    if Conflict(a) {
      ConflictIgnoresOrder(a, b);
    } else if Conflict(b) {
      ConflictIgnoresOrder(b, a);
    } else {
      forall v ensures v in x.values <==> v in y.values {
        if v in x.values {
          var i :| 0 <= i < |a| && v == BindingOf(a[i]);
          var k := PositionTransfers(b, a, i);
        }
        if v in y.values {
          var i :| 0 <= i < |b| && v == BindingOf(b[i]);
          var k := PositionTransfers(a, b, i);
        }
      }
      SortedBindingsUnique(x.values, y.values);
    }
  }

  lemma DecisionIgnoresMatchOrder(r: Relation, op: Operation, one: ScanRequest, two: ScanRequest,
                                  a: seq<Match>, b: seq<Match>, unmapped: bool)
    requires multiset(a) == multiset(b)
    requires one.scope == two.scope
    requires one.predicate' == two.predicate'
          || (one.predicate'.Conjunction? && two.predicate'.Conjunction?
              && |one.predicate'.children| == |two.predicate'.children|)
    ensures DecideFromMatches(r, op, one, a, unmapped) == DecideFromMatches(r, op, two, b, unmapped)
  {
    SameBagSameLength(a, b);
    if AllMatchesEquivalent(a) {
      EquivalenceIgnoresOrder(a, b);
    } else if AllMatchesEquivalent(b) {
      EquivalenceIgnoresOrder(b, a);
    }
  }

  lemma DecisionIgnoresConjunctOrder(r: Relation, op: Operation, one: ScanRequest, two: ScanRequest)
    requires Reordered(one.predicate', two.predicate')
    requires two == one.(predicate' := two.predicate')
    ensures Decide(r, op, one) == Decide(r, op, two)
  {
    hide Matches, AreBindingsOf, FactsHold, OperationFactsHold, DecideFromMatches;
    var p, q := one.predicate', two.predicate';
    ReorderingKeepsSizes(p, q);
    ReorderingKeepsBindings(r, p, q);
    if p.Conjunction? {
      ReorderingKeepsUnmapped(r, op, p, q);
      ReorderingKeepsMatches(r, op, p, q);
      ReorderingKeepsMatchesOfAll(r, op, p.children, q.children);
      DecisionIgnoresMatchOrder(r, op, one, two, ConjunctiveMatches(r, op, p), ConjunctiveMatches(r, op, q),
                                HasUnmapped(r, op, p));
    } else {
      SameFallback(r, op, one, two);
    }
  }

  /** Other than a conjunction, a reordered request falls back or is the request itself. */
  lemma SameFallback(r: Relation, op: Operation, one: ScanRequest, two: ScanRequest)
    requires Reordered(one.predicate', two.predicate') && !one.predicate'.Conjunction?
    requires two == one.(predicate' := two.predicate')
    ensures one == two || ((one.predicate'.Disjunction? || one.predicate'.Negation?)
                           && ResidualPredicate(r, op, one) == ResidualPredicate(r, op, two)
                           && ResidualTypedEquality(r, op, one) == ResidualTypedEquality(r, op, two))
  {
    hide Matches, LeafMatches;
  }

  /** Permuting the children of conjunctions, at any depth, changes neither the classification with its typed payload
      nor the conflict flag and sorted bindings that feed operation selection. */
  lemma PlanIgnoresConjunctOrder(r: Relation, op: Operation, one: ScanRequest, two: ScanRequest)
    requires Reordered(one.predicate', two.predicate')
    requires two == one.(predicate' := two.predicate')
    ensures Decide(r, op, one) == Decide(r, op, two)
    ensures forall x, y
              | AreBindingsOf(CandidateMatches(r, op, one), x) && AreBindingsOf(CandidateMatches(r, op, two), y)
              :: x == y
  {
    hide Decide, AreBindingsOf, ConjunctiveMatches;
    DecisionIgnoresConjunctOrder(r, op, one, two);
    ReorderingKeepsMatches(r, op, one.predicate', two.predicate');
    forall x, y | AreBindingsOf(CandidateMatches(r, op, one), x) && AreBindingsOf(CandidateMatches(r, op, two), y)
      ensures x == y
    {
      BindingsIgnoreOrder(CandidateMatches(r, op, one), CandidateMatches(r, op, two), x, y);
    }
  }
}

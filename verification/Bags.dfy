/** Positions of a list and the bag of its elements. */
module Bags {

  lemma TwoPositionsCount<T>(s: seq<T>, i: nat, j: nat)
    requires i < j < |s| && s[i] == s[j]
    ensures multiset(s)[s[i]] >= 2
  {
    assert s == s[..j] + ([s[j]] + s[j + 1..]);
    assert s[..j][i] == s[i];
    assert s[i] in multiset(s[..j]);
  }

  lemma SecondPosition<T>(s: seq<T>, k: nat) returns (l: nat)
    requires k < |s| && multiset(s)[s[k]] >= 2
    ensures l < |s| && l != k && s[l] == s[k]
  {
    assert s == s[..k] + ([s[k]] + s[k + 1..]);
    if s[k] in multiset(s[..k]) {
      l :| 0 <= l < k && s[l] == s[k];
    } else {
      assert s[k] in multiset(s[k + 1..]);
      var m :| 0 <= m < |s[k + 1..]| && s[k + 1..][m] == s[k];
      l := k + 1 + m;
    }
  }

  /** Two positions of a permuted list come from two positions of the original. */
  lemma PositionsTransfer<T>(a: seq<T>, b: seq<T>, i: nat, j: nat) returns (k: nat, l: nat)
    requires multiset(a) == multiset(b) && i < |b| && j < |b| && i != j
    ensures k < |a| && l < |a| && k != l && a[k] == b[i] && a[l] == b[j]
  {
    k := PositionTransfers(a, b, i);
    if b[i] != b[j] {
      l := PositionTransfers(a, b, j);
    } else {
      TwoPositionsCount(b, if i < j then i else j, if i < j then j else i);
      l := SecondPosition(a, k);
    }
  }

  lemma PositionTransfers<T>(a: seq<T>, b: seq<T>, i: nat) returns (k: nat)
    requires multiset(a) == multiset(b) && i < |b|
    ensures k < |a| && a[k] == b[i]
  {
    assert b[i] in multiset(b);
    assert b[i] in multiset(a);
    k :| 0 <= k < |a| && a[k] == b[i];
  }

  // ----- Distinct lists

  ghost predicate AllDistinct<T>(s: seq<T>) {
    forall i, j :: 0 <= i < j < |s| ==> s[i] != s[j]
  }

  lemma {:induction false} DistinctCount<T>(s: seq<T>, x: T)
    requires AllDistinct(s)
    ensures multiset(s)[x] == if x in s then 1 else 0
  {
    if s != [] {
      assert s == [s[0]] + s[1..];
      DistinctCount(s[1..], x);
    }
  }

  /** Lists without repetition that hold the same elements are permutations of each other. */
  lemma DistinctSameElements<T>(a: seq<T>, b: seq<T>)
    requires AllDistinct(a) && AllDistinct(b)
    requires forall x :: x in a <==> x in b
    ensures multiset(a) == multiset(b)
  {
    forall x ensures multiset(a)[x] == multiset(b)[x] {
      DistinctCount(a, x);
      DistinctCount(b, x);
    }
  }

  /** The naturals below `n`. */
  ghost function Range(n: nat): (r: set<nat>)
    ensures |r| == n
    ensures forall x: nat :: x in r <==> x < n
  {
    if n == 0 then {} else Range(n - 1) + {n - 1}
  }

  ghost function Elements<T>(s: seq<T>): set<T> {
    set x | x in s
  }

  lemma {:induction false} DistinctSize<T>(s: seq<T>)
    requires AllDistinct(s)
    ensures |Elements(s)| == |s|
  {
    if s != [] {
      DistinctSize(s[1..]);
      assert s[0] !in Elements(s[1..]);
      assert Elements(s) == {s[0]} + Elements(s[1..]);
    }
  }

  /** Distinct positions below `n` leave one out exactly when there are fewer than `n` of them. */
  lemma Pigeonhole(s: seq<nat>, n: nat)
    requires AllDistinct(s) && forall i :: 0 <= i < |s| ==> s[i] < n
    ensures |s| <= n
    ensures |s| < n <==> exists x: nat :: x < n && x !in s
  {
    var used := Elements(s);
    DistinctSize(s);
    assert used <= Range(n);
    assert Range(n) * used == used;
    assert |Range(n) - used| == n - |s|;
    if |s| < n {
      var x :| x in Range(n) - used;
    } else {
      forall x: nat | x < n ensures x in s {
        assert x in Range(n) && x !in Range(n) - used;
      }
    }
  }

  // ----- Strictly sorted lists

  ghost predicate StrictlySorted<T(!new)>(s: seq<T>, less: (T, T) -> bool) {
    forall i, j :: 0 <= i < j < |s| ==> less(s[i], s[j])
  }

  /** A strictly sorted list is determined by its elements. */
  lemma {:induction false} StrictlySortedUnique<T(!new)>(a: seq<T>, b: seq<T>, less: (T, T) -> bool)
    requires StrictlySorted(a, less) && StrictlySorted(b, less)
    requires forall x :: x in a <==> x in b
    requires forall x, y :: less(x, y) ==> !less(y, x)
    ensures a == b
  {
    assert b != [] ==> b[0] in a;
    if a != [] {
      assert a[0] in b;
      assert a[0] == b[0];
      forall x ensures x in a[1..] <==> x in b[1..] {
        assert x in a <==> x == a[0] || x in a[1..];
        assert x in b <==> x == b[0] || x in b[1..];
      }
      StrictlySortedUnique(a[1..], b[1..], less);
      assert a == [a[0]] + a[1..] && b == [b[0]] + b[1..];
    }
  }
}

/** Contiguous domain positions: the mapper's test on the sorted list and the checker's SQL aggregates
    (migrations/release/mapper.ts:682-695, migrations/release/invariants.ts:117-131). */
module Positions {
  import opened Common

  /** MIN(position) and MAX(position) of a non-empty group. */
  function Min(p: seq<int>): (m: int)
    requires p != []
    ensures m in p && forall x <- p :: m <= x
  {
    if |p| == 1 then p[0] else
      var m := Min(p[1..]);
      assert p == [p[0]] + p[1..];
      if p[0] < m then p[0] else m
  }

  function Max(p: seq<int>): (m: int)
    requires p != []
    ensures m in p && forall x <- p :: x <= m
  {
    if |p| == 1 then p[0] else
      var m := Max(p[1..]);
      assert p == [p[0]] + p[1..];
      if p[0] > m then p[0] else m
  }

  /** The three aggregate conditions of the checker; COUNT(DISTINCT position) is the size of the set. */
  predicate AggregatesContiguous(p: seq<int>) {
    p != [] && Min(p) == 0 && Max(p) == |p| - 1 && |Elements(p)| == |p|
  }

  /** The mapper's condition: entry i of the sorted list has position i. */
  predicate Enumerates(p: seq<int>) {
    forall i | 0 <= i < |p| :: p[i] == i
  }

  ghost predicate Ascending(p: seq<int>) {
    forall i, j | 0 <= i < j < |p| :: p[i] <= p[j]
  }

  lemma {:induction false} ElementsSize<T>(s: seq<T>)
    ensures |Elements(s)| <= |s|
    ensures |Elements(s)| == |s| ==> Distinct(s)
  {
    if s != [] {
      ElementsSize(s[1..]);
      assert s == [s[0]] + s[1..];
      assert Elements(s) == {s[0]} + Elements(s[1..]);
      if |Elements(s)| == |s| {
        assert s[0] !in Elements(s[1..]);
        forall i, j | 0 <= i < j < |s| ensures s[i] != s[j] {
          assert s[j] == s[1..][j - 1];
          if i > 0 { assert s[i] == s[1..][i - 1]; }
        }
      }
    }
  }

  /** Distinct ascending integers climb at least one per step, from both ends. */
  lemma {:induction false} ClimbsByOne(p: seq<int>, i: nat, j: nat)
    requires Ascending(p) && Distinct(p) && i <= j < |p|
    ensures p[j] >= p[i] + (j - i)
  {
    if i < j {
      ClimbsByOne(p, i, j - 1);
      assert p[j - 1] <= p[j] && p[j - 1] != p[j];
    }
  }

  lemma {:induction false} PermutationAggregates(p: seq<int>, q: seq<int>)
    requires multiset(p) == multiset(q)
    ensures AggregatesContiguous(p) <==> AggregatesContiguous(q)
  {
    SamePermutation(p, q);
    assert Elements(p) == Elements(q);
  }

  /** Over any number of domains both tests agree: the aggregates pin the sorted list down completely. */
  lemma {:induction false} AggregatesMeanEnumeration(p: seq<int>, sorted: seq<int>)
    requires p != [] && multiset(p) == multiset(sorted) && Ascending(sorted)
    ensures AggregatesContiguous(p) <==> Enumerates(sorted)
  {
    PermutationAggregates(p, sorted);
    SamePermutation(p, sorted);
    if AggregatesContiguous(sorted) {
      ElementsSize(sorted);
      assert sorted[0] in sorted && sorted[|sorted| - 1] in sorted;
      var first :| 0 <= first < |sorted| && sorted[first] == Min(sorted);
      var last :| 0 <= last < |sorted| && sorted[last] == Max(sorted);
      forall i | 0 <= i < |sorted| ensures sorted[i] == i {
        assert sorted[i] in sorted;
        ClimbsByOne(sorted, 0, i);
        ClimbsByOne(sorted, i, |sorted| - 1);
      }
    }
    if Enumerates(sorted) {
      assert Distinct(sorted);
      DistinctSize(sorted);
      assert sorted[0] in sorted && sorted[|sorted| - 1] in sorted;
    }
  }
}

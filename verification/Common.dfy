/** Small pieces shared by every model: options, filtering, and the sorting that
    JavaScript's stable Array.prototype.sort performs for a given comparator. */
module Common {

  datatype Option<+T> = None | Some(value: T)

  predicate IsLetter(c: char) { 'a' <= c <= 'z' || 'A' <= c <= 'Z' }

  function LastChars(s: string, n: nat): string { if |s| <= n then s else s[|s| - n..] }

  function Filter<T>(s: seq<T>, keep: T -> bool): seq<T> {
    if s == [] then [] else (if keep(s[0]) then [s[0]] else []) + Filter(s[1..], keep)
  }

  lemma {:induction false} FilterMembers<T>(s: seq<T>, keep: T -> bool)
    ensures forall x :: x in Filter(s, keep) <==> x in s && keep(x)
    ensures |Filter(s, keep)| <= |s|
  {
    if s != [] {
      FilterMembers(s[1..], keep);
      assert s == [s[0]] + s[1..];
    }
  }

  lemma {:induction false} FilterAppend<T>(s: seq<T>, t: seq<T>, keep: T -> bool)
    ensures Filter(s + t, keep) == Filter(s, keep) + Filter(t, keep)
  {
    if s == [] {
      assert s + t == t;
    } else {
      var head := if keep(s[0]) then [s[0]] else [];
      FilterAppend(s[1..], t, keep);
      assert (s + t)[1..] == s[1..] + t;
      assert head + (Filter(s[1..], keep) + Filter(t, keep)) == (head + Filter(s[1..], keep)) + Filter(t, keep);
    }
  }

  lemma {:induction false} FilterOne<T>(s: seq<T>, x: T, keep: T -> bool)
    ensures Filter(s + [x], keep) == Filter(s, keep) + if keep(x) then [x] else []
  {
    FilterAppend(s, [x], keep);
  }

  lemma {:induction false} FilterAll<T>(s: seq<T>, keep: T -> bool)
    requires forall x <- s :: keep(x)
    ensures Filter(s, keep) == s
  {
    if s != [] {
      FilterAll(s[1..], keep);
      assert s == [s[0]] + s[1..];
    }
  }

  lemma {:induction false} FilterNone<T>(s: seq<T>, keep: T -> bool)
    requires forall x <- s :: !keep(x)
    ensures Filter(s, keep) == []
  {
    if s != [] {
      FilterNone(s[1..], keep);
    }
  }

  lemma {:induction false} FilterHits<T>(s: seq<T>, p: T -> bool)
    ensures |Filter(s, p)| >= 2 <==> exists i, j | 0 <= i < j < |s| :: p(s[i]) && p(s[j])
    ensures |Filter(s, p)| >= 1 <==> exists i | 0 <= i < |s| :: p(s[i])
  {
    if s != [] {
      var rest := s[1..];
      FilterHits(rest, p);
      if |Filter(rest, p)| >= 1 {
        var j :| 0 <= j < |rest| && p(rest[j]);
        assert s[j + 1] == rest[j];
        if p(s[0]) { assert p(s[0]) && p(s[j + 1]); }
      }
      if |Filter(rest, p)| >= 2 {
        var i, j :| 0 <= i < j < |rest| && p(rest[i]) && p(rest[j]);
        assert s[i + 1] == rest[i] && s[j + 1] == rest[j];
      }
      forall i, j | 0 <= i < j < |s| && p(s[i]) && p(s[j]) ensures |Filter(s, p)| >= 2 {
        assert s[j] == rest[j - 1];
        if i > 0 { assert s[i] == rest[i - 1]; }
      }
      forall i | 0 <= i < |s| && p(s[i]) ensures |Filter(s, p)| >= 1 {
        if i > 0 { assert s[i] == rest[i - 1]; }
      }
    }
  }

  /** One record at one place, and nowhere else. */
  ghost predicate Once<T>(s: seq<T>, p: T -> bool) {
    exists i | 0 <= i < |s| :: p(s[i]) && forall j | 0 <= j < |s| && j != i :: !p(s[j])
  }

  lemma {:induction false} FilterOnce<T>(s: seq<T>, p: T -> bool)
    ensures |Filter(s, p)| == 1 <==> Once(s, p)
  {
    FilterHits(s, p);
    if |Filter(s, p)| == 1 {
      var i :| 0 <= i < |s| && p(s[i]);
      assert forall j | 0 <= j < |s| && j != i :: !p(s[j]);
    }
  }

  lemma {:induction false} SameOnce<T>(s: seq<T>, p: T -> bool, q: T -> bool)
    requires forall x <- s :: p(x) <==> q(x)
    ensures Once(s, p) <==> Once(s, q)
  {
  }

  function Map<S, T>(s: seq<S>, f: S -> T): (r: seq<T>)
    ensures |r| == |s|
    ensures forall i | 0 <= i < |s| :: r[i] == f(s[i])
  {
    if s == [] then [] else [f(s[0])] + Map(s[1..], f)
  }

  lemma {:induction false} MapAgrees<S, T>(s: seq<S>, f: S -> T, g: S -> T)
    requires forall x <- s :: f(x) == g(x)
    ensures Map(s, f) == Map(s, g)
  {
  }

  lemma {:induction false} MapMap<S, T, U>(s: seq<S>, f: S -> T, g: T -> U, h: S -> U)
    requires forall x <- s :: g(f(x)) == h(x)
    ensures Map(Map(s, f), g) == Map(s, h)
  {
  }

  lemma {:induction false} FilterMap<S, T>(s: seq<S>, f: S -> T, p: T -> bool, q: S -> bool)
    requires forall x <- s :: p(f(x)) <==> q(x)
    ensures Filter(Map(s, f), p) == Map(Filter(s, q), f)
  {
    if s != [] {
      FilterMap(s[1..], f, p, q);
      assert Map(s, f)[1..] == Map(s[1..], f);
    }
  }

  /** Equal filtered lists with equal first elements have equal filtered tails. */
  lemma {:induction false} FilterTails<T>(s: seq<T>, t: seq<T>, keep: T -> bool)
    requires s != [] && t != [] && s[0] == t[0] && Filter(s, keep) == Filter(t, keep)
    ensures Filter(s[1..], keep) == Filter(t[1..], keep)
  {
    if keep(s[0]) {
      assert Filter(s[1..], keep) == Filter(s, keep)[1..] && Filter(t[1..], keep) == Filter(t, keep)[1..];
    } else {
      assert Filter(s, keep) == Filter(s[1..], keep) && Filter(t, keep) == Filter(t[1..], keep);
    }
  }

  lemma {:induction false} ImageOf<S, T>(s: seq<S>, f: S -> T, x: S)
    requires x in s
    ensures f(x) in Map(s, f)
  {
    var i :| 0 <= i < |s| && s[i] == x;
    assert Map(s, f)[i] == f(x);
  }

  lemma {:induction false} Preimage<S, T>(s: seq<S>, f: S -> T, y: T) returns (x: S)
    requires y in Map(s, f)
    ensures x in s && f(x) == y
  {
    var i :| 0 <= i < |s| && Map(s, f)[i] == y;
    x := s[i];
  }

  lemma {:induction false} MapMembers<S, T>(s: seq<S>, f: S -> T)
    ensures forall y :: y in Map(s, f) <==> exists x <- s :: y == f(x)
  {
    forall y | y in Map(s, f) ensures exists x <- s :: y == f(x) {
      var i :| 0 <= i < |s| && Map(s, f)[i] == y;
      assert s[i] in s;
    }
    forall x <- s ensures f(x) in Map(s, f) {
      var i :| 0 <= i < |s| && s[i] == x;
      assert Map(s, f)[i] == f(x);
    }
  }

  /** The pieces f gives for every element, one after the other. */
  function Concat<S, T>(s: seq<S>, f: S -> seq<T>): seq<T> {
    if s == [] then [] else Concat(s[..|s| - 1], f) + f(s[|s| - 1])
  }

  lemma {:induction false} ConcatOne<S, T>(s: seq<S>, x: S, f: S -> seq<T>)
    ensures Concat(s + [x], f) == Concat(s, f) + f(x)
  {
    assert (s + [x])[..|s|] == s;
  }

  lemma {:induction false} ConcatMembers<S, T>(s: seq<S>, f: S -> seq<T>)
    ensures forall y :: y in Concat(s, f) <==> exists x <- s :: y in f(x)
  {
    if s != [] {
      ConcatMembers(s[..|s| - 1], f);
      assert s == s[..|s| - 1] + [s[|s| - 1]];
    }
  }

  lemma {:induction false} PieceIsIn<S, T>(s: seq<S>, f: S -> seq<T>, x: S)
    requires x in s
    ensures forall y <- f(x) :: y in Concat(s, f)
  {
    var most, last := s[..|s| - 1], s[|s| - 1];
    assert s == most + [last];
    if x != last {
      PieceIsIn(most, f, x);
    }
  }

  /** The element whose piece a member belongs to. */
  lemma {:induction false} PieceOf<S, T>(s: seq<S>, f: S -> seq<T>, y: T) returns (x: S)
    requires y in Concat(s, f)
    ensures x in s && y in f(x)
  {
    if y in f(s[|s| - 1]) {
      x := s[|s| - 1];
    } else {
      x := PieceOf(s[..|s| - 1], f, y);
    }
  }

  /** No value occurs twice. */
  ghost predicate Distinct<T>(s: seq<T>) {
    forall i, j | 0 <= i < j < |s| :: s[i] != s[j]
  }

  lemma {:induction false} DistinctPrefix<T>(s: seq<T>, n: nat)
    requires n <= |s| && Distinct(s)
    ensures Distinct(s[..n])
  {
  }

  lemma {:induction false} MapPrefix<S, T>(s: seq<S>, n: nat, f: S -> T)
    requires n <= |s|
    ensures Map(s[..n], f) == Map(s, f)[..n]
  {
  }

  lemma {:induction false} DistinctMultiplicity<T>(s: seq<T>)
    requires Distinct(s)
    ensures forall x <- s :: multiset(s)[x] == 1
  {
    if s != [] {
      DistinctMultiplicity(s[1..]);
      assert s == [s[0]] + s[1..];
    }
  }

  function Elements<T>(s: seq<T>): set<T> {
    set x <- s
  }

  /** A sequence without repetitions has as many elements as its element set. */
  lemma {:induction false} DistinctSize<T>(s: seq<T>)
    requires Distinct(s)
    ensures |Elements(s)| == |s|
  {
    if s != [] {
      DistinctSize(s[1..]);
      assert Elements(s) == {s[0]} + Elements(s[1..]);
    }
  }

  lemma {:induction false} MapAppend<S, T>(s: seq<S>, t: seq<S>, f: S -> T)
    ensures Map(s + t, f) == Map(s, f) + Map(t, f)
  {
  }

  lemma {:induction false} MapOne<S, T>(s: seq<S>, x: S, f: S -> T)
    ensures Map(s + [x], f) == Map(s, f) + [f(x)]
  {
  }

  lemma {:induction false} NextPrefix<T>(s: seq<T>, i: nat)
    requires i < |s|
    ensures s[..i + 1] == s[..i] + [s[i]]
  {
  }

  lemma {:induction false} NoMore<T>(s: seq<T>)
    ensures s + [] == s
  {
  }

  lemma {:induction false} WholePrefix<T>(s: seq<T>)
    ensures s[..|s|] == s
  {
  }

  lemma {:induction false} DistinctGrows<T>(s: seq<T>, x: T)
    ensures Distinct(s + [x]) <==> Distinct(s) && x !in s
  {
    var all := s + [x];
    if Distinct(all) {
      forall i, j | 0 <= i < j < |s| ensures s[i] != s[j] {
        assert all[i] != all[j];
      }
      forall i | 0 <= i < |s| ensures s[i] != x {
        assert all[i] != all[|s|];
      }
    }
  }

  ghost predicate All<T>(s: seq<T>, p: T -> bool) { forall x <- s :: p(x) }

  lemma {:induction false} AllGrows<T>(s: seq<T>, x: T, p: T -> bool)
    ensures All(s + [x], p) <==> All(s, p) && p(x)
  {
    if All(s + [x], p) {
      forall y <- s ensures p(y) { assert y in s + [x]; }
      assert x in s + [x];
    }
  }

  lemma {:induction false} AllAppend<T>(s: seq<T>, t: seq<T>, p: T -> bool)
    ensures All(s + t, p) <==> All(s, p) && All(t, p)
  {
    if All(s + t, p) {
      forall x <- s ensures p(x) { assert x in s + t; }
      forall x <- t ensures p(x) { assert x in s + t; }
    }
  }

  lemma {:induction false} Regrouped<T>(a: seq<T>, b: seq<T>, c: seq<T>)
    ensures a + (b + c) == (a + b) + c
  {
  }

  lemma {:induction false} ConcatAppend<S, T>(s: seq<S>, t: seq<S>, f: S -> seq<T>)
    ensures Concat(s + t, f) == Concat(s, f) + Concat(t, f)
  {
    if t == [] {
      NoMore(s);
      NoMore(Concat(s, f));
    } else {
      var most, last := t[..|t| - 1], t[|t| - 1];
      ConcatAppend(s, most, f);
      assert t == most + [last];
      Regrouped(s, most, [last]);
      ConcatOne(s + most, last, f);
      ConcatOne(most, last, f);
      Regrouped(Concat(s, f), Concat(most, f), f(last));
    }
  }

  /** Filtering keeps the images under f apart. */
  lemma {:induction false} FilterKeepsDistinct<S, T>(s: seq<S>, keep: S -> bool, f: S -> T)
    requires Distinct(Map(s, f))
    ensures Distinct(Map(Filter(s, keep), f))
  {
    if s != [] {
      var most, last := s[..|s| - 1], s[|s| - 1];
      assert s == most + [last];
      MapOne(most, last, f);
      DistinctGrows(Map(most, f), f(last));
      FilterKeepsDistinct(most, keep, f);
      FilterOne(most, last, keep);
      if keep(last) {
        StillApart(most, last, keep, f);
      }
    }
  }

  lemma {:induction false} StillApart<S, T>(most: seq<S>, last: S, keep: S -> bool, f: S -> T)
    requires f(last) !in Map(most, f) && Distinct(Map(Filter(most, keep), f))
    ensures Distinct(Map(Filter(most, keep) + [last], f))
  {
    var kept := Filter(most, keep);
    FilterMembers(most, keep);
    if f(last) in Map(kept, f) {
      var x := Preimage(kept, f, f(last));
      ImageOf(most, f, x);
    }
    MapOne(kept, last, f);
    DistinctGrows(Map(kept, f), f(last));
  }

  // ------------------------------------------------------------------ orders

  ghost predicate StrictTotalOrder<T(!new)>(less: (T, T) -> bool) {
    && (forall x :: !less(x, x))
    && (forall x, y, z :: less(x, y) && less(y, z) ==> less(x, z))
    && (forall x, y :: x != y ==> less(x, y) || less(y, x))
  }

  /** What a comparator must satisfy for sorting to be meaningful: ties are transitive. */
  ghost predicate StrictWeakOrder<T(!new)>(less: (T, T) -> bool) {
    && (forall x, y :: less(x, y) ==> !less(y, x))
    && (forall x, y, z :: !less(y, x) && !less(z, y) ==> !less(z, x))
  }

  /** No element is followed by a smaller one. */
  ghost predicate Sorted<T>(s: seq<T>, less: (T, T) -> bool) {
    forall i, j | 0 <= i < j < |s| :: !less(s[j], s[i])
  }

  function Insert<T>(x: T, s: seq<T>, less: (T, T) -> bool): (r: seq<T>)
    ensures multiset(r) == multiset(s) + multiset{x}
  {
    if s == [] then [x]
    else if !less(s[0], x) then [x] + s
    else
      assert s == [s[0]] + s[1..];
      [s[0]] + Insert(x, s[1..], less)
  }

  /** Stable sort: elements that compare equal keep their input order. */
  function Sort<T>(s: seq<T>, less: (T, T) -> bool): (r: seq<T>)
    ensures multiset(r) == multiset(s)
  {
    if s == [] then []
    else
      assert s == [s[0]] + s[1..];
      Insert(s[0], Sort(s[1..], less), less)
  }

  lemma {:induction false} SamePermutation<T>(s: seq<T>, t: seq<T>)
    requires multiset(s) == multiset(t)
    ensures |s| == |t|
    ensures forall x :: x in s <==> x in t
  {
    assert |multiset(s)| == |s| && |multiset(t)| == |t|;
    forall x ensures x in s <==> x in t {
      assert x in s <==> x in multiset(s);
      assert x in t <==> x in multiset(t);
    }
  }

  lemma {:induction false} RemoveOne<T>(front: seq<T>, x: T, back: seq<T>)
    ensures multiset(front + back) == multiset(front + [x] + back) - multiset{x}
  {
  }

  lemma {:induction false} FilterAround<T>(front: seq<T>, x: T, back: seq<T>, keep: T -> bool)
    ensures Filter(front + [x] + back, keep) == Filter(front, keep) + (if keep(x) then [x] else []) + Filter(back, keep)
  {
    FilterAppend(front + [x], back, keep);
    FilterAppend(front, [x], keep);
  }

  lemma {:induction false} FilterPermuted<T>(s: seq<T>, t: seq<T>, keep: T -> bool)
    requires multiset(s) == multiset(t)
    ensures multiset(Filter(s, keep)) == multiset(Filter(t, keep))
  {
    SamePermutation(s, t);
    if s != [] {
      assert s[0] in t;
      var j :| 0 <= j < |t| && t[j] == s[0];
      var front, back := t[..j], t[j + 1..];
      assert t == front + [s[0]] + back;
      TailMultiset(s);
      RemoveOne(front, s[0], back);
      FilterPermuted(s[1..], front + back, keep);
      FilterAround(front, s[0], back, keep);
      FilterAppend(front, back, keep);
    }
  }

  lemma {:induction false} MapPermuted<S, T>(s: seq<S>, t: seq<S>, f: S -> T)
    requires multiset(s) == multiset(t)
    ensures multiset(Map(s, f)) == multiset(Map(t, f))
  {
    SamePermutation(s, t);
    if s != [] {
      assert s[0] in t;
      var j :| 0 <= j < |t| && t[j] == s[0];
      var front, back := t[..j], t[j + 1..];
      assert t == front + [s[0]] + back;
      TailMultiset(s);
      RemoveOne(front, s[0], back);
      MapPermuted(s[1..], front + back, f);
      MapAround(front, s[0], back, f);
    }
  }

  lemma {:induction false} InsertOne<T>(front: seq<T>, x: T, back: seq<T>)
    ensures multiset(front + [x] + back) == multiset(front + back) + multiset{x}
  {
  }

  lemma {:induction false} MapAround<S, T>(front: seq<S>, x: S, back: seq<S>, f: S -> T)
    ensures multiset(Map(front + [x] + back, f)) == multiset(Map(front + back, f)) + multiset{f(x)}
  {
    MapAppend(front + [x], back, f);
    MapOne(front, x, f);
    MapAppend(front, back, f);
    InsertOne(Map(front, f), f(x), Map(back, f));
    assert Map(front + [x] + back, f) == Map(front, f) + [f(x)] + Map(back, f);
  }

  lemma {:induction false} DistinctAppend<T>(s: seq<T>, t: seq<T>)
    requires Distinct(s) && Distinct(t)
    requires forall x <- s :: x !in t
    ensures Distinct(s + t)
  {
    forall i, j | 0 <= i < j < |s + t| ensures (s + t)[i] != (s + t)[j] {
      if i < |s| <= j {
        assert s[i] in s && t[j - |s|] in t;
      }
    }
  }

  lemma {:induction false} PermutationDistinct<T>(s: seq<T>, t: seq<T>)
    requires multiset(s) == multiset(t) && Distinct(s)
    ensures Distinct(t)
  {
    DistinctMultiplicity(s);
    SamePermutation(s, t);
    forall i, j | 0 <= i < j < |t| ensures t[i] != t[j] {
      assert t == t[..i] + [t[i]] + t[i + 1..j] + [t[j]] + t[j + 1..];
      assert t[i] in s;
    }
  }

  lemma {:induction false} InsertKeepsSorted<T(!new)>(x: T, s: seq<T>, less: (T, T) -> bool)
    requires StrictWeakOrder(less) && Sorted(s, less)
    ensures Sorted(Insert(x, s, less), less)
  {
    if s != [] && less(s[0], x) {
      InsertKeepsSorted(x, s[1..], less);
      var r := Insert(x, s[1..], less);
      forall k | 0 <= k < |r| ensures !less(r[k], s[0]) {
        assert r[k] in multiset(r);
        assert r[k] == x || r[k] in multiset(s[1..]);
      }
    }
  }

  lemma {:induction false} SortSorts<T(!new)>(s: seq<T>, less: (T, T) -> bool)
    requires StrictWeakOrder(less)
    ensures Sorted(Sort(s, less), less)
  {
    if s != [] {
      SortSorts(s[1..], less);
      InsertKeepsSorted(s[0], Sort(s[1..], less), less);
    }
  }

  lemma {:induction false} TailMultiset<T>(s: seq<T>)
    requires s != []
    ensures multiset(s[1..]) == multiset(s) - multiset{s[0]}
  {
    assert s == [s[0]] + s[1..];
  }

  lemma {:induction false} SortedHeads<T(!new)>(s: seq<T>, t: seq<T>, less: (T, T) -> bool)
    requires s != [] && t != [] && s[0] in t && t[0] in s
    requires Sorted(s, less) && Sorted(t, less)
    requires s[0] == t[0] || less(s[0], t[0]) || less(t[0], s[0])
    ensures s[0] == t[0]
  {
  }

  lemma {:induction false} HeadAndTail<T>(s: seq<T>)
    requires s != []
    ensures s == [s[0]] + s[1..]
  {
  }

  /** Two sorted arrangements of the same elements agree when no two different elements tie. */
  lemma {:induction false} SortedUnique<T(!new)>(s: seq<T>, t: seq<T>, less: (T, T) -> bool)
    requires Sorted(s, less) && Sorted(t, less)
    requires multiset(s) == multiset(t)
    requires forall x, y | x in s && y in s && x != y :: less(x, y) || less(y, x)
    ensures s == t
  {
    SamePermutation(s, t);
    if s != [] {
      assert s[0] in t && t[0] in s;
      SortedHeads(s, t, less);
      TailMultiset(s);
      TailMultiset(t);
      SortedUnique(s[1..], t[1..], less);
      HeadAndTail(s);
      HeadAndTail(t);
    }
  }

  lemma {:induction false} FilterFront<T>(x: T, s: seq<T>, keep: T -> bool)
    ensures Filter([x] + s, keep) == (if keep(x) then [x] else []) + Filter(s, keep)
  {
    assert ([x] + s)[1..] == s;
  }

  /** Inserting before everything that is not smaller keeps the order within a class of ties. */
  lemma {:induction false} InsertKeepsTies<T>(x: T, s: seq<T>, less: (T, T) -> bool, keep: T -> bool)
    requires keep(x) ==> forall y <- s :: keep(y) ==> !less(y, x)
    ensures Filter(Insert(x, s, less), keep) == (if keep(x) then [x] else []) + Filter(s, keep)
  {
    if s != [] && less(s[0], x) {
      InsertKeepsTies(x, s[1..], less, keep);
      assert Insert(x, s, less) == [s[0]] + Insert(x, s[1..], less);
      FilterFront(s[0], Insert(x, s[1..], less), keep);
      if keep(x) { assert s[0] in s && !keep(s[0]); }
    } else {
      assert Insert(x, s, less) == [x] + s;
      FilterFront(x, s, keep);
    }
  }

  /** The sort is stable: elements that are not ordered among themselves keep their order. */
  lemma {:induction false} SortKeepsTies<T>(s: seq<T>, less: (T, T) -> bool, keep: T -> bool)
    requires forall x, y | x in s && y in s && keep(x) && keep(y) :: !less(x, y)
    ensures Filter(Sort(s, less), keep) == Filter(s, keep)
  {
    if s != [] {
      var rest := Sort(s[1..], less);
      SortKeepsTies(s[1..], less, keep);
      forall y <- rest ensures y in s {
        assert y in multiset(rest) && y in multiset(s[1..]);
      }
      InsertKeepsTies(s[0], rest, less, keep);
    }
  }

  /** Sorting forgets the input order. */
  lemma {:induction false} SortCanonical<T(!new)>(s: seq<T>, t: seq<T>, less: (T, T) -> bool)
    requires StrictWeakOrder(less)
    requires multiset(s) == multiset(t)
    requires forall x, y | x in s && y in s && x != y :: less(x, y) || less(y, x)
    ensures Sort(s, less) == Sort(t, less)
  {
    SortSorts(s, less);
    SortSorts(t, less);
    SamePermutation(s, Sort(s, less));
    SortedUnique(Sort(s, less), Sort(t, less), less);
  }

  /** Sorting what is already sorted changes nothing (stability). */
  lemma {:induction false} SortFixed<T>(s: seq<T>, less: (T, T) -> bool)
    requires Sorted(s, less)
    ensures Sort(s, less) == s
  {
    if |s| > 1 {
      SortFixed(s[1..], less);
      assert !less(s[1], s[0]);
    }
  }
}

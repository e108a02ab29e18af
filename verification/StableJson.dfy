/** Canonical JSON (migrations/release/stable.ts:14-28): every object rebuilt with its keys in sorted order. */
module StableJson {
  import opened Common

  /** A JSON value as JavaScript holds it: an object is its own properties in enumeration order. */
  datatype Json = Null | Bool(b: bool) | Number(n: real) | Text(s: string) | List(items: seq<Json>) | Object(entries: seq<Entry>)
  datatype Entry = Entry(key: string, value: Json)

  /** Property names are unique. */
  ghost predicate Proper(v: Json) {
    match v
    case List(items) => forall i | 0 <= i < |items| :: Proper(items[i])
    case Object(entries) => Distinct(Map(entries, KeyOf)) && forall i | 0 <= i < |entries| :: Proper(entries[i].value)
    case _ => true
  }

  function KeyOf(e: Entry): string { e.key }

  // --------------------------------------------------------- JavaScript objects

  const PROTO := "__proto__"

  /** Array-index property names, which objects enumerate first and in numeric order. */
  predicate IsIndex(key: string) {
    1 <= |key| <= 10 && (forall c <- key :: '0' <= c <= '9') && (key[0] == '0' ==> |key| == 1) && (|key| == 10 ==> !Above(key, "4294967294"))
  }

  predicate Above(a: string, b: string)
    requires |a| == |b|
  {
    a != "" && (a[0] > b[0] || (a[0] == b[0] && Above(a[1..], b[1..])))
  }

  predicate IndexBefore(a: string, b: string) {
    |a| < |b| || (|a| == |b| && Above(b, a))
  }

  /** Where a new property goes: index names in numeric order before all others, other names at the end. */
  function Placed(entries: seq<Entry>, e: Entry): (r: seq<Entry>)
    ensures multiset(r) == multiset(entries) + multiset{e}
  {
    if entries == [] then [e]
    else if IsIndex(e.key) && (!IsIndex(entries[0].key) || IndexBefore(e.key, entries[0].key)) then [e] + entries
    else
      assert entries == [entries[0]] + entries[1..];
      [entries[0]] + Placed(entries[1..], e)
  }

  /** object[key] = value for a name the object does not have yet; assigning __proto__ sets the prototype
      and creates no property. */
  function Put(entries: seq<Entry>, e: Entry): seq<Entry> {
    if e.key == PROTO then entries else Placed(entries, e)
  }

  /** The object a loop over the given properties builds. */
  function Built(entries: seq<Entry>): seq<Entry> {
    if entries == [] then [] else Put(Built(entries[..|entries| - 1]), entries[|entries| - 1])
  }

  // ------------------------------------------------------------------- sortJson

  function ByKey(less: (string, string) -> bool): (Entry, Entry) -> bool {
    (l: Entry, r: Entry) => less(l.key, r.key)
  }

  function SortJson(less: (string, string) -> bool, v: Json): Json
    decreases v
  {
    match v
    case List(items) => List(seq(|items|, i requires 0 <= i < |items| => SortJson(less, items[i])))
    case Object(entries) => Object(Built(Sort(SortedValues(less, v), ByKey(less))))
    case _ => v
  }

  /** The properties of an object with their values already canonical. */
  function SortedValues(less: (string, string) -> bool, v: Json): (r: seq<Entry>)
    requires v.Object?
    ensures |r| == |v.entries|
    decreases v, 0
  {
    seq(|v.entries|, i requires 0 <= i < |v.entries| => Entry(v.entries[i].key, SortJson(less, v.entries[i].value)))
  }

  /** sortJson as the program runs it: sort the keys, then fill a new object in a loop. */
  method SortJsonValue(less: (string, string) -> bool, v: Json) returns (r: Json)
    ensures r == SortJson(less, v)
    decreases v, 1
  {
    match v {
      case List(_) => r := SortList(less, v);
      case Object(_) =>
        var values := SortValues(less, v);
        var ordered := Sort(values, ByKey(less));
        var properties := FillObject(ordered);
        r := Object(properties);
      case _ => r := v;
    }
  }

  method SortList(less: (string, string) -> bool, v: Json) returns (r: Json)
    requires v.List?
    ensures r == SortJson(less, v)
    decreases v, 0
  {
    var sorted: seq<Json> := [];
    for i := 0 to |v.items|
      invariant |sorted| == i && forall j | 0 <= j < i :: sorted[j] == SortJson(less, v.items[j])
    {
      var item := SortJsonValue(less, v.items[i]);
      sorted := sorted + [item];
    }
    r := List(sorted);
  }

  method SortValues(less: (string, string) -> bool, v: Json) returns (values: seq<Entry>)
    requires v.Object?
    ensures values == SortedValues(less, v)
    decreases v, 0
  {
    values := [];
    for i := 0 to |v.entries|
      invariant |values| == i && forall j | 0 <= j < i :: values[j] == Entry(v.entries[j].key, SortJson(less, v.entries[j].value))
    {
      var value := SortJsonValue(less, v.entries[i].value);
      values := values + [Entry(v.entries[i].key, value)];
    }
  }

  method FillObject(ordered: seq<Entry>) returns (properties: seq<Entry>)
    ensures properties == Built(ordered)
  {
    properties := [];
    for i := 0 to |ordered|
      invariant properties == Built(ordered[..i])
    {
      assert ordered[..i + 1][..i] == ordered[..i];
      properties := Put(properties, ordered[i]);
    }
    WholePrefix(ordered);
  }

  // --------------------------------------------------------------- key order aside

  /** Equal up to the order of object keys, at any depth. */
  ghost predicate Same(v: Json, w: Json)
    decreases v
  {
    match v
    case List(items) => w.List? && |items| == |w.items| && forall i | 0 <= i < |items| :: Same(items[i], w.items[i])
    case Object(entries) =>
      w.Object? && |entries| == |w.entries|
      && forall i | 0 <= i < |entries| :: exists j | 0 <= j < |w.entries| ::
           entries[i].key == w.entries[j].key && Same(entries[i].value, w.entries[j].value)
    case _ => v == w
  }

  lemma {:induction false} KeysDiffer(entries: seq<Entry>, i: nat, j: nat)
    requires Distinct(Map(entries, KeyOf)) && i < |entries| && j < |entries| && entries[i].key == entries[j].key
    ensures i == j
  {
    var keys := Map(entries, KeyOf);
    assert keys[i] == keys[j];
  }

  lemma {:induction false} LastApart(most: seq<Entry>, last: Entry)
    requires Distinct(Map(most + [last], KeyOf))
    ensures Distinct(Map(most, KeyOf)) && last !in most
  {
    MapOne(most, last, KeyOf);
    DistinctGrows(Map(most, KeyOf), last.key);
    MapMembers(most, KeyOf);
  }

  lemma {:induction false} StillContained(most: seq<Entry>, last: Entry, front: seq<Entry>, back: seq<Entry>)
    requires last !in most && forall e <- most + [last] :: e in front + [last] + back
    ensures forall e <- most :: e in front + back
  {
    forall e <- most ensures e in front + back {
      assert e in most + [last];
    }
  }

  /** Sequences of distinct keys with equal length, one contained in the other, are permutations. */
  lemma {:induction false} ContainedIsPermutation(a: seq<Entry>, b: seq<Entry>)
    requires Distinct(Map(a, KeyOf)) && |a| == |b|
    requires forall e <- a :: e in b
    ensures multiset(a) == multiset(b)
  {
    if a != [] {
      var most, last := a[..|a| - 1], a[|a| - 1];
      assert a == most + [last];
      LastApart(most, last);
      assert last in b;
      var j :| 0 <= j < |b| && b[j] == last;
      var front, back := b[..j], b[j + 1..];
      assert b == front + [last] + back;
      StillContained(most, last, front, back);
      ContainedIsPermutation(most, front + back);
      InsertOne(front, last, back);
    }
  }

  lemma {:induction false} ValuesKeepKeys(less: (string, string) -> bool, v: Json)
    requires v.Object?
    ensures Map(SortedValues(less, v), KeyOf) == Map(v.entries, KeyOf)
  {
  }

  lemma {:induction false} KeyOrderIsWeak(less: (string, string) -> bool)
    requires StrictTotalOrder(less)
    ensures StrictWeakOrder(ByKey(less))
  {
    forall x, y | ByKey(less)(x, y) ensures !ByKey(less)(y, x) {
      assert less(x.key, y.key) && !less(x.key, x.key);
    }
    forall x, y, z | !ByKey(less)(y, x) && !ByKey(less)(z, y) ensures !ByKey(less)(z, x) {
      assert x.key == y.key || less(x.key, y.key);
      assert y.key == z.key || less(y.key, z.key);
    }
  }

  lemma {:induction false} SortIgnoresOrder(less: (string, string) -> bool, a: seq<Entry>, b: seq<Entry>)
    requires StrictTotalOrder(less) && Distinct(Map(a, KeyOf)) && multiset(a) == multiset(b)
    ensures Sort(a, ByKey(less)) == Sort(b, ByKey(less))
  {
    KeyOrderIsWeak(less);
    forall x, y | x in a && y in a && x != y ensures ByKey(less)(x, y) || ByKey(less)(y, x) {
      var i :| 0 <= i < |a| && a[i] == x;
      var j :| 0 <= j < |a| && a[j] == y;
      if x.key == y.key { KeysDiffer(a, i, j); }
    }
    SortCanonical(a, b, ByKey(less));
  }

  /** Values that differ only in key order have one canonical form. */
  lemma {:induction false} CanonicalIgnoresKeyOrder(less: (string, string) -> bool, v: Json, w: Json)
    requires StrictTotalOrder(less) && Proper(v) && Proper(w) && Same(v, w)
    ensures SortJson(less, v) == SortJson(less, w)
    decreases v
  {
    match v {
      case List(items) =>
        forall i | 0 <= i < |items| ensures SortJson(less, items[i]) == SortJson(less, w.items[i]) {
          CanonicalIgnoresKeyOrder(less, items[i], w.items[i]);
        }
      case Object(entries) =>
        var a, b := SortedValues(less, v), SortedValues(less, w);
        forall e <- a ensures e in b {
          var i :| 0 <= i < |a| && a[i] == e;
          CanonicalProperty(less, v, w, i);
        }
        ValuesKeepKeys(less, v);
        ContainedIsPermutation(a, b);
        SortIgnoresOrder(less, a, b);
      case _ =>
    }
  }

  lemma {:induction false} CanonicalProperty(less: (string, string) -> bool, v: Json, w: Json, i: nat)
    requires StrictTotalOrder(less) && Proper(v) && Proper(w) && Same(v, w) && v.Object? && i < |v.entries|
    ensures SortedValues(less, v)[i] in SortedValues(less, w)
    decreases v, 0
  {
    var j :| 0 <= j < |w.entries| && v.entries[i].key == w.entries[j].key && Same(v.entries[i].value, w.entries[j].value);
    CanonicalIgnoresKeyOrder(less, v.entries[i].value, w.entries[j].value);
    assert SortedValues(less, w)[j] == SortedValues(less, v)[i];
  }

  // -------------------------------------------------------------- the lost property

  /** No object at any depth has an own property named __proto__ (JSON.parse can create one). */
  ghost predicate Clean(v: Json) {
    match v
    case List(items) => forall i | 0 <= i < |items| :: Clean(items[i])
    case Object(entries) => forall i | 0 <= i < |entries| :: entries[i].key != PROTO && Clean(entries[i].value)
    case _ => true
  }

  predicate Assignable(e: Entry) { e.key != PROTO }

  /** Building keeps every assignable property and loses the others. */
  lemma {:induction false} BuiltKeeps(entries: seq<Entry>)
    ensures multiset(Built(entries)) == multiset(Filter(entries, Assignable))
  {
    if entries != [] {
      var most, last := entries[..|entries| - 1], entries[|entries| - 1];
      assert entries == most + [last];
      FilterAppend(most, [last], Assignable);
      BuiltKeeps(most);
    }
  }

  lemma {:induction false} CanonicalEntries(less: (string, string) -> bool, v: Json)
    requires v.Object?
    ensures multiset(SortJson(less, v).entries) == multiset(Filter(SortedValues(less, v), Assignable))
  {
    var values := SortedValues(less, v);
    var sorted := Sort(values, ByKey(less));
    BuiltKeeps(sorted);
    FilterPermuted(values, sorted, Assignable);
  }

  /** Where a property of the canonical form comes from. */
  lemma {:induction false} CanonicalSource(less: (string, string) -> bool, v: Json, k: nat) returns (j: nat)
    requires v.Object? && k < |SortJson(less, v).entries|
    ensures j < |v.entries| && SortJson(less, v).entries[k] == Entry(v.entries[j].key, SortJson(less, v.entries[j].value))
  {
    var values, kept, built := SortedValues(less, v), Filter(SortedValues(less, v), Assignable), SortJson(less, v).entries;
    CanonicalEntries(less, v);
    FilterMembers(values, Assignable);
    SamePermutation(kept, built);
    assert built[k] in kept;
    assert built[k] in values;
    j :| 0 <= j < |values| && values[j] == built[k];
  }

  /** The canonical form is proper again. */
  lemma {:induction false} CanonicalIsProper(less: (string, string) -> bool, v: Json)
    requires Proper(v)
    ensures Proper(SortJson(less, v))
    decreases v
  {
    match v {
      case List(items) =>
        forall i | 0 <= i < |items| ensures Proper(SortJson(less, items[i])) {
          CanonicalIsProper(less, items[i]);
        }
      case Object(_) =>
        CanonicalKeysDistinct(less, v);
        forall k | 0 <= k < |SortJson(less, v).entries| ensures Proper(SortJson(less, v).entries[k].value) {
          var j := CanonicalSource(less, v, k);
          CanonicalIsProper(less, v.entries[j].value);
        }
      case _ =>
    }
  }

  lemma {:induction false} CanonicalKeysDistinct(less: (string, string) -> bool, v: Json)
    requires v.Object? && Distinct(Map(v.entries, KeyOf))
    ensures Distinct(Map(SortJson(less, v).entries, KeyOf))
  {
    var kept := Filter(SortedValues(less, v), Assignable);
    CanonicalEntries(less, v);
    ValuesKeepKeys(less, v);
    FilterKeepsDistinct(SortedValues(less, v), Assignable, KeyOf);
    MapPermuted(kept, SortJson(less, v).entries, KeyOf);
    PermutationDistinct(Map(kept, KeyOf), Map(SortJson(less, v).entries, KeyOf));
  }

  /** Where a property of the value is found in the canonical form. */
  lemma {:induction false} CanonicalPlace(less: (string, string) -> bool, v: Json, i: nat) returns (j: nat)
    requires v.Object? && i < |v.entries| && v.entries[i].key != PROTO
    ensures j < |SortJson(less, v).entries|
    ensures SortJson(less, v).entries[j] == Entry(v.entries[i].key, SortJson(less, v.entries[i].value))
  {
    var values, kept, built := SortedValues(less, v), Filter(SortedValues(less, v), Assignable), SortJson(less, v).entries;
    CanonicalEntries(less, v);
    FilterMembers(values, Assignable);
    SamePermutation(kept, built);
    assert values[i] in kept;
    assert values[i] in built;
    j :| 0 <= j < |built| && built[j] == values[i];
  }

  lemma {:induction false} CanonicalSize(less: (string, string) -> bool, v: Json)
    requires v.Object?
    ensures |SortJson(less, v).entries| <= |v.entries|
    ensures |SortJson(less, v).entries| == |v.entries| <==> forall i | 0 <= i < |v.entries| :: v.entries[i].key != PROTO
  {
    var values := SortedValues(less, v);
    CanonicalEntries(less, v);
    SamePermutation(SortJson(less, v).entries, Filter(values, Assignable));
    FilterSize(values, Assignable);
    forall i | 0 <= i < |values| ensures values[i].key == v.entries[i].key && values[i] in values {}
    if forall i | 0 <= i < |v.entries| :: v.entries[i].key != PROTO {
      assert forall e <- values :: Assignable(e);
    }
    if forall e <- values :: Assignable(e) {
      assert forall i | 0 <= i < |values| :: Assignable(values[i]);
    }
  }

  lemma {:induction false} FilterSize<T>(s: seq<T>, keep: T -> bool)
    ensures |Filter(s, keep)| <= |s|
    ensures |Filter(s, keep)| == |s| <==> forall x <- s :: keep(x)
  {
    if s != [] {
      FilterSize(s[1..], keep);
      assert s == [s[0]] + s[1..];
    }
  }

  /** Exactly the values without an own __proto__ survive canonicalisation up to key order. */
  lemma {:induction false} SurvivesExactlyWhenClean(less: (string, string) -> bool, v: Json)
    requires Proper(v)
    ensures Same(v, SortJson(less, v)) <==> Clean(v)
    decreases v
  {
    match v {
      case List(items) =>
        forall i | 0 <= i < |items| ensures Same(items[i], SortJson(less, items[i])) <==> Clean(items[i]) {
          SurvivesExactlyWhenClean(less, items[i]);
        }
      case Object(entries) =>
        CanonicalSize(less, v);
        CanonicalIsProper(less, v);
        if forall i | 0 <= i < |entries| :: entries[i].key != PROTO {
          PropertiesSurvive(less, v);
        }
      case _ =>
    }
  }

  lemma {:induction false} PropertiesSurvive(less: (string, string) -> bool, v: Json)
    requires v.Object? && Proper(v) && forall i | 0 <= i < |v.entries| :: v.entries[i].key != PROTO
    ensures Same(v, SortJson(less, v)) <==> Clean(v)
    decreases v, 0
  {
    var entries, built := v.entries, SortJson(less, v).entries;
    CanonicalSize(less, v);
    CanonicalIsProper(less, v);
    forall i | 0 <= i < |entries|
      ensures (exists j | 0 <= j < |built| :: entries[i].key == built[j].key && Same(entries[i].value, built[j].value))
         <==> Clean(entries[i].value)
    {
      SurvivesExactlyWhenClean(less, entries[i].value);
      var k := CanonicalPlace(less, v, i);
      if j :| 0 <= j < |built| && entries[i].key == built[j].key && Same(entries[i].value, built[j].value) {
        KeysDiffer(built, j, k);
      }
    }
  }

  // ------------------------------------------------------------------- fingerprints

  /** Among clean values the canonical form is faithful: it forgets key order and nothing else. */
  lemma {:induction false} CanonicalIsFaithful(less: (string, string) -> bool, v: Json, w: Json)
    requires StrictTotalOrder(less) && Proper(v) && Proper(w) && Clean(v) && Clean(w)
    ensures SortJson(less, v) == SortJson(less, w) <==> Same(v, w)
  {
    if Same(v, w) {
      CanonicalIgnoresKeyOrder(less, v, w);
    }
    if SortJson(less, v) == SortJson(less, w) {
      EqualFormsAreSame(less, v, w);
    }
  }

  lemma {:induction false} EqualFormsAreSame(less: (string, string) -> bool, v: Json, w: Json)
    requires Proper(v) && Proper(w) && Clean(v) && Clean(w) && SortJson(less, v) == SortJson(less, w)
    ensures Same(v, w)
    decreases v
  {
    match v {
      case List(items) =>
        forall i | 0 <= i < |items| ensures Same(items[i], w.items[i]) {
          assert SortJson(less, v).items[i] == SortJson(less, w).items[i];
          EqualFormsAreSame(less, items[i], w.items[i]);
        }
      case Object(entries) =>
        CanonicalSize(less, v);
        CanonicalSize(less, w);
        forall i | 0 <= i < |entries|
          ensures exists j | 0 <= j < |w.entries| :: entries[i].key == w.entries[j].key && Same(entries[i].value, w.entries[j].value)
        {
          var k := CanonicalPlace(less, v, i);
          var j := CanonicalSource(less, w, k);
          EqualFormsAreSame(less, entries[i].value, w.entries[j].value);
        }
      case _ =>
    }
  }

  lemma {:induction false} ValuesOfLonger(less: (string, string) -> bool, entries: seq<Entry>, e: Entry)
    ensures SortedValues(less, Object(entries + [e]))
         == SortedValues(less, Object(entries)) + [Entry(e.key, SortJson(less, e.value))]
  {
  }

  /** The collision: an own __proto__ property leaves no trace in the canonical form. */
  lemma {:induction false} ProtoLeavesNoTrace(less: (string, string) -> bool, entries: seq<Entry>, hidden: Json)
    requires StrictTotalOrder(less) && Distinct(Map(entries + [Entry(PROTO, hidden)], KeyOf))
    ensures SortJson(less, Object(entries + [Entry(PROTO, hidden)])) == SortJson(less, Object(entries))
    ensures !Same(Object(entries + [Entry(PROTO, hidden)]), Object(entries))
  {
    var extra := Entry(PROTO, SortJson(less, hidden));
    ValuesOfLonger(less, entries, Entry(PROTO, hidden));
    ValuesKeepKeys(less, Object(entries + [Entry(PROTO, hidden)]));
    SortsToSameObject(less, SortedValues(less, Object(entries)), extra);
  }

  /** Two sorted arrangements of entries with distinct keys are one. */
  lemma {:induction false} SortedOnce(less: (string, string) -> bool, a: seq<Entry>, b: seq<Entry>)
    requires StrictTotalOrder(less) && Distinct(Map(a, KeyOf)) && multiset(a) == multiset(b)
    requires Sorted(a, ByKey(less)) && Sorted(b, ByKey(less))
    ensures a == b
  {
    SortIgnoresOrder(less, a, b);
    SortFixed(a, ByKey(less));
    SortFixed(b, ByKey(less));
  }

  lemma {:induction false} SortsToSameObject(less: (string, string) -> bool, values: seq<Entry>, extra: Entry)
    requires StrictTotalOrder(less) && extra.key == PROTO && Distinct(Map(values + [extra], KeyOf))
    ensures Built(Sort(values + [extra], ByKey(less))) == Built(Sort(values, ByKey(less)))
  {
    var sorted, all := Sort(values, ByKey(less)), Sort(values + [extra], ByKey(less));
    OnlyExtraIsLost(values, extra);
    FilterPermuted(values + [extra], all, Assignable);
    KeyOrderIsWeak(less);
    SortSorts(values + [extra], ByKey(less));
    SortSorts(values, ByKey(less));
    FilterStaysSorted(all, Assignable, ByKey(less));
    MapPermuted(values, sorted, KeyOf);
    PermutationDistinct(Map(values, KeyOf), Map(sorted, KeyOf));
    SortedOnce(less, sorted, Filter(all, Assignable));
    BuiltForgets(all);
  }

  lemma {:induction false} OnlyExtraIsLost(values: seq<Entry>, extra: Entry)
    requires extra.key == PROTO && Distinct(Map(values + [extra], KeyOf))
    ensures Filter(values + [extra], Assignable) == values && Distinct(Map(values, KeyOf))
  {
    MapOne(values, extra, KeyOf);
    DistinctGrows(Map(values, KeyOf), PROTO);
    MapMembers(values, KeyOf);
    FilterAll(values, Assignable);
    FilterAppend(values, [extra], Assignable);
  }

  lemma {:induction false} BuiltForgets(entries: seq<Entry>)
    ensures Built(entries) == Built(Filter(entries, Assignable))
  {
    if entries != [] {
      var most, last := entries[..|entries| - 1], entries[|entries| - 1];
      assert entries == most + [last];
      FilterAppend(most, [last], Assignable);
      BuiltForgets(most);
      BuiltOne(Filter(most, Assignable), last);
      NoMore(Filter(most, Assignable));
    }
  }

  lemma {:induction false} BuiltOne(entries: seq<Entry>, e: Entry)
    ensures Built(entries + [e]) == Put(Built(entries), e)
  {
    assert (entries + [e])[..|entries|] == entries;
  }

  lemma {:induction false} FilterStaysSorted(s: seq<Entry>, keep: Entry -> bool, less: (Entry, Entry) -> bool)
    requires Sorted(s, less)
    ensures Sorted(Filter(s, keep), less)
  {
    if s != [] {
      FilterStaysSorted(s[1..], keep, less);
      FilterMembers(s[1..], keep);
      var rest := Filter(s[1..], keep);
      forall e <- rest ensures !less(e, s[0]) {
        var i :| 0 <= i < |s[1..]| && s[1..][i] == e;
        assert s[i + 1] == e;
      }
    }
  }

  /** Canonicalising twice changes nothing, lost properties or not. */
  lemma {:induction false} CanonicalIsIdempotent(less: (string, string) -> bool, v: Json)
    requires StrictTotalOrder(less) && Proper(v)
    ensures SortJson(less, SortJson(less, v)) == SortJson(less, v)
    decreases v
  {
    match v {
      case List(items) =>
        forall i | 0 <= i < |items| ensures SortJson(less, SortJson(less, items[i])) == SortJson(less, items[i]) {
          CanonicalIsIdempotent(less, items[i]);
        }
      case Object(entries) =>
        CanonicalObjectIsFixed(less, v);
      case _ =>
    }
  }

  lemma {:induction false} CanonicalObjectIsFixed(less: (string, string) -> bool, v: Json)
    requires StrictTotalOrder(less) && Proper(v) && v.Object?
    ensures SortJson(less, SortJson(less, v)) == SortJson(less, v)
    decreases v, 0
  {
    var c := SortJson(less, v);
    CanonicalIsProper(less, v);
    forall k | 0 <= k < |c.entries| ensures SortedValues(less, c)[k] == c.entries[k] {
      var j := CanonicalSource(less, v, k);
      CanonicalIsIdempotent(less, v.entries[j].value);
    }
    assert SortedValues(less, c) == c.entries;
    var values := SortedValues(less, v);
    var sorted := Sort(values, ByKey(less));
    var kept := Filter(sorted, Assignable);
    BuiltForgets(sorted);
    BuiltKeeps(sorted);
    KeyOrderIsWeak(less);
    SortSorts(values, ByKey(less));
    FilterStaysSorted(sorted, Assignable, ByKey(less));
    ResortFindsOrder(less, kept, c.entries);
  }

  /** Sorting the built object again finds the order it was built from. */
  lemma {:induction false} ResortFindsOrder(less: (string, string) -> bool, sorted: seq<Entry>, built: seq<Entry>)
    requires StrictTotalOrder(less) && Sorted(sorted, ByKey(less)) && multiset(sorted) == multiset(built)
    requires Distinct(Map(built, KeyOf)) && built == Built(sorted)
    ensures Built(Sort(built, ByKey(less))) == built
  {
    SortIgnoresOrder(less, built, sorted);
    SortFixed(sorted, ByKey(less));
  }

  // --------------------------------------------------------- the order of the keys

  function Pow10(n: nat): nat { if n == 0 then 1 else 10 * Pow10(n - 1) }

  function DigitOf(c: char): nat { if '0' <= c <= '9' then (c - '0') as nat else 0 }

  /** The number a digit string writes. */
  function ValueOf(s: string): nat { if s == "" then 0 else DigitOf(s[0]) * Pow10(|s| - 1) + ValueOf(s[1..]) }

  predicate AllDigits(s: string) { forall i | 0 <= i < |s| :: '0' <= s[i] <= '9' }

  lemma {:induction false} ValueBelow(s: string)
    requires AllDigits(s)
    ensures ValueOf(s) < Pow10(|s|)
  {
    if s != "" {
      var p, d := Pow10(|s| - 1), DigitOf(s[0]);
      ValueBelow(s[1..]);
      assert d * p + p == (d + 1) * p <= 10 * p by { Scaled(d + 1, 10, p); }
    }
  }

  lemma {:induction false} Scaled(a: nat, b: nat, p: nat)
    requires a <= b
    ensures a * p <= b * p
  {
  }

  lemma {:induction false} HigherDigit(d: nat, e: nat, p: nat, v: nat, w: nat)
    requires d > e && w < p
    ensures d * p + v > e * p + w
  {
    Scaled(e + 1, d, p);
    assert (e + 1) * p == e * p + p;
  }

  /** Of equally long digit strings the lexicographic order is the numeric one. */
  lemma {:induction false} AboveIsGreater(a: string, b: string)
    requires AllDigits(a) && AllDigits(b) && |a| == |b|
    ensures Above(a, b) <==> ValueOf(a) > ValueOf(b)
    ensures !Above(a, b) && !Above(b, a) ==> a == b
  {
    if a != "" {
      var p, d, e := Pow10(|a| - 1), DigitOf(a[0]), DigitOf(b[0]);
      AboveIsGreater(a[1..], b[1..]);
      ValueBelow(a[1..]);
      ValueBelow(b[1..]);
      if d > e { HigherDigit(d, e, p, ValueOf(a[1..]), ValueOf(b[1..])); }
      if e > d { HigherDigit(e, d, p, ValueOf(b[1..]), ValueOf(a[1..])); }
      assert a == [a[0]] + a[1..] && b == [b[0]] + b[1..];
    }
  }

  lemma {:induction false} Pow10Grows(m: nat, n: nat)
    requires m <= n
    ensures Pow10(m) <= Pow10(n)
    decreases n
  {
    if m < n { Pow10Grows(m, n - 1); }
  }

  /** A digit string without leading zero is at least as large as its length says. */
  lemma {:induction false} ValueAbove(s: string)
    requires AllDigits(s) && s != "" && s[0] != '0'
    ensures ValueOf(s) >= Pow10(|s| - 1)
  {
    Scaled(1, DigitOf(s[0]), Pow10(|s| - 1));
  }

  lemma {:induction false} ShorterIsLess(a: string, b: string)
    requires AllDigits(a) && AllDigits(b) && |a| < |b| && b[0] != '0'
    ensures ValueOf(a) < ValueOf(b)
  {
    ValueBelow(a);
    ValueAbove(b);
    Pow10Grows(|a|, |b| - 1);
  }

  /** Index names are the decimal numbers up to 4294967294, written without leading zeros. */
  lemma {:induction false} IndexMeaning(key: string)
    ensures IsIndex(key) <==> key != "" && AllDigits(key) && (key[0] == '0' ==> key == "0") && ValueOf(key) <= 4294967294
  {
    var top := "4294967294";
    TopValue(top);
    if key != "" && AllDigits(key) {
      assert forall c <- key :: '0' <= c <= '9';
      assert key[0] == '0' && |key| == 1 ==> key == "0";
      if |key| == 10 { AboveIsGreater(key, top); }
      if |key| < 10 { ShorterIsLess(key, top); }
      if |key| > 10 && key[0] != '0' { ShorterIsLess(top, key); }
    }
    if IsIndex(key) { assert forall i | 0 <= i < |key| :: key[i] in key; }
  }

  lemma {:induction false} ValueStep(d: char, rest: string, v: nat, p: nat)
    requires '0' <= d <= '9' && AllDigits(rest) && ValueOf(rest) == v && Pow10(|rest|) == p
    ensures AllDigits([d] + rest) && ValueOf([d] + rest) == DigitOf(d) * p + v && Pow10(|[d] + rest|) == 10 * p
  {
    assert ([d] + rest)[1..] == rest;
  }

  lemma {:induction false} TopValue(top: string)
    requires top == "4294967294"
    ensures AllDigits(top) && ValueOf(top) == 4294967294
  {
    var e := top[5..];
    LowerTopValue(e);
    UpperTopValue(e);
    assert top == "42949" + e;
  }

  lemma {:induction false} LowerTopValue(e: string)
    requires |e| == 5 && e[0] == '6' && e[1] == '7' && e[2] == '2' && e[3] == '9' && e[4] == '4'
    ensures AllDigits(e) && ValueOf(e) == 67294 && Pow10(|e|) == 100000
  {
    ValueStep('4', e[5..], 0, 1);
    ValueStep('9', ['4'] + e[5..], 4, 10);
    assert ['9'] + (['4'] + e[5..]) == e[3..];
    ValueStep('2', e[3..], 94, 100);
    assert ['2'] + e[3..] == e[2..];
    ValueStep('7', e[2..], 294, 1000);
    assert ['7'] + e[2..] == e[1..];
    ValueStep('6', e[1..], 7294, 10000);
    assert ['6'] + e[1..] == e;
  }

  lemma {:induction false} UpperTopValue(e: string)
    requires AllDigits(e) && ValueOf(e) == 67294 && Pow10(|e|) == 100000
    ensures AllDigits("42949" + e) && ValueOf("42949" + e) == 4294967294
  {
    ValueStep('9', e, 67294, 100000);
    var f := ['9'] + e;
    ValueStep('4', f, 967294, 1000000);
    var g := ['4'] + f;
    ValueStep('9', g, 4967294, 10000000);
    var h := ['9'] + g;
    ValueStep('2', h, 94967294, 100000000);
    var i := ['2'] + h;
    ValueStep('4', i, 294967294, 1000000000);
    assert ['4'] + i == "42949" + e;
  }

  lemma {:induction false} IndexOrder(a: string, b: string)
    requires IsIndex(a) && IsIndex(b)
    ensures IndexBefore(a, b) <==> ValueOf(a) < ValueOf(b)
    ensures a == b || ValueOf(a) < ValueOf(b) || ValueOf(b) < ValueOf(a)
  {
    IndexMeaning(a);
    IndexMeaning(b);
    if |a| == |b| {
      AboveIsGreater(b, a);
      AboveIsGreater(a, b);
    } else if |a| < |b| {
      ShorterIsLess(a, b);
    } else {
      ShorterIsLess(b, a);
    }
  }

  /** The order of an object's properties after sorting: numbers first and ascending, then names in the order of
      the comparison. */
  ghost predicate KeyBefore(less: (string, string) -> bool, a: string, b: string) {
    if IsIndex(a) then IsIndex(b) ==> ValueOf(a) < ValueOf(b) else !IsIndex(b) && less(a, b)
  }

  ghost predicate KeysOrdered(less: (string, string) -> bool, entries: seq<Entry>) {
    forall i, j | 0 <= i < j < |entries| :: KeyBefore(less, entries[i].key, entries[j].key)
  }

  lemma {:induction false} FirstBeforeAll(less: (string, string) -> bool, e: Entry, entries: seq<Entry>)
    requires KeysOrdered(less, entries) && entries != [] && IsIndex(e.key) && KeyBefore(less, e.key, entries[0].key)
    ensures KeysOrdered(less, [e] + entries)
  {
    forall i, j | 0 <= i < j < |[e] + entries| ensures KeyBefore(less, ([e] + entries)[i].key, ([e] + entries)[j].key) {
      if i == 0 && j > 1 { assert KeyBefore(less, entries[0].key, entries[j - 1].key); }
      if i > 0 { assert KeyBefore(less, entries[i - 1].key, entries[j - 1].key); }
    }
  }

  /** A new property that follows every other name in the comparison leaves the object ordered. */
  lemma {:induction false} PlacedOrdered(less: (string, string) -> bool, entries: seq<Entry>, e: Entry)
    requires KeysOrdered(less, entries) && forall i | 0 <= i < |entries| :: entries[i].key != e.key
    requires !IsIndex(e.key) ==> forall i | 0 <= i < |entries| :: IsIndex(entries[i].key) || less(entries[i].key, e.key)
    ensures KeysOrdered(less, Placed(entries, e))
  {
    if entries != [] {
      var first, rest := entries[0], entries[1..];
      if IsIndex(e.key) && IsIndex(first.key) { IndexOrder(e.key, first.key); }
      if IsIndex(e.key) && (!IsIndex(first.key) || IndexBefore(e.key, first.key)) {
        FirstBeforeAll(less, e, entries);
      } else {
        PlacedOrdered(less, rest, e);
        var placed := Placed(rest, e);
        forall j | 0 <= j < |placed| ensures KeyBefore(less, first.key, placed[j].key) {
          assert placed[j] in multiset(placed);
          if placed[j] != e {
            assert placed[j] in multiset(rest);
            var i :| 0 <= i < |rest| && rest[i] == placed[j];
            assert entries[i + 1] == placed[j] && KeyBefore(less, entries[0].key, entries[i + 1].key);
          }
        }
        FirstStays(less, first, placed);
      }
    }
  }

  lemma {:induction false} FirstStays(less: (string, string) -> bool, first: Entry, rest: seq<Entry>)
    requires KeysOrdered(less, rest) && forall j | 0 <= j < |rest| :: KeyBefore(less, first.key, rest[j].key)
    ensures KeysOrdered(less, [first] + rest)
  {
    forall i, j | 0 <= i < j < |[first] + rest| ensures KeyBefore(less, ([first] + rest)[i].key, ([first] + rest)[j].key) {
      if i > 0 { assert KeyBefore(less, rest[i - 1].key, rest[j - 1].key); }
    }
  }

  lemma {:induction false} BuiltFrom(entries: seq<Entry>, e: Entry)
    requires e in Built(entries)
    ensures e in entries
  {
    BuiltKeeps(entries);
    SamePermutation(Built(entries), Filter(entries, Assignable));
    FilterMembers(entries, Assignable);
  }

  lemma {:induction false} EarlierIsLess(less: (string, string) -> bool, most: seq<Entry>, last: Entry, e: Entry)
    requires StrictTotalOrder(less) && Sorted(most + [last], ByKey(less)) && Distinct(Map(most + [last], KeyOf)) && e in most
    ensures e.key != last.key && less(e.key, last.key)
  {
    var sorted := most + [last];
    var j :| 0 <= j < |most| && most[j] == e;
    assert sorted[j] == e && sorted[|most|] == last;
    assert !ByKey(less)(sorted[|most|], sorted[j]);
    assert Map(sorted, KeyOf)[j] != Map(sorted, KeyOf)[|most|];
  }

  lemma {:induction false} SortedFront(less: (Entry, Entry) -> bool, most: seq<Entry>, last: Entry)
    requires Sorted(most + [last], less)
    ensures Sorted(most, less)
  {
    forall i, j | 0 <= i < j < |most| ensures !less(most[j], most[i]) {
      assert !less((most + [last])[j], (most + [last])[i]);
    }
  }

  lemma {:induction false} BuiltOrdered(less: (string, string) -> bool, sorted: seq<Entry>)
    requires StrictTotalOrder(less) && Sorted(sorted, ByKey(less)) && Distinct(Map(sorted, KeyOf))
    ensures KeysOrdered(less, Built(sorted))
  {
    if sorted != [] {
      var most, last := sorted[..|sorted| - 1], sorted[|sorted| - 1];
      assert sorted == most + [last];
      LastApart(most, last);
      SortedFront(ByKey(less), most, last);
      BuiltOrdered(less, most);
      var built := Built(most);
      forall i | 0 <= i < |built| ensures built[i].key != last.key && less(built[i].key, last.key) {
        BuiltFrom(most, built[i]);
        EarlierIsLess(less, most, last, built[i]);
      }
      PlacedOrdered(less, built, last);
    }
  }

  /** Canonical objects list their keys in order: index names ascending by number, then the rest as the
      comparison has them. */
  lemma {:induction false} CanonicalOrder(less: (string, string) -> bool, v: Json)
    requires StrictTotalOrder(less) && Proper(v) && v.Object?
    ensures KeysOrdered(less, SortJson(less, v).entries)
  {
    var values := SortedValues(less, v);
    ValuesKeepKeys(less, v);
    KeyOrderIsWeak(less);
    SortSorts(values, ByKey(less));
    MapPermuted(values, Sort(values, ByKey(less)), KeyOf);
    PermutationDistinct(Map(values, KeyOf), Map(Sort(values, ByKey(less)), KeyOf));
    BuiltOrdered(less, Sort(values, ByKey(less)));
  }
}
